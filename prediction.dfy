/**
 * The demo's lookup-and-render pipeline: the form resolves the chosen
 * product to its IUPAC name, selects the table rows for it, ranks them by
 * yield, and renders one unit per row (`show_prediction_form` and
 * `show_prediction_results`).
 */
module Prediction {
  import opened Wrappers
  import opened Text
  import opened Identifiers
  import opened Reactions
  import opened Conditions
  import opened ReactionDiagram

  /** What the results area shows for one reaction: its yield heading, conditions block and diagram slots. */
  datatype RenderUnit = RenderUnit(heading: string, conditions: string, columns: seq<Option<Element>>)

  const YieldPrefix: string := "**Yield**: "
  const YieldSuffix: string := "%"

  /** `'**Yield**: {0}%'.format(reaction['yield_value'])`. */
  function YieldHeading(r: Reaction): string
  {
    YieldPrefix + IntToDecimal(r.yieldValue) + YieldSuffix
  }

  /** Reads the yield back from a heading. */
  function ReadYield(heading: string): Option<int>
  {
    match Between(heading, YieldPrefix, YieldSuffix)
    case None => None
    case Some(digits) => ParseInt(digits)
  }

  lemma YieldHeadingReadsBack(r: Reaction)
    ensures ReadYield(YieldHeading(r)) == Some(r.yieldValue)
  {
    BetweenOfConcat(YieldPrefix, IntToDecimal(r.yieldValue), YieldSuffix);
    ParseIntRoundTrip(r.yieldValue);
  }

  /** The unit a row renders as when its diagram is drawn, or drawn up to the interruption. */
  function UnitOf(r: Reaction): RenderUnit
  {
    RenderUnit(YieldHeading(r), ConditionsMarkdown(r), Columns(r))
  }

  /**
   * What one unit shows reads back as the row's data: its yield from the
   * heading, its five condition lines from the markdown block, and six
   * diagram slots.
   */
  lemma UnitReadsBack(r: Reaction)
    requires '\n' !in r.pressure1
    requires forall v | v in Present(Cells(Catalysts, r)) :: '\n' !in v
    requires forall v | v in Present(Cells(Solvents, r)) :: '\n' !in v
    requires forall v | v in Present(Cells(Reagents, r)) :: '\n' !in v
    ensures ReadYield(UnitOf(r).heading) == Some(r.yieldValue)
    ensures Split(UnitOf(r).conditions, "\n") == ConditionLines(r)
    ensures |UnitOf(r).columns| == ColumnCount
  {
    YieldHeadingReadsBack(r);
    ConditionsBlockReadsBack(r);
    ColumnsLayout(r);
  }

  /**
   * `units` renders `ranked` in order: all of it, or, when `err` is set, up
   * to and including the first row whose diagram was interrupted, where
   * rendering stopped.
   */
  ghost predicate RenderedUpTo(ranked: seq<Reaction>, units: seq<RenderUnit>, err: Option<RenderError>)
  {
    && |units| <= |ranked|
    && units == UnitsOf(ranked)[..|units|]
    && (err.None? ==>
          && |units| == |ranked|
          && forall k | 0 <= k < |ranked| :: Drawable(ranked[k]))
    && (err.Some? ==>
          && |units| > 0
          && (forall k | 0 <= k < |units| - 1 :: Drawable(ranked[k]))
          && Diagram(ranked[|units| - 1]) == Failure(err.value))
  }

  /** `ranked` is `rows` ranked by non-increasing yield, and `units` renders `ranked` in order. */
  ghost predicate RenderedFrom(rows: seq<Reaction>, ranked: seq<Reaction>,
                               units: seq<RenderUnit>, err: Option<RenderError>)
  {
    && multiset(ranked) == multiset(rows)
    && SortedByYield(ranked)
    && RenderedUpTo(ranked, units, err)
  }

  /**
   * `show_prediction_results`: sorts the rows by yield, highest first, and
   * renders them one after the other; an interrupted diagram ends the loop.
   */
  method ShowPredictionResults(rows: seq<Reaction>)
    returns (ranked: seq<Reaction>, units: seq<RenderUnit>, err: Option<RenderError>)
    ensures RenderedFrom(rows, ranked, units, err)
  {
    ranked := SortByYield(rows);
    units, err := RenderRanked(ranked);
  }

  /** The loop of `show_prediction_results` over the ranked rows. */
  method RenderRanked(ranked: seq<Reaction>) returns (units: seq<RenderUnit>, err: Option<RenderError>)
    ensures RenderedUpTo(ranked, units, err)
  {
    ghost var expected := UnitsOf(ranked);
    units := [];
    err := None;
    var i := 0;
    while i < |ranked|
      invariant 0 <= i <= |ranked|
      invariant units == expected[..i]
      invariant forall k | 0 <= k < i :: Drawable(ranked[k])
    {
      var unit, interrupted := ShowReaction(ranked[i]);
      assert expected[i] == unit;
      TakeOneMore(expected, i);
      units := units + [unit];
      if interrupted.Some? {
        err := interrupted;
        return;
      }
      i := i + 1;
    }
  }

  /**
   * One pass of the loop: the yield heading, `show_conditions` and
   * `show_prediction` for one row, and whether its diagram was interrupted.
   */
  method ShowReaction(reaction: Reaction) returns (unit: RenderUnit, interrupted: Option<RenderError>)
    ensures unit == UnitOf(reaction)
    ensures interrupted.None? <==> Drawable(reaction)
    ensures interrupted.Some? ==> Diagram(reaction) == Failure(interrupted.value)
  {
    var heading := YieldHeading(reaction);
    var conditions := ConditionsMarkdown(reaction);
    var columns;
    columns, interrupted := ShowPrediction(reaction);
    unit := RenderUnit(heading, conditions, columns);
  }

  /** A prefix one longer is the prefix followed by the next element. */
  lemma TakeOneMore<T>(s: seq<T>, i: nat)
    requires i < |s|
    ensures s[..i + 1] == s[..i] + [s[i]]
  {
  }

  /** The units of the given rows, in order. */
  function UnitsOf(rows: seq<Reaction>): seq<RenderUnit>
  {
    seq(|rows|, k requires 0 <= k < |rows| => UnitOf(rows[k]))
  }

  /** The yields the headings show never increase down the page. */
  lemma HeadingsShowRankedYields(rows: seq<Reaction>, ranked: seq<Reaction>,
                                 units: seq<RenderUnit>, err: Option<RenderError>)
    requires RenderedFrom(rows, ranked, units, err)
    ensures forall i | 0 <= i < |units| :: ReadYield(units[i].heading) == Some(ranked[i].yieldValue)
    ensures forall i | 0 <= i < |units| - 1 ::
      ReadYield(units[i].heading).value >= ReadYield(units[i + 1].heading).value
  {
    forall i | 0 <= i < |units|
      ensures ReadYield(units[i].heading) == Some(ranked[i].yieldValue)
    {
      YieldHeadingReadsBack(ranked[i]);
    }
  }

  // ---------------------------------------------------------------------
  // The form
  // ---------------------------------------------------------------------

  /**
   * The values the "Product" selector offers: the table's distinct names
   * for "IUPAC name", the identifiers of the scheme's table otherwise.
   */
  predicate Offered(scheme: Scheme, value: string, table: seq<Reaction>)
  {
    if scheme == IupacName then value in Unique(Names(table))
    else scheme.Label() in ProductMapping && value in ProductMapping[scheme.Label()]
  }

  /** What pressing "Predict" leads to. */
  datatype Outcome =
    | Rejected(error: ResolveError)
    | Shown(product: string, ranked: seq<Reaction>, units: seq<RenderUnit>, failure: Option<RenderError>)

  /**
   * The form after "Predict": resolve the selection, select the rows of
   * that product and render them ranked by yield.
   */
  method Predict(scheme: Scheme, value: string, table: seq<Reaction>) returns (outcome: Outcome)
    ensures Resolve(ProductMapping, scheme, value).Failure? ==>
      outcome == Rejected(Resolve(ProductMapping, scheme, value).error)
    ensures Resolve(ProductMapping, scheme, value).Success? ==>
      && outcome.Shown?
      && outcome.product == Resolve(ProductMapping, scheme, value).value
      && RenderedFrom(FilterByName(table, outcome.product), outcome.ranked, outcome.units, outcome.failure)
  {
    var resolved := Resolve(ProductMapping, scheme, value);
    if resolved.Failure? {
      return Rejected(resolved.error);
    }
    var product := resolved.value;
    var rows := FilterByName(table, product);
    var ranked, units, failure := ShowPredictionResults(rows);
    outcome := Shown(product, ranked, units, failure);
  }

  /** Whatever the selector offers resolves, and an offered IUPAC name always finds rows. */
  lemma OfferedValuesResolve(scheme: Scheme, value: string, table: seq<Reaction>)
    requires Offered(scheme, value, table)
    ensures Resolve(ProductMapping, scheme, value).Success?
    ensures scheme == IupacName ==>
      |FilterByName(table, Resolve(ProductMapping, scheme, value).value)| > 0
  {
    if scheme == IupacName {
      OfferedNameSelectsRows(table, value);
    }
  }

  /**
   * When every IUPAC name of the fixed mapping names some row of the table,
   * every identifier the selector offers finds rows.
   */
  lemma OfferedValuesFindRows(scheme: Scheme, value: string, table: seq<Reaction>)
    requires forall name | name in CanonicalNames :: exists r | r in table :: r.name == name
    requires Offered(scheme, value, table)
    ensures |FilterByName(table, Resolve(ProductMapping, scheme, value).value)| > 0
  {
    OfferedValuesResolve(scheme, value, table);
    var product := Resolve(ProductMapping, scheme, value).value;
    if scheme != IupacName {
      ResolveProductMapping(scheme, value);
      var r :| r in table && r.name == product;
      FilterSelectsExactly(table, product, r);
    }
  }

  /** Every rendered reaction is a reaction for the resolved product, and each row for it is rendered. */
  lemma RenderedRowsAreTheProducts(table: seq<Reaction>, product: string, ranked: seq<Reaction>,
                                   units: seq<RenderUnit>, err: Option<RenderError>, r: Reaction)
    requires RenderedFrom(FilterByName(table, product), ranked, units, err)
    ensures r in ranked <==> r in table && r.name == product
  {
    FilterSelectsExactly(table, product, r);
    assert r in ranked <==> r in multiset(ranked);
  }
}
