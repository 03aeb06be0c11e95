/**
 * The conditions block shown for each reaction (`show_conditions` and
 * `get_condition_markdown`): five markdown list lines, in the fixed order
 * Temperature, Pressure, Catalysts, Solvents, Reagents, joined by newlines.
 */
module Conditions {
  import opened Wrappers
  import opened Text
  import opened Reactions

  /** Python's `int(x)` on a finite float: the integer part, truncated toward zero. */
  function TruncateTowardZero(x: real): (n: int)
    ensures 0.0 <= x ==> n as real <= x < n as real + 1.0
    ensures x < 0.0 ==> n as real - 1.0 < x <= n as real
  {
    if x >= 0.0 then x.Floor else -((-x).Floor)
  }

  /** The opening of a condition line: a list bullet and the bold label. */
  function LinePrefix(title: string): string
  {
    "* **" + title + "**: "
  }

  const TemperatureSuffix: string := " °C"
  const PressureSuffix: string := " MPa"

  function TemperatureLine(r: Reaction): string
  {
    LinePrefix("Temperature") + IntToDecimal(TruncateTowardZero(r.temperature1)) + TemperatureSuffix
  }

  function PressureLine(r: Reaction): string
  {
    LinePrefix("Pressure") + r.pressure1 + PressureSuffix
  }

  /** The three kinds of substance a condition may list. */
  datatype SubstanceType = Catalysts | Solvents | Reagents
  {
    /** The `substance_type` argument: the stem of its two column names. */
    function Stem(): string
    {
      match this
      case Catalysts => "catalysts"
      case Solvents => "solvents"
      case Reagents => "reagents"
    }
  }

  /** The cells `<type>_1` and `<type>_1_II` of a row, in that order. */
  function Cells(t: SubstanceType, r: Reaction): seq<Option<string>>
  {
    match t
    case Catalysts => [r.catalysts1, r.catalysts1II]
    case Solvents => [r.solvents1, r.solvents1II]
    case Reagents => [r.reagents1, r.reagents1II]
  }

  /**
   * The values of the non-empty cells, in cell order. Its own contract is
   * only a bound; what it keeps, how often and in which order is stated by
   * `PresentKeepsFilledCells` and `PresentOfConcat`.
   */
  function Present(cells: seq<Option<string>>): (values: seq<string>)
    ensures |values| <= |cells|
  {
    if cells == [] then []
    else (if cells[0].Some? then [cells[0].value] else []) + Present(cells[1..])
  }

  /** The kept values are exactly the contents of the non-empty cells, each as often as it fills a cell. */
  lemma {:induction false} PresentKeepsFilledCells(cells: seq<Option<string>>)
    ensures forall v :: v in Present(cells) <==> Some(v) in cells
    ensures forall v :: multiset(Present(cells))[v] == multiset(cells)[Some(v)]
  {
    if cells != [] {
      PresentKeepsFilledCells(cells[1..]);
      assert cells == [cells[0]] + cells[1..];
      assert multiset(cells) == multiset{cells[0]} + multiset(cells[1..]);
    }
  }

  /** Filtering keeps order: the kept values of two runs of cells, one after the other. */
  lemma {:induction false} PresentOfConcat(a: seq<Option<string>>, b: seq<Option<string>>)
    ensures Present(a + b) == Present(a) + Present(b)
  {
    if a == [] {
      assert a + b == b;
    } else {
      assert (a + b)[0] == a[0] && (a + b)[1..] == a[1..] + b;
      PresentOfConcat(a[1..], b);
    }
  }

  /** What a substance line lists: the present values, or the single placeholder "-". */
  function Items(t: SubstanceType, r: Reaction): seq<string>
  {
    var values := Present(Cells(t, r));
    if values == [] then ["-"] else values
  }

  function SubstanceLabel(t: SubstanceType): string
  {
    Capitalize(t.Stem())
  }

  /** `get_condition_markdown(substance_type, reaction)`. */
  function SubstanceLine(t: SubstanceType, r: Reaction): string
  {
    LinePrefix(SubstanceLabel(t)) + Join(Items(t, r), ", ")
  }

  /** The list `show_conditions` builds, in display order. */
  function ConditionLines(r: Reaction): seq<string>
  {
    [TemperatureLine(r), PressureLine(r),
     SubstanceLine(Catalysts, r), SubstanceLine(Solvents, r), SubstanceLine(Reagents, r)]
  }

  /** `'\n'.join(conditions)`: the markdown text of the block. */
  function ConditionsMarkdown(r: Reaction): string
  {
    Join(ConditionLines(r), "\n")
  }

  // ---------------------------------------------------------------------
  // Properties
  // ---------------------------------------------------------------------

  /** The label of a substance line is its type, capitalised. */
  lemma SubstanceLabels()
    ensures SubstanceLabel(Catalysts) == "Catalysts"
    ensures SubstanceLabel(Solvents) == "Solvents"
    ensures SubstanceLabel(Reagents) == "Reagents"
  {
    CatalystsLabel();
    SolventsLabel();
    ReagentsLabel();
  }

  /** Each stem is a word in small letters, so its label only raises the initial. */
  lemma SubstanceLabelRaisesInitial(t: SubstanceType)
    ensures SubstanceLabel(t) == [UpperChar(t.Stem()[0])] + t.Stem()[1..]
  {
    var stem := t.Stem();
    assert forall i | 0 <= i < |stem| :: 'a' <= stem[i] <= 'z';
    CapitalizeLowerWord(stem);
  }

  lemma CatalystsLabel()
    ensures SubstanceLabel(Catalysts) == "Catalysts"
  {
    SubstanceLabelRaisesInitial(Catalysts);
    assert UpperChar('c') == 'C';
    assert "catalysts"[1..] == "atalysts";
  }

  lemma SolventsLabel()
    ensures SubstanceLabel(Solvents) == "Solvents"
  {
    SubstanceLabelRaisesInitial(Solvents);
    assert UpperChar('s') == 'S';
    assert "solvents"[1..] == "olvents";
  }

  lemma ReagentsLabel()
    ensures SubstanceLabel(Reagents) == "Reagents"
  {
    SubstanceLabelRaisesInitial(Reagents);
    assert UpperChar('r') == 'R';
    assert "reagents"[1..] == "eagents";
  }

  /** The present values of two cells, case by case. */
  lemma PresentOfPair(a: Option<string>, b: Option<string>)
    ensures Present([a, b]) ==
      if a.Some? && b.Some? then [a.value, b.value]
      else if a.Some? then [a.value]
      else if b.Some? then [b.value]
      else []
  {
    assert [a, b][1..] == [b];
    assert [b][1..] == [];
  }

  /**
   * The placeholder and join rule: no value gives "-", one value gives that
   * value, two give both, `<type>_1` first, separated by ", ".
   */
  lemma SubstanceLineCases(t: SubstanceType, r: Reaction)
    ensures var c := Cells(t, r);
      && (c[0].None? && c[1].None? ==> SubstanceLine(t, r) == LinePrefix(SubstanceLabel(t)) + "-")
      && (c[0].Some? && c[1].None? ==> SubstanceLine(t, r) == LinePrefix(SubstanceLabel(t)) + c[0].value)
      && (c[0].None? && c[1].Some? ==> SubstanceLine(t, r) == LinePrefix(SubstanceLabel(t)) + c[1].value)
      && (c[0].Some? && c[1].Some? ==>
            SubstanceLine(t, r) == LinePrefix(SubstanceLabel(t)) + c[0].value + ", " + c[1].value)
  {
    var c := Cells(t, r);
    assert c == [c[0], c[1]];
    PresentOfPair(c[0], c[1]);
    if c[0].Some? && c[1].Some? {
      var items := [c[0].value, c[1].value];
      assert items[1..] == [c[1].value];
      assert Join(items, ", ") == c[0].value + ", " + c[1].value;
    }
  }

  /** Reads the items back from a substance line: the text after the label, split at ", ". */
  function ReadItems(t: SubstanceType, line: string): Option<seq<string>>
  {
    match Between(line, LinePrefix(SubstanceLabel(t)), "")
    case None => None
    case Some(rest) => Some(Split(rest, ", "))
  }

  /**
   * A substance line lists exactly its items, in order, as long as no value
   * itself contains ", ".
   */
  lemma SubstanceLineReadsBack(t: SubstanceType, r: Reaction)
    requires forall v | v in Present(Cells(t, r)) :: !Contains(v, ", ")
    ensures ReadItems(t, SubstanceLine(t, r)) == Some(Items(t, r))
  {
    var items := Items(t, r);
    forall k | 0 <= k < |items|
      ensures !Contains(items[k], ", ")
    {
      if items == ["-"] {
        assert !OccursAt("-", ", ", 0);
      } else {
        assert items[k] in Present(Cells(t, r));
      }
    }
    SplitJoin(items, ", ");
    BetweenOfConcat(LinePrefix(SubstanceLabel(t)), Join(items, ", "), "");
    assert SubstanceLine(t, r) == LinePrefix(SubstanceLabel(t)) + Join(items, ", ") + "";
  }

  /** Reads the temperature back from its line. */
  function ReadTemperature(line: string): Option<int>
  {
    match Between(line, LinePrefix("Temperature"), TemperatureSuffix)
    case None => None
    case Some(digits) => ParseInt(digits)
  }

  /** The temperature line shows the cell's value truncated toward zero, in whole degrees. */
  lemma TemperatureLineReadsBack(r: Reaction)
    ensures ReadTemperature(TemperatureLine(r)) == Some(TruncateTowardZero(r.temperature1))
  {
    var n := TruncateTowardZero(r.temperature1);
    BetweenOfConcat(LinePrefix("Temperature"), IntToDecimal(n), TemperatureSuffix);
    ParseIntRoundTrip(n);
  }

  /** The pressure line shows the cell's text between "* **Pressure**: " and " MPa". */
  lemma PressureLineReadsBack(r: Reaction)
    ensures Between(PressureLine(r), LinePrefix("Pressure"), PressureSuffix) == Some(r.pressure1)
  {
    BetweenOfConcat(LinePrefix("Pressure"), r.pressure1, PressureSuffix);
  }

  /** 80.7 degrees and a pressure cell "1.0" are shown as "80 °C" and "1.0 MPa". */
  lemma ConditionsExample(r: Reaction)
    requires r.temperature1 == 80.7 && r.pressure1 == "1.0"
    ensures TemperatureLine(r) == "* **Temperature**: 80 °C"
    ensures PressureLine(r) == "* **Pressure**: 1.0 MPa"
  {
    assert TruncateTowardZero(r.temperature1) == 80;
    assert NatToDecimal(80) == NatToDecimal(8) + "0";
  }

  lemma LinePrefixHasNoBreak(title: string)
    requires '\n' !in title
    ensures '\n' !in LinePrefix(title)
  {
    assert LinePrefix(title) == "* **" + title + "**: ";
  }

  lemma SubstanceLabelHasNoBreak(t: SubstanceType)
    ensures '\n' !in SubstanceLabel(t)
  {
    SubstanceLabelRaisesInitial(t);
    var stem := t.Stem();
    assert '\n' !in stem;
    assert '\n' !in stem[1..];
  }

  lemma TemperatureLineHasNoBreak(r: Reaction)
    ensures '\n' !in TemperatureLine(r)
  {
    var digits := IntToDecimal(TruncateTowardZero(r.temperature1));
    assert '\n' !in digits;
  }

  lemma PressureLineHasNoBreak(r: Reaction)
    requires '\n' !in r.pressure1
    ensures '\n' !in PressureLine(r)
  {
    LinePrefixHasNoBreak("Pressure");
    assert PressureLine(r) == LinePrefix("Pressure") + r.pressure1 + PressureSuffix;
  }

  lemma SubstanceLineHasNoBreak(t: SubstanceType, r: Reaction)
    requires forall v | v in Present(Cells(t, r)) :: '\n' !in v
    ensures '\n' !in SubstanceLine(t, r)
  {
    SubstanceLabelHasNoBreak(t);
    LinePrefixHasNoBreak(SubstanceLabel(t));
    var items := Items(t, r);
    forall j | 0 <= j < |items|
      ensures '\n' !in items[j]
    {
      if items != ["-"] {
        assert items[j] in Present(Cells(t, r));
      }
    }
    JoinAvoids(items, ", ", '\n');
  }

  /** The block is five lines: Temperature, Pressure, Catalysts, Solvents and Reagents, in that order. */
  lemma ConditionLinesOrder(r: Reaction)
    ensures |ConditionLines(r)| == 5
    ensures ConditionLines(r)[0][..|LinePrefix("Temperature")|] == LinePrefix("Temperature")
    ensures ConditionLines(r)[1][..|LinePrefix("Pressure")|] == LinePrefix("Pressure")
    ensures ConditionLines(r)[2][..|LinePrefix("Catalysts")|] == LinePrefix("Catalysts")
    ensures ConditionLines(r)[3][..|LinePrefix("Solvents")|] == LinePrefix("Solvents")
    ensures ConditionLines(r)[4][..|LinePrefix("Reagents")|] == LinePrefix("Reagents")
  {
    SubstanceLabels();
  }

  /** None of the five lines contains a line break when no cell it shows does. */
  lemma ConditionLinesHaveNoBreak(r: Reaction)
    requires '\n' !in r.pressure1
    requires forall v | v in Present(Cells(Catalysts, r)) :: '\n' !in v
    requires forall v | v in Present(Cells(Solvents, r)) :: '\n' !in v
    requires forall v | v in Present(Cells(Reagents, r)) :: '\n' !in v
    ensures forall k | 0 <= k < |ConditionLines(r)| :: '\n' !in ConditionLines(r)[k]
  {
    TemperatureLineHasNoBreak(r);
    PressureLineHasNoBreak(r);
    SubstanceLineHasNoBreak(Catalysts, r);
    SubstanceLineHasNoBreak(Solvents, r);
    SubstanceLineHasNoBreak(Reagents, r);
    LinesWithoutBreak(TemperatureLine(r), PressureLine(r),
                      SubstanceLine(Catalysts, r), SubstanceLine(Solvents, r), SubstanceLine(Reagents, r));
  }

  lemma LinesWithoutBreak(a: string, b: string, c: string, d: string, e: string)
    requires '\n' !in a && '\n' !in b && '\n' !in c && '\n' !in d && '\n' !in e
    ensures forall k | 0 <= k < 5 :: '\n' !in [a, b, c, d, e][k]
  {
  }

  /**
   * Splitting the block at line breaks gives back its five lines, as long as
   * no cell it shows contains a line break.
   */
  lemma ConditionsBlockReadsBack(r: Reaction)
    requires '\n' !in r.pressure1
    requires forall v | v in Present(Cells(Catalysts, r)) :: '\n' !in v
    requires forall v | v in Present(Cells(Solvents, r)) :: '\n' !in v
    requires forall v | v in Present(Cells(Reagents, r)) :: '\n' !in v
    ensures Split(ConditionsMarkdown(r), "\n") == ConditionLines(r)
  {
    ConditionLinesHaveNoBreak(r);
    SplitJoinAtChar(ConditionLines(r), '\n');
  }

}
