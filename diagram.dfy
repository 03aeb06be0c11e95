/**
 * The reaction diagram of `show_prediction`: six column slots, filled left
 * to right with the reactant, then either an arrow and the product, or a
 * plus, the second reactant, an arrow and the product. Each molecule is
 * captioned with its SMILES string in capitals.
 */
module ReactionDiagram {
  import opened Wrappers
  import opened Text
  import opened Reactions

  /** One picture: the stem of its image file and the caption under it, if any. */
  datatype Element = Element(image: string, caption: Option<string>)

  const Arrow: Element := Element("arrow", None)
  const Plus: Element := Element("plus", None)

  /** `st.columns(6)`: the number of slots the diagram is laid out in. */
  const ColumnCount: nat := 6

  /**
   * What stops the drawing half-way: a second reactant whose SMILES cell is
   * empty, on which `.upper()` raises.
   */
  datatype RenderError = MissingCell(column: string)

  /** A row whose diagram can be drawn to the end: no second reactant, or one with its SMILES. */
  predicate Drawable(r: Reaction)
  {
    r.reactantsII.None? || r.reactantsIISmiles.Some?
  }

  function ReactantElement(r: Reaction): Element
  {
    Element(r.reactants, Some(ToUpper(r.reactantsSmiles)))
  }

  function ProductElement(r: Reaction): Element
  {
    Element(r.products, Some(ToUpper(r.productsSmiles)))
  }

  /**
   * The diagram of a row: three pictures without a second reactant, five
   * with one, or the error that interrupts it.
   */
  function Diagram(r: Reaction): (d: Result<seq<Element>, RenderError>)
    ensures d.Success? <==> Drawable(r)
  {
    match r.reactantsII
    case None => Success([ReactantElement(r), Arrow, ProductElement(r)])
    case Some(image) =>
      match r.reactantsIISmiles
      case None => Failure(MissingCell("reactants_II_smiles"))
      case Some(smiles) =>
        Success([ReactantElement(r), Plus, Element(image, Some(ToUpper(smiles))), Arrow, ProductElement(r)])
  }

  /**
   * The shape of a drawn diagram: the reactant first, then the arrow and the
   * product last, with a plus and the second reactant in between when there
   * is one.
   */
  lemma DiagramShape(r: Reaction)
    requires Drawable(r)
    ensures var d := Diagram(r).value;
      && |d| == (if r.reactantsII.None? then 3 else 5)
      && d[0] == ReactantElement(r)
      && d[|d| - 2] == Arrow
      && d[|d| - 1] == ProductElement(r)
      && (r.reactantsII.Some? ==>
            d[1] == Plus && d[2] == Element(r.reactantsII.value, Some(ToUpper(r.reactantsIISmiles.value))))
  {
  }

  /**
   * The slots once drawing stopped: the diagram's pictures left to right
   * followed by empty slots; after the error, only the reactant and the plus
   * drawn before it.
   */
  function Columns(r: Reaction): seq<Option<Element>>
  {
    match Diagram(r)
    case Success(d) => seq(ColumnCount, k requires 0 <= k < ColumnCount => if k < |d| then Some(d[k]) else None)
    case Failure(_) => [Some(ReactantElement(r)), Some(Plus), None, None, None, None]
  }

  /** The six slots hold the diagram's pictures left to right, then only empty slots. */
  lemma ColumnsLayout(r: Reaction)
    ensures var cols := Columns(r);
      && |cols| == ColumnCount
      && (forall k | 0 <= k < |cols| - 1 :: cols[k].None? ==> cols[k + 1].None?)
      && (Drawable(r) ==>
            forall k | 0 <= k < |cols| ::
              cols[k] == if k < |Diagram(r).value| then Some(Diagram(r).value[k]) else None)
      && (!Drawable(r) ==>
            cols[0] == Some(ReactantElement(r)) && cols[1] == Some(Plus) && cols[2].None?)
  {
    if Drawable(r) {
      DiagramShape(r);
    }
  }

  /** `show_prediction`: draws into six fresh slots and reports whether it was interrupted. */
  method ShowPrediction(r: Reaction) returns (columns: seq<Option<Element>>, err: Option<RenderError>)
    ensures columns == Columns(r)
    ensures err.None? <==> Drawable(r)
    ensures err.Some? ==> Diagram(r) == Failure(err.value)
  {
    var slots := new Option<Element>[ColumnCount](_ => None);
    slots[0] := Some(Element(r.reactants, Some(ToUpper(r.reactantsSmiles))));
    if r.reactantsII.None? {
      slots[1] := Some(Element("arrow", None));
      slots[2] := Some(Element(r.products, Some(ToUpper(r.productsSmiles))));
    } else {
      slots[1] := Some(Element("plus", None));
      if r.reactantsIISmiles.None? {
        columns, err := slots[..], Some(MissingCell("reactants_II_smiles"));
        return;
      }
      slots[2] := Some(Element(r.reactantsII.value, Some(ToUpper(r.reactantsIISmiles.value))));
      slots[3] := Some(Element("arrow", None));
      slots[4] := Some(Element(r.products, Some(ToUpper(r.productsSmiles))));
    }
    columns, err := slots[..], None;
  }

  /**
   * Every caption is the SMILES string of the molecule it stands under, in
   * capitals; only the arrow and the plus have none.
   */
  lemma CaptionsAreUpperSmiles(r: Reaction)
    requires Diagram(r).Success?
    ensures var d := Diagram(r).value;
      forall k | 0 <= k < |d| ::
        && (d[k].caption.None? <==> d[k] == Arrow || d[k] == Plus)
        && (d[k].caption.Some? ==> forall i | 0 <= i < |d[k].caption.value| :: !IsLowerAscii(d[k].caption.value[i]))
    ensures Diagram(r).value[0].caption == Some(ToUpper(r.reactantsSmiles))
    ensures Diagram(r).value[|Diagram(r).value| - 1].caption == Some(ToUpper(r.productsSmiles))
    ensures r.reactantsII.Some? ==> Diagram(r).value[2].caption == Some(ToUpper(r.reactantsIISmiles.value))
  {
  }
}
