/**
 * The reaction table and the two table operations the demo performs on it:
 * selecting the rows of one product (a boolean mask on the `name` column)
 * and ranking them by yield (`sort_values(by='yield_value', ascending=False)`),
 * plus the list of distinct product names the form offers.
 */
module Reactions {
  import opened Wrappers

  /**
   * One row of the reaction table. The columns that may be empty in the
   * table (a second reactant, a second catalyst, ...) are Options; the
   * image columns hold the file stem of a picture, the `*Smiles` columns the
   * notation shown under it. `temperature1` is the cell's number, read as
   * the exact rational value of the float; `pressure1` is the cell as the
   * table prints it; `yieldValue` is the ranking key.
   */
  datatype Reaction = Reaction(
    name: string,
    reactants: string,
    reactantsSmiles: string,
    reactantsII: Option<string>,
    reactantsIISmiles: Option<string>,
    products: string,
    productsSmiles: string,
    temperature1: real,
    pressure1: string,
    catalysts1: Option<string>,
    catalysts1II: Option<string>,
    solvents1: Option<string>,
    solvents1II: Option<string>,
    reagents1: Option<string>,
    reagents1II: Option<string>,
    yieldValue: int)

  // ---------------------------------------------------------------------
  // Filtering by product name
  // ---------------------------------------------------------------------

  /**
   * `reactions[reactions['name'] == product]`: every row whose name is
   * `product`, as often as it occurs in the table, and no other row.
   */
  function FilterByName(table: seq<Reaction>, product: string): (rows: seq<Reaction>)
    ensures forall r :: multiset(rows)[r] == if r.name == product then multiset(table)[r] else 0
  {
    if table == [] then []
    else
      assert table == [table[0]] + table[1..];
      (if table[0].name == product then [table[0]] else []) + FilterByName(table[1..], product)
  }

  /** A row is selected exactly when it is in the table and carries the product's name. */
  lemma FilterSelectsExactly(table: seq<Reaction>, product: string, r: Reaction)
    ensures r in FilterByName(table, product) <==> r in table && r.name == product
  {
    assert r in FilterByName(table, product) <==> multiset(FilterByName(table, product))[r] > 0;
    assert r in table <==> multiset(table)[r] > 0;
  }

  // ---------------------------------------------------------------------
  // The product names the form offers for "IUPAC name"
  // ---------------------------------------------------------------------

  /** The `name` column, row by row. */
  function Names(table: seq<Reaction>): seq<string>
  {
    seq(|table|, i requires 0 <= i < |table| => table[i].name)
  }

  /** `Series.unique()`: each value once, in the order of its first appearance. */
  function Unique(xs: seq<string>): (u: seq<string>)
    ensures forall x :: x in u <==> x in xs
    ensures forall i, j | 0 <= i < j < |u| :: u[i] != u[j]
  {
    if xs == [] then []
    else
      var u := Unique(xs[..|xs| - 1]);
      assert xs == xs[..|xs| - 1] + [xs[|xs| - 1]];
      if xs[|xs| - 1] in u then u else u + [xs[|xs| - 1]]
  }

  /** The names the selector offers for "IUPAC name" are exactly the names found in the table. */
  lemma OfferedNamesAreTableNames(table: seq<Reaction>, x: string)
    ensures x in Unique(Names(table)) <==> exists r | r in table :: r.name == x
  {
    if x in Names(table) {
      var i :| 0 <= i < |table| && Names(table)[i] == x;
      assert table[i] in table;
    }
    if exists r | r in table :: r.name == x {
      var r :| r in table && r.name == x;
      var i :| 0 <= i < |table| && table[i] == r;
      assert Names(table)[i] == x;
    }
  }

  /** Every name the form offers selects at least one row. */
  lemma OfferedNameSelectsRows(table: seq<Reaction>, product: string)
    requires product in Unique(Names(table))
    ensures |FilterByName(table, product)| > 0
  {
    var i :| 0 <= i < |table| && table[i].name == product;
    FilterSelectsExactly(table, product, table[i]);
  }

  // ---------------------------------------------------------------------
  // Ranking by yield
  // ---------------------------------------------------------------------

  /** Yields never increase down the list. */
  predicate SortedByYield(rows: seq<Reaction>)
  {
    forall i, j | 0 <= i < j < |rows| :: rows[i].yieldValue >= rows[j].yieldValue
  }

  function InsertByYield(r: Reaction, rows: seq<Reaction>): (out: seq<Reaction>)
    requires SortedByYield(rows)
    ensures multiset(out) == multiset(rows) + multiset{r}
    ensures out[0] == r || (|rows| > 0 && out[0] == rows[0])
    ensures SortedByYield(out)
  {
    if rows == [] || r.yieldValue >= rows[0].yieldValue then
      ConsKeepsSorted(r, rows);
      [r] + rows
    else
      assert rows == [rows[0]] + rows[1..];
      TailKeepsSorted(rows);
      var tail := InsertByYield(r, rows[1..]);
      ConsKeepsSorted(rows[0], tail);
      [rows[0]] + tail
  }

  lemma TailKeepsSorted(rows: seq<Reaction>)
    requires |rows| > 0 && SortedByYield(rows)
    ensures SortedByYield(rows[1..])
  {
    forall i, j | 0 <= i < j < |rows| - 1
      ensures rows[1..][i].yieldValue >= rows[1..][j].yieldValue
    {
      assert rows[1..][i] == rows[i + 1] && rows[1..][j] == rows[j + 1];
    }
  }

  /** A row whose yield is at least the head's may go in front of a ranked list. */
  lemma ConsKeepsSorted(r: Reaction, rows: seq<Reaction>)
    requires SortedByYield(rows)
    requires |rows| > 0 ==> r.yieldValue >= rows[0].yieldValue
    ensures SortedByYield([r] + rows)
  {
    var out := [r] + rows;
    forall i, j | 0 <= i < j < |out|
      ensures out[i].yieldValue >= out[j].yieldValue
    {
      assert out[j] == rows[j - 1];
      if i > 0 {
        assert out[i] == rows[i - 1];
      }
    }
  }

  /**
   * `sort_values(by='yield_value', ascending=False)`: the same rows, highest
   * yield first. The source uses the default sort kind, which is not stable,
   * so nothing is promised about the order of rows with equal yields.
   */
  function SortByYield(rows: seq<Reaction>): (sorted: seq<Reaction>)
    ensures multiset(sorted) == multiset(rows)
    ensures SortedByYield(sorted)
  {
    if rows == [] then []
    else
      assert rows == [rows[0]] + rows[1..];
      InsertByYield(rows[0], SortByYield(rows[1..]))
  }

  /** Dropping one row keeps a ranked list ranked. */
  lemma RemoveKeepsSorted(b: seq<Reaction>, j: nat)
    requires j < |b| && SortedByYield(b)
    ensures SortedByYield(b[..j] + b[j + 1..])
    ensures multiset(b[..j] + b[j + 1..]) == multiset(b) - multiset{b[j]}
  {
    var c := b[..j] + b[j + 1..];
    forall i, k | 0 <= i < k < |c|
      ensures c[i].yieldValue >= c[k].yieldValue
    {
      var i' := if i < j then i else i + 1;
      var k' := if k < j then k else k + 1;
      assert c[i] == b[i'] && c[k] == b[k'];
    }
    assert b == b[..j] + [b[j]] + b[j + 1..];
  }

  /** The top yields of two rankings of the same rows are equal. */
  lemma TopYieldsAgree(a: seq<Reaction>, b: seq<Reaction>)
    requires multiset(a) == multiset(b) && |a| > 0
    requires SortedByYield(a) && SortedByYield(b)
    ensures |b| > 0 && a[0].yieldValue == b[0].yieldValue
  {
    assert a[0] in multiset(a);
    var j :| 0 <= j < |b| && b[j] == a[0];
    assert b[0] in multiset(b);
    var k :| 0 <= k < |a| && a[k] == b[0];
  }

  /** Rows ahead of a row with the top yield all share that yield, so dropping it only shifts yields left. */
  lemma DropTopShiftsYields(b: seq<Reaction>, j: nat, c: seq<Reaction>)
    requires SortedByYield(b) && j < |b| && b[j].yieldValue == b[0].yieldValue
    requires c == b[..j] + b[j + 1..]
    ensures forall i | 0 <= i < |c| :: c[i].yieldValue == b[i + 1].yieldValue
  {
    forall i | 0 <= i < |b| - 1
      ensures c[i].yieldValue == b[i + 1].yieldValue
    {
      if i < j {
        assert c[i] == b[i];
        assert b[0].yieldValue >= b[i].yieldValue >= b[j].yieldValue;
        assert b[0].yieldValue >= b[i + 1].yieldValue >= b[j].yieldValue;
      } else {
        assert c[i] == b[i + 1];
      }
    }
  }

  /**
   * Although the order among equal yields is left open, the column of
   * yields is not: two rankings of the same rows show the same yields,
   * position by position.
   */
  lemma {:induction false} RankedYieldsAgree(a: seq<Reaction>, b: seq<Reaction>)
    requires multiset(a) == multiset(b)
    requires SortedByYield(a) && SortedByYield(b)
    ensures |a| == |b|
    ensures forall i | 0 <= i < |a| :: a[i].yieldValue == b[i].yieldValue
  {
    assert |a| == |multiset(a)| == |multiset(b)| == |b|;
    if |a| > 0 {
      TopYieldsAgree(a, b);
      assert a[0] in multiset(b);
      var j :| 0 <= j < |b| && b[j] == a[0];
      var b' := b[..j] + b[j + 1..];
      RemoveKeepsSorted(b, j);
      TailKeepsSorted(a);
      assert a == [a[0]] + a[1..];
      assert multiset(a[1..]) == multiset(b');
      RankedYieldsAgree(a[1..], b');
      DropTopShiftsYields(b, j, b');
      forall i | 1 <= i < |a|
        ensures a[i].yieldValue == b[i].yieldValue
      {
        assert a[i] == a[1..][i - 1];
        assert b'[i - 1].yieldValue == b[i].yieldValue;
      }
    }
  }

  /** Yields 45, 90 and 67 are shown as 90, 67, 45. */
  lemma RankingExample(rows: seq<Reaction>)
    requires |rows| == 3
    requires rows[0].yieldValue == 45 && rows[1].yieldValue == 90 && rows[2].yieldValue == 67
    ensures |SortByYield(rows)| == 3
    ensures SortByYield(rows)[0].yieldValue == 90
    ensures SortByYield(rows)[1].yieldValue == 67
    ensures SortByYield(rows)[2].yieldValue == 45
  {
    var expected := [rows[1], rows[2], rows[0]];
    assert rows == [rows[0], rows[1], rows[2]];
    assert multiset(expected) == multiset(rows);
    assert SortedByYield(expected);
    var ranked := SortByYield(rows);
    RankedYieldsAgree(ranked, expected);
  }
}
