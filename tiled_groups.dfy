// Grouped, gridded point tables (cosilico_py/preprocessing/core/tiling.py,
// generate_tiled_data_grouped): features are dealt round-robin into groups
// in ascending order of frequency, each row gets the label of its grid
// square, and the rows are sorted by (grid, group, feature).
module TiledGroups {
  import opened Wrappers
  import JsArray
  import Text
  import Arith

  /** A point of the input table. */
  datatype Row = Row(featureIndex: int, x: real, y: real)

  /** A row of the result, with its grid label and group. */
  datatype TiledRow = TiledRow(grid: string, group: int, featureIndex: int, x: real, y: real)

  datatype TilingError = MissingColumn(name: string) | ZeroDivision | GridOfZero

  const RequiredColumns: seq<string> := ["feature_index", "x_location", "y_location"]

  /** The first required column the table lacks, in the order checked. */
  function FirstMissing(columns: set<string>): (r: Option<string>)
    ensures r.None? <==> forall c :: c in RequiredColumns ==> c in columns
    ensures r.Some? ==> r.value in RequiredColumns && r.value !in columns
  {
    if "feature_index" !in columns then Some("feature_index")
    else if "x_location" !in columns then Some("x_location")
    else if "y_location" !in columns then Some("y_location")
    else None
  }

  // ---------------------------------------------------------------------
  // Python integer division and remainder (floor semantics; numpy `%` by
  // zero gives 0)

  function PyDiv(a: int, b: int): int
    requires b != 0
  {
    if b > 0 || a % b == 0 then a / b else a / b - 1
  }

  function PyMod(a: int, b: int): (r: int)
    ensures b > 0 ==> 0 <= r < b
    ensures b < 0 ==> b < r <= 0
    ensures b == 0 ==> r == 0
  {
    if b == 0 then 0 else a - b * PyDiv(a, b)
  }

  // ---------------------------------------------------------------------
  // Frequency order (value_counts().sort_values())

  /** How many rows hold feature f. */
  function Count(rows: seq<Row>, f: int): nat
  {
    if |rows| == 0 then 0
    else Count(rows[..|rows| - 1], f) + (if rows[|rows| - 1].featureIndex == f then 1 else 0)
  }

  function FeatureColumn(rows: seq<Row>): seq<int>
  {
    seq(|rows|, i requires 0 <= i < |rows| => rows[i].featureIndex)
  }

  predicate Ascending(rows: seq<Row>, s: seq<int>)
  {
    forall i, j :: 0 <= i < j < |s| ==> Count(rows, s[i]) <= Count(rows, s[j])
  }

  /** Insert f before the first feature at least as frequent. */
  function InsertByCount(rows: seq<Row>, f: int, s: seq<int>): (r: seq<int>)
    ensures multiset(r) == multiset(s) + multiset{f}
    ensures forall y :: y in r <==> y in s || y == f
  {
    if |s| == 0 || Count(rows, f) <= Count(rows, s[0]) then [f] + s
    else
      assert s == [s[0]] + s[1..];
      [s[0]] + InsertByCount(rows, f, s[1..])
  }

  lemma {:induction false} InsertByCountSorted(rows: seq<Row>, f: int, s: seq<int>)
    requires Ascending(rows, s)
    requires JsArray.NoDup(s) && f !in s
    ensures Ascending(rows, InsertByCount(rows, f, s))
    ensures JsArray.NoDup(InsertByCount(rows, f, s))
  {
    if |s| > 0 && Count(rows, f) > Count(rows, s[0]) {
      var t := InsertByCount(rows, f, s[1..]);
      InsertByCountSorted(rows, f, s[1..]);
      forall y | y in t
        ensures Count(rows, s[0]) <= Count(rows, y)
      {
        if y != f {
          var m :| 0 <= m < |s[1..]| && s[1..][m] == y;
          assert s[m + 1] == y;
        }
      }
      assert s[0] !in t by {
        assert s[0] !in s[1..];
      }
      ConsAscending(rows, s[0], t);
    }
  }

  /** Putting a least frequent feature in front keeps the order ascending. */
  lemma ConsAscending(rows: seq<Row>, x: int, t: seq<int>)
    requires Ascending(rows, t) && JsArray.NoDup(t) && x !in t
    requires forall y :: y in t ==> Count(rows, x) <= Count(rows, y)
    ensures Ascending(rows, [x] + t) && JsArray.NoDup([x] + t)
  {
    var r := [x] + t;
    assert forall k :: 0 < k < |r| ==> r[k] == t[k - 1] && t[k - 1] in t;
  }

  function SortByCount(rows: seq<Row>, s: seq<int>): (r: seq<int>)
    ensures multiset(r) == multiset(s)
    ensures forall y :: y in r <==> y in s
  {
    if |s| == 0 then []
    else
      assert s == [s[0]] + s[1..];
      InsertByCount(rows, s[0], SortByCount(rows, s[1..]))
  }

  lemma {:induction false} SortByCountSorted(rows: seq<Row>, s: seq<int>)
    requires JsArray.NoDup(s)
    ensures Ascending(rows, SortByCount(rows, s)) && JsArray.NoDup(SortByCount(rows, s))
  {
    if |s| > 0 {
      SortByCountSorted(rows, s[1..]);
      InsertByCountSorted(rows, s[0], SortByCount(rows, s[1..]));
    }
  }

  /** The distinct features, least frequent first (ties in first-seen order). */
  function FrequencyOrder(rows: seq<Row>): seq<int>
  {
    SortByCount(rows, JsArray.DistinctFirstSeen(FeatureColumn(rows)))
  }

  /** Every feature of the table occurs once in the frequency order, and the
      order never puts a more frequent feature first. */
  lemma FrequencyOrderIsSorted(rows: seq<Row>)
    ensures Ascending(rows, FrequencyOrder(rows)) && JsArray.NoDup(FrequencyOrder(rows))
    ensures forall i :: 0 <= i < |rows| ==> rows[i].featureIndex in FrequencyOrder(rows)
    ensures forall f :: f in FrequencyOrder(rows) ==> Count(rows, f) > 0
  {
    var col := FeatureColumn(rows);
    SortByCountSorted(rows, JsArray.DistinctFirstSeen(col));
    forall i | 0 <= i < |rows|
      ensures rows[i].featureIndex in FrequencyOrder(rows)
    {
      assert col[i] == rows[i].featureIndex;
    }
    forall f | f in FrequencyOrder(rows)
      ensures Count(rows, f) > 0
    {
      var i :| 0 <= i < |col| && col[i] == f;
      CountPositive(rows, i);
    }
  }

  lemma {:induction false} CountPositive(rows: seq<Row>, i: nat)
    requires i < |rows|
    ensures Count(rows, rows[i].featureIndex) > 0
  {
    if i < |rows| - 1 {
      assert rows[..|rows| - 1][i] == rows[i];
      CountPositive(rows[..|rows| - 1], i);
    }
  }

  // ---------------------------------------------------------------------
  // Groups

  /** `np.arange(num_feats) % group_size` at position p. */
  function GroupAt(p: int, groupCount: int): int
  {
    PyMod(p, groupCount)
  }

  /** The group of feature f: its position in the frequency order, modulo
      the number of groups. */
  function FeatureGroup(order: seq<int>, f: int, groupCount: int): int
  {
    GroupAt(JsArray.IndexOf(order, f), groupCount)
  }

  /** Number of positions below n whose remainder modulo g is k. */
  function ResidueCount(n: nat, g: nat, k: nat): nat
    requires g > 0
  {
    if n == 0 then 0 else ResidueCount(n - 1, g, k) + (if (n - 1) % g == k then 1 else 0)
  }

  /** Round-robin dealing: group k of g gets n div g positions, plus one
      when k is below n mod g. */
  lemma {:induction false} ResidueCountIs(n: nat, g: nat, k: nat)
    requires g > 0 && k < g
    ensures ResidueCount(n, g, k) == n / g + (if k < n % g then 1 else 0)
  {
    if n > 0 {
      var m := n - 1;
      ResidueCountIs(m, g, k);
      var q, r := m / g, m % g;
      Arith.Euclid(m, g);
      if r == g - 1 {
        assert (q + 1) * g == q * g + g;
        Arith.DivModUnique(n, g, q + 1, 0);
      } else {
        Arith.DivModUnique(n, g, q, r + 1);
      }
    }
  }

  /** Group sizes differ by at most one. */
  lemma GroupsBalanced(n: nat, g: nat, k1: nat, k2: nat)
    requires g > 0 && k1 < g && k2 < g
    ensures ResidueCount(n, g, k1) <= ResidueCount(n, g, k2) + 1
  {
    ResidueCountIs(n, g, k1);
    ResidueCountIs(n, g, k2);
  }

  /** The feature at position p of the frequency order is in group p mod G;
      with at least one group that is one of 0 .. G-1, with none it is 0. */
  lemma FeatureGroupOfPosition(order: seq<int>, p: nat, groupCount: int)
    requires p < |order| && JsArray.NoDup(order)
    ensures FeatureGroup(order, order[p], groupCount) == PyMod(p, groupCount)
    ensures groupCount > 0 ==> 0 <= FeatureGroup(order, order[p], groupCount) < groupCount
    ensures groupCount == 0 ==> FeatureGroup(order, order[p], groupCount) == 0
  {
  }

  // ---------------------------------------------------------------------
  // Grid labels

  /** `divmod(v, grid_size)[0]` on a float: floor of the quotient. */
  function GridCell(v: real, gridSize: int): int
    requires gridSize != 0
  {
    (v / gridSize as real).Floor
  }

  /** f"{int(x)}_{int(y)}" for the grid square of (x, y). */
  function GridLabel(x: real, y: real, gridSize: int): string
    requires gridSize != 0
  {
    Text.IntToDecimal(GridCell(x, gridSize)) + "_" + Text.IntToDecimal(GridCell(y, gridSize))
  }

  lemma NoUnderscoreInDecimal(n: int)
    ensures '_' !in Text.IntToDecimal(n)
  {
    var s := Text.IntToDecimal(n);
    if n >= 0 {
      assert Text.AllDigits(Text.NatToDecimal(n));
    } else {
      assert Text.AllDigits(Text.NatToDecimal(-n));
      assert s == "-" + Text.NatToDecimal(-n);
      forall i | 0 <= i < |s|
        ensures s[i] != '_'
      {
        if i > 0 {
          assert s[i] == Text.NatToDecimal(-n)[i - 1];
        }
      }
    }
  }

  /** Two rows share a label exactly when they fall in the same grid square. */
  lemma GridLabelInjective(x1: real, y1: real, x2: real, y2: real, gridSize: int)
    requires gridSize != 0
    ensures GridLabel(x1, y1, gridSize) == GridLabel(x2, y2, gridSize) <==>
      GridCell(x1, gridSize) == GridCell(x2, gridSize) && GridCell(y1, gridSize) == GridCell(y2, gridSize)
  {
    var a, b := Text.IntToDecimal(GridCell(x1, gridSize)), Text.IntToDecimal(GridCell(y1, gridSize));
    var c, d := Text.IntToDecimal(GridCell(x2, gridSize)), Text.IntToDecimal(GridCell(y2, gridSize));
    if GridLabel(x1, y1, gridSize) == GridLabel(x2, y2, gridSize) {
      NoUnderscoreInDecimal(GridCell(x1, gridSize));
      NoUnderscoreInDecimal(GridCell(y1, gridSize));
      NoUnderscoreInDecimal(GridCell(x2, gridSize));
      NoUnderscoreInDecimal(GridCell(y2, gridSize));
      assert Text.Join([a, b], '_') == a + "_" + b;
      assert Text.Join([c, d], '_') == c + "_" + d;
      Text.SplitJoin([a, b], '_');
      Text.SplitJoin([c, d], '_');
      Text.IntToDecimalInjective(GridCell(x1, gridSize), GridCell(x2, gridSize));
      Text.IntToDecimalInjective(GridCell(y1, gridSize), GridCell(y2, gridSize));
    }
  }

  // ---------------------------------------------------------------------
  // Sort order: the grid column is a categorical of strings, so its order
  // is the text order; groups and features are ordered as numbers.

  /** Python's string order: code point by code point, a prefix first. */
  predicate StrLess(a: string, b: string)
  {
    |b| > 0 && (|a| == 0 || a[0] < b[0] || (a[0] == b[0] && StrLess(a[1..], b[1..])))
  }

  lemma {:induction false} StrLessIrreflexive(a: string)
    ensures !StrLess(a, a)
  {
    if |a| > 0 {
      StrLessIrreflexive(a[1..]);
    }
  }

  lemma {:induction false} StrLessTransitive(a: string, b: string, c: string)
    requires StrLess(a, b) && StrLess(b, c)
    ensures StrLess(a, c)
  {
    if |a| > 0 && a[0] == b[0] && b[0] == c[0] {
      StrLessTransitive(a[1..], b[1..], c[1..]);
    }
  }

  lemma {:induction false} StrLessTotal(a: string, b: string)
    requires a != b
    ensures StrLess(a, b) || StrLess(b, a)
  {
    if |a| > 0 && |b| > 0 && a[0] == b[0] {
      assert a == [a[0]] + a[1..] && b == [b[0]] + b[1..];
      StrLessTotal(a[1..], b[1..]);
    }
  }

  /** The grid labels sort as text, not by cell: "10_0" comes before "9_0". */
  lemma GridOrderIsTextual()
    ensures StrLess("10_0", "9_0") && !StrLess("9_0", "10_0")
  {
  }

  /** Row a may come before row b in the sorted table. */
  predicate KeyLeq(a: TiledRow, b: TiledRow)
  {
    StrLess(a.grid, b.grid)
    || (a.grid == b.grid && (a.group < b.group || (a.group == b.group && a.featureIndex <= b.featureIndex)))
  }

  lemma KeyLeqTotal(a: TiledRow, b: TiledRow)
    ensures KeyLeq(a, b) || KeyLeq(b, a)
  {
    if a.grid != b.grid {
      StrLessTotal(a.grid, b.grid);
    }
  }

  lemma KeyLeqTransitive(a: TiledRow, b: TiledRow, c: TiledRow)
    requires KeyLeq(a, b) && KeyLeq(b, c)
    ensures KeyLeq(a, c)
  {
    if StrLess(a.grid, b.grid) && StrLess(b.grid, c.grid) {
      StrLessTransitive(a.grid, b.grid, c.grid);
    }
  }

  predicate SortedRows(s: seq<TiledRow>)
  {
    forall i, j :: 0 <= i < j < |s| ==> KeyLeq(s[i], s[j])
  }

  function InsertRow(x: TiledRow, s: seq<TiledRow>): (r: seq<TiledRow>)
    ensures multiset(r) == multiset(s) + multiset{x}
    ensures forall y :: y in r <==> y in s || y == x
  {
    if |s| == 0 || KeyLeq(x, s[0]) then [x] + s
    else
      assert s == [s[0]] + s[1..];
      [s[0]] + InsertRow(x, s[1..])
  }

  lemma {:induction false} InsertRowSorted(x: TiledRow, s: seq<TiledRow>)
    requires SortedRows(s)
    ensures SortedRows(InsertRow(x, s))
  {
    if |s| == 0 {
    } else if KeyLeq(x, s[0]) {
      var r := [x] + s;
      forall i, j | 0 <= i < j < |r|
        ensures KeyLeq(r[i], r[j])
      {
        if i == 0 && j > 1 {
          KeyLeqTransitive(x, s[0], s[j - 1]);
        }
      }
    } else {
      KeyLeqTotal(x, s[0]);
      var t := InsertRow(x, s[1..]);
      InsertRowSorted(x, s[1..]);
      var r := [s[0]] + t;
      forall i, j | 0 <= i < j < |r|
        ensures KeyLeq(r[i], r[j])
      {
        if i == 0 {
          assert t[j - 1] in t;
          if t[j - 1] != x {
            var m :| 0 <= m < |s[1..]| && s[1..][m] == t[j - 1];
            assert s[m + 1] == t[j - 1];
          }
        }
      }
    }
  }

  /** `set_index(["grid", "group", "feature_index"])` then `sort_index()`. */
  function SortRows(s: seq<TiledRow>): (r: seq<TiledRow>)
    ensures multiset(r) == multiset(s)
  {
    if |s| == 0 then []
    else
      assert s == [s[0]] + s[1..];
      InsertRow(s[0], SortRows(s[1..]))
  }

  lemma {:induction false} SortRowsSorted(s: seq<TiledRow>)
    ensures SortedRows(SortRows(s))
  {
    if |s| > 0 {
      SortRowsSorted(s[1..]);
      InsertRowSorted(s[0], SortRows(s[1..]));
    }
  }

  // ---------------------------------------------------------------------
  // generate_tiled_data_grouped

  /** Each input row with its grid label and its feature's group. */
  function Annotate(rows: seq<Row>, groupCount: int, gridSize: int): (r: seq<TiledRow>)
    requires gridSize != 0
    ensures |r| == |rows|
    ensures forall i :: 0 <= i < |rows| ==>
      && r[i].featureIndex == rows[i].featureIndex && r[i].x == rows[i].x && r[i].y == rows[i].y
      && r[i].group == FeatureGroup(FrequencyOrder(rows), rows[i].featureIndex, groupCount)
      && r[i].grid == GridLabel(rows[i].x, rows[i].y, gridSize)
  {
    var order := FrequencyOrder(rows);
    seq(|rows|, i requires 0 <= i < |rows| =>
      TiledRow(GridLabel(rows[i].x, rows[i].y, gridSize), FeatureGroup(order, rows[i].featureIndex, groupCount),
               rows[i].featureIndex, rows[i].x, rows[i].y))
  }

  /** The table with `group` and `grid` added and its rows sorted; the
      columns checked first, then the group count, then the grid size. */
  method TileGrouped(rows: seq<Row>, columns: set<string>, nPerGroup: int, gridSize: int)
    returns (r: Result<seq<TiledRow>, TilingError>)
    ensures FirstMissing(columns).Some? ==> r == Err(MissingColumn(FirstMissing(columns).value))
    ensures FirstMissing(columns).None? && nPerGroup == 0 ==> r == Err(ZeroDivision)
    ensures FirstMissing(columns).None? && nPerGroup != 0 && gridSize == 0 && |rows| > 0 ==> r == Err(GridOfZero)
    ensures r.Ok? <==> FirstMissing(columns).None? && nPerGroup != 0 && (gridSize != 0 || |rows| == 0)
    ensures r.Ok? && gridSize != 0 ==>
      var groupCount := PyDiv(|FrequencyOrder(rows)|, nPerGroup);
      multiset(r.value) == multiset(Annotate(rows, groupCount, gridSize)) && SortedRows(r.value)
    ensures r.Ok? && gridSize == 0 ==> r.value == []
  {
    var missing := FirstMissing(columns);
    if missing.Some? {
      return Err(MissingColumn(missing.value));
    }
    if nPerGroup == 0 {
      return Err(ZeroDivision);
    }
    if gridSize == 0 {
      if |rows| > 0 {
        return Err(GridOfZero);
      }
      return Ok([]);
    }
    var order := FrequencyOrder(rows);
    var groupCount := PyDiv(|order|, nPerGroup);
    var table := Annotate(rows, groupCount, gridSize);
    SortRowsSorted(table);
    return Ok(SortRows(table));
  }
}
