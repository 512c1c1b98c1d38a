// Row extraction from a strided 2-D chunk
// (cosilico-viewer/src/lib/openlayers/ZarrHelpers.js, extractRows).
module ZarrHelpers {
  import Arith

  /** TypedArray.subarray(begin, end) for non-negative bounds: both are
      clamped to the length, and an end before the begin gives an empty view. */
  function Subarray<T>(data: seq<T>, begin: nat, end: nat): (r: seq<T>)
    ensures begin + |r| <= |data| || |r| == 0
    ensures |r| <= |data|
    ensures end <= |data| && begin <= end ==> r == data[begin..end]
  {
    var b := if begin < |data| then begin else |data|;
    var e := if end < |data| then end else |data|;
    if e <= b then [] else data[b..e]
  }

  /** Row `row` of a chunk whose rows start every `stride` elements. */
  function Row<T>(data: seq<T>, row: nat, numCols: nat, stride: nat): seq<T>
  {
    Subarray(data, row * stride, row * stride + numCols)
  }

  /** extractRows: a map from every row number below numRows to that row. */
  method ExtractRows<T>(data: seq<T>, numRows: nat, numCols: nat, stride: nat)
    returns (m: map<nat, seq<T>>)
    ensures forall row: nat :: row in m <==> row < numRows
    ensures forall row :: row in m ==> m[row] == Row(data, row, numCols, stride)
    ensures numRows == 0 ==> m == map[]
  {
    m := map[];
    var row := 0;
    while row < numRows
      invariant row <= numRows
      invariant forall k: nat :: k in m <==> k < row
      invariant forall k :: k in m ==> m[k] == Row(data, k, numCols, stride)
    {
      var offset := row * stride;
      var rowData := Subarray(data, offset, offset + numCols);
      m := m[row := rowData];
      row := row + 1;
    }
  }

  /** The rows 0..n-1 concatenated in key order. */
  function ConcatRows<T>(m: map<nat, seq<T>>, n: nat): seq<T>
    requires forall row: nat :: row < n ==> row in m
  {
    if n == 0 then [] else ConcatRows(m, n - 1) + m[n - 1]
  }

  /** Rows 0..n-1 of a buffer whose rows are `numCols` apart, concatenated. */
  function ContiguousRows<T>(data: seq<T>, n: nat, numCols: nat): seq<T>
  {
    if n == 0 then [] else ContiguousRows(data, n - 1, numCols) + Row(data, n - 1, numCols, numCols)
  }

  lemma {:induction false} ContiguousRowsArePrefix<T>(data: seq<T>, n: nat, numCols: nat)
    requires n * numCols <= |data|
    ensures ContiguousRows(data, n, numCols) == data[..n * numCols]
  {
    if n > 0 {
      var k := n - 1;
      assert k * numCols + numCols == n * numCols by {
        assert n * numCols == (k + 1) * numCols;
      }
      ContiguousRowsArePrefix(data, k, numCols);
      assert Row(data, k, numCols, numCols) == data[k * numCols..n * numCols];
      assert data[..k * numCols] + data[k * numCols..n * numCols] == data[..n * numCols];
    }
  }

  lemma {:induction false} ConcatRowsAreContiguous<T>(data: seq<T>, m: map<nat, seq<T>>, n: nat, numCols: nat)
    requires forall row: nat :: row < n ==> row in m && m[row] == Row(data, row, numCols, numCols)
    ensures ConcatRows(m, n) == ContiguousRows(data, n, numCols)
  {
    if n > 0 {
      ConcatRowsAreContiguous(data, m, n - 1, numCols);
    }
  }

  /** With a row stride equal to the row length, the extracted rows tile the
      buffer: concatenated in key order they give its first numRows*numCols
      values. */
  lemma ContiguousRowsRebuildData<T>(data: seq<T>, m: map<nat, seq<T>>, numRows: nat, numCols: nat)
    requires numRows * numCols <= |data|
    requires forall row: nat :: row in m <==> row < numRows
    requires forall row :: row in m ==> m[row] == Row(data, row, numCols, numCols)
    ensures ConcatRows(m, numRows) == data[..numRows * numCols]
  {
    ConcatRowsAreContiguous(data, m, numRows, numCols);
    ContiguousRowsArePrefix(data, numRows, numCols);
  }
}
