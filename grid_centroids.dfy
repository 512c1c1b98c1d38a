// Binned centroids (cosilico_py/preprocessing/core/tiling.py,
// compute_grid_centroids_multi): the rows are cut into chunks; in each chunk
// and for each bin size the rows are grouped by (feature, bin x, bin y) and
// their coordinates and target columns averaged; the chunk tables are then
// merged by key, summing the counts and averaging the chunk means.
module GridCentroids {
  import opened Wrappers
  import JsArray

  /** A row: feature index, location and the target columns. */
  datatype Point = Point(featureIndex: int, x: real, y: real, targets: seq<real>)

  /** How rows are keyed: the bin size, and whether the feature is part of the key. */
  datatype Binning = Binning(binSize: int, byIndex: bool)

  datatype Key = Key(feature: Option<int>, binX: int, binY: int)

  /** A row of a chunk table or of the result: the count and the means of
      column 0 (x), column 1 (y) and columns 2.. (the targets). */
  datatype Centroid = Centroid(count: nat, means: seq<real>)

  datatype CentroidError = ZeroStep | NothingToConcat

  /** `(v // bin_size).astype(np.int32)` without the 32-bit wrap. */
  function Bin(v: real, binSize: int): int
    requires binSize != 0
  {
    (v / binSize as real).Floor
  }

  function KeyOf(p: Point, bin: Binning): Key
    requires bin.binSize != 0
  {
    Key(if bin.byIndex then Some(p.featureIndex) else None, Bin(p.x, bin.binSize), Bin(p.y, bin.binSize))
  }

  /** Every row has x, y and the same number of target columns. */
  predicate HasWidth(rows: seq<Point>, width: nat)
  {
    forall p :: p in rows ==> 2 + |p.targets| == width
  }

  function ValueAt(p: Point, c: nat): real
    requires c < 2 + |p.targets|
  {
    if c == 0 then p.x else if c == 1 then p.y else p.targets[c - 2]
  }

  // ---------------------------------------------------------------------
  // The exact per-key aggregates of a list of rows

  function KeysOf(rows: seq<Point>, bin: Binning): set<Key>
    requires bin.binSize != 0
  {
    if |rows| == 0 then {} else KeysOf(rows[..|rows| - 1], bin) + {KeyOf(rows[|rows| - 1], bin)}
  }

  /** Number of rows with key k; positive exactly for the keys present. */
  function CountKey(rows: seq<Point>, bin: Binning, k: Key): (r: nat)
    requires bin.binSize != 0
    ensures r > 0 <==> k in KeysOf(rows, bin)
    ensures r <= |rows|
  {
    if |rows| == 0 then 0
    else CountKey(rows[..|rows| - 1], bin, k) + (if KeyOf(rows[|rows| - 1], bin) == k then 1 else 0)
  }

  /** Sum of column c over the rows with key k. */
  function SumKey(rows: seq<Point>, bin: Binning, width: nat, k: Key, c: nat): real
    requires bin.binSize != 0 && HasWidth(rows, width) && c < width
  {
    if |rows| == 0 then 0.0
    else
      var p := rows[|rows| - 1];
      SumKey(rows[..|rows| - 1], bin, width, k, c) + (if KeyOf(p, bin) == k then ValueAt(p, c) else 0.0)
  }

  /** The table of one list of rows: one entry per key present, with its
      row count and the exact mean of every column. */
  function ChunkTable(rows: seq<Point>, bin: Binning, width: nat): (t: map<Key, Centroid>)
    requires bin.binSize != 0 && HasWidth(rows, width)
  {
    map k | k in KeysOf(rows, bin) ::
      Centroid(CountKey(rows, bin, k),
               seq(width, c requires 0 <= c < width => SumKey(rows, bin, width, k, c) / CountKey(rows, bin, k) as real))
  }

  lemma {:induction false} SumAbsentKey(rows: seq<Point>, bin: Binning, width: nat, k: Key, c: nat)
    requires bin.binSize != 0 && HasWidth(rows, width) && c < width
    requires k !in KeysOf(rows, bin)
    ensures SumKey(rows, bin, width, k, c) == 0.0
  {
    if |rows| > 0 {
      SumAbsentKey(rows[..|rows| - 1], bin, width, k, c);
    }
  }

  /** Adding one row to a list changes only the aggregates of its key. */
  lemma SnocAggregates(rows: seq<Point>, i: nat, bin: Binning, width: nat, k: Key, c: nat)
    requires bin.binSize != 0 && HasWidth(rows, width) && i < |rows| && c < width
    ensures HasWidth(rows[..i], width) && HasWidth(rows[..i + 1], width)
    ensures CountKey(rows[..i + 1], bin, k) == CountKey(rows[..i], bin, k) + (if KeyOf(rows[i], bin) == k then 1 else 0)
    ensures SumKey(rows[..i + 1], bin, width, k, c)
         == SumKey(rows[..i], bin, width, k, c) + (if KeyOf(rows[i], bin) == k then ValueAt(rows[i], c) else 0.0)
    ensures KeysOf(rows[..i + 1], bin) == KeysOf(rows[..i], bin) + {KeyOf(rows[i], bin)}
  {
    assert rows[..i + 1][..i] == rows[..i];
    assert forall p :: p in rows[..i + 1] ==> p in rows;
  }

  /** The running counts and column sums hold the aggregates of `rows`. */
  ghost predicate Tracks(rows: seq<Point>, bin: Binning, width: nat, counts: map<Key, nat>, sums: map<Key, seq<real>>)
    requires bin.binSize != 0 && HasWidth(rows, width)
  {
    counts.Keys == KeysOf(rows, bin) && sums.Keys == counts.Keys
    && (forall k :: k in counts ==> counts[k] == CountKey(rows, bin, k) && counts[k] > 0)
    && (forall k :: k in sums ==> |sums[k]| == width)
    && (forall k, c :: k in sums && 0 <= c < width ==> sums[k][c] == SumKey(rows, bin, width, k, c))
  }

  /** `np.add.at(counts, bin_idx, 1)` for one row. */
  function AddCount(counts: map<Key, nat>, k: Key): map<Key, nat>
  {
    counts[k := if k in counts then counts[k] + 1 else 1]
  }

  /** `np.add.at(sum_x, ...)` and the others for one row. */
  function AddSums(sums: map<Key, seq<real>>, k: Key, p: Point, width: nat): map<Key, seq<real>>
    requires width == 2 + |p.targets|
    requires k in sums ==> |sums[k]| == width
  {
    var s := if k in sums then sums[k] else seq(width, _ => 0.0);
    sums[k := seq(width, c requires 0 <= c < width => s[c] + ValueAt(p, c))]
  }

  lemma TracksStep(chunk: seq<Point>, i: nat, bin: Binning, width: nat, counts: map<Key, nat>, sums: map<Key, seq<real>>)
    requires bin.binSize != 0 && HasWidth(chunk, width) && i < |chunk|
    requires HasWidth(chunk[..i], width) && Tracks(chunk[..i], bin, width, counts, sums)
    ensures chunk[i] in chunk && HasWidth(chunk[..i + 1], width)
    ensures Tracks(chunk[..i + 1], bin, width, AddCount(counts, KeyOf(chunk[i], bin)),
                   AddSums(sums, KeyOf(chunk[i], bin), chunk[i], width))
  {
    var p := chunk[i];
    assert p in chunk;
    var k := KeyOf(p, bin);
    SnocAggregates(chunk, i, bin, width, k, 0);
    var counts', sums' := AddCount(counts, k), AddSums(sums, k, p, width);
    forall c | 0 <= c < width && k !in sums
      ensures SumKey(chunk[..i], bin, width, k, c) == 0.0
    {
      SumAbsentKey(chunk[..i], bin, width, k, c);
    }
    forall k', c | k' in sums' && 0 <= c < width
      ensures sums'[k'][c] == SumKey(chunk[..i + 1], bin, width, k', c)
    {
      SnocAggregates(chunk, i, bin, width, k', c);
    }
    forall k' | k' in counts'
      ensures counts'[k'] == CountKey(chunk[..i + 1], bin, k')
    {
      SnocAggregates(chunk, i, bin, width, k', 0);
    }
  }

  /** The per-key sums divided by the counts give the chunk table. */
  lemma TableOfSums(chunk: seq<Point>, bin: Binning, width: nat, counts: map<Key, nat>, sums: map<Key, seq<real>>)
    requires bin.binSize != 0 && HasWidth(chunk, width)
    requires Tracks(chunk, bin, width, counts, sums)
    ensures (map k | k in counts :: Centroid(counts[k], seq(width, c requires 0 <= c < width => sums[k][c] / counts[k] as real)))
         == ChunkTable(chunk, bin, width)
  {
    var t := map k | k in counts :: Centroid(counts[k], seq(width, c requires 0 <= c < width => sums[k][c] / counts[k] as real));
    var u := ChunkTable(chunk, bin, width);
    forall k | k in t
      ensures t[k] == u[k]
    {
      assert t[k].means == u[k].means;
    }
  }

  /** One chunk: `np.unique` over the keys, then `np.add.at` of the
      coordinates, the targets and 1 into per-key sums, then sums / counts. */
  method AggregateChunk(chunk: seq<Point>, bin: Binning, width: nat) returns (table: map<Key, Centroid>)
    requires bin.binSize != 0 && HasWidth(chunk, width)
    ensures table == ChunkTable(chunk, bin, width)
  {
    var counts: map<Key, nat> := map[];
    var sums: map<Key, seq<real>> := map[];
    var i := 0;
    while i < |chunk|
      invariant 0 <= i <= |chunk| && HasWidth(chunk[..i], width)
      invariant Tracks(chunk[..i], bin, width, counts, sums)
    {
      TracksStep(chunk, i, bin, width, counts, sums);
      var p := chunk[i];
      var k := KeyOf(p, bin);
      counts, sums := AddCount(counts, k), AddSums(sums, k, p, width);
      i := i + 1;
    }
    assert chunk[..i] == chunk;
    TableOfSums(chunk, bin, width, counts, sums);
    table := map k | k in counts :: Centroid(counts[k], seq(width, c requires 0 <= c < width => sums[k][c] / counts[k] as real));
  }

  // ---------------------------------------------------------------------
  // Chunks

  /** `df.iloc[start:start + chunk_size]` for start in range(0, len(df),
      chunk_size); a negative step gives no chunk. */
  function Chunks(rows: seq<Point>, chunkSize: int): (r: seq<seq<Point>>)
    requires chunkSize != 0
    ensures forall i, p :: 0 <= i < |r| && p in r[i] ==> p in rows
    ensures chunkSize > 0 ==> (|r| == 0 <==> |rows| == 0)
    decreases |rows|
  {
    if chunkSize < 0 || |rows| == 0 then []
    else
      var n := if chunkSize < |rows| then chunkSize else |rows|;
      var rest := Chunks(rows[n..], chunkSize);
      assert forall i, p :: 0 <= i < |rest| && p in rest[i] ==> p in rows by {
        forall i, p | 0 <= i < |rest| && p in rest[i]
          ensures p in rows
        {
          assert p in rows[n..];
        }
      }
      [rows[..n]] + rest
  }

  function Flatten(chunks: seq<seq<Point>>): seq<Point>
  {
    if |chunks| == 0 then [] else Flatten(chunks[..|chunks| - 1]) + chunks[|chunks| - 1]
  }

  lemma {:induction false} FlattenCons(head: seq<Point>, tail: seq<seq<Point>>)
    ensures Flatten([head] + tail) == head + Flatten(tail)
  {
    if |tail| > 0 {
      var s := [head] + tail;
      assert s[..|s| - 1] == [head] + tail[..|tail| - 1];
      FlattenCons(head, tail[..|tail| - 1]);
    } else {
      assert [head] + tail == [head];
      assert [head][..0] == [];
    }
  }

  /** The chunks cover the rows, in order, with nothing left out. */
  lemma {:induction false} ChunksCoverRows(rows: seq<Point>, chunkSize: int)
    requires chunkSize > 0
    ensures Flatten(Chunks(rows, chunkSize)) == rows
    decreases |rows|
  {
    if |rows| > 0 {
      var n := if chunkSize < |rows| then chunkSize else |rows|;
      ChunksCoverRows(rows[n..], chunkSize);
      FlattenCons(rows[..n], Chunks(rows[n..], chunkSize));
      assert rows[..n] + rows[n..] == rows;
    }
  }

  // ---------------------------------------------------------------------
  // Sums over a concatenation

  lemma {:induction false} CountKeyAppend(a: seq<Point>, b: seq<Point>, bin: Binning, k: Key)
    requires bin.binSize != 0
    ensures CountKey(a + b, bin, k) == CountKey(a, bin, k) + CountKey(b, bin, k)
    ensures KeysOf(a + b, bin) == KeysOf(a, bin) + KeysOf(b, bin)
  {
    if |b| == 0 {
      assert a + b == a;
    } else {
      var b' := b[..|b| - 1];
      assert (a + b)[..|a + b| - 1] == a + b';
      CountKeyAppend(a, b', bin, k);
    }
  }

  lemma {:induction false} SumKeyAppend(a: seq<Point>, b: seq<Point>, bin: Binning, width: nat, k: Key, c: nat)
    requires bin.binSize != 0 && HasWidth(a, width) && HasWidth(b, width) && c < width
    ensures HasWidth(a + b, width)
    ensures SumKey(a + b, bin, width, k, c) == SumKey(a, bin, width, k, c) + SumKey(b, bin, width, k, c)
  {
    if |b| == 0 {
      assert a + b == a;
    } else {
      var b' := b[..|b| - 1];
      assert (a + b)[..|a + b| - 1] == a + b';
      assert forall p :: p in b' ==> p in b;
      SumKeyAppend(a, b', bin, width, k, c);
    }
  }

  // ---------------------------------------------------------------------
  // The merge

  /** `final_results[bin_size]`: the chunk tables in chunk order, each
      appended once per occurrence of the bin size in `bin_sizes`. */
  function Tables(chunks: seq<seq<Point>>, bin: Binning, width: nat, occ: nat): (r: seq<map<Key, Centroid>>)
    requires bin.binSize != 0
    requires forall c :: c in chunks ==> HasWidth(c, width)
    ensures UniformWidth(r, width) && PositiveCounts(r)
    ensures |r| == 0 <==> |chunks| == 0 || occ == 0
  {
    if |chunks| == 0 then []
    else
      var prefix := Tables(chunks[..|chunks| - 1], bin, width, occ);
      var t := ChunkTable(chunks[|chunks| - 1], bin, width);
      assert forall k :: k in t ==> t[k].count > 0 && |t[k].means| == width;
      RepeatProps(t, occ, width);
      prefix + Repeat(t, occ)
  }

  function Repeat(t: map<Key, Centroid>, n: nat): (r: seq<map<Key, Centroid>>)
    ensures |r| == n
  {
    if n == 0 then [] else Repeat(t, n - 1) + [t]
  }

  lemma {:induction false} RepeatProps(t: map<Key, Centroid>, n: nat, width: nat)
    requires forall k :: k in t ==> t[k].count > 0 && |t[k].means| == width
    ensures forall i :: 0 <= i < n ==> Repeat(t, n)[i] == t
  {
    if n > 0 {
      RepeatProps(t, n - 1, width);
    }
  }

  predicate UniformWidth(results: seq<map<Key, Centroid>>, width: nat)
  {
    forall i, k :: 0 <= i < |results| && k in results[i] ==> |results[i][k].means| == width
  }

  predicate PositiveCounts(results: seq<map<Key, Centroid>>)
  {
    forall i, k :: 0 <= i < |results| && k in results[i] ==> results[i][k].count > 0
  }

  function AllKeys(results: seq<map<Key, Centroid>>): set<Key>
  {
    if |results| == 0 then {} else AllKeys(results[..|results| - 1]) + results[|results| - 1].Keys
  }

  /** Number of tables holding key k. */
  function Hits(results: seq<map<Key, Centroid>>, k: Key): (r: nat)
    ensures r > 0 <==> k in AllKeys(results)
  {
    if |results| == 0 then 0
    else Hits(results[..|results| - 1], k) + (if k in results[|results| - 1] then 1 else 0)
  }

  /** The summed `count` of key k over the tables. */
  function CountSum(results: seq<map<Key, Centroid>>, k: Key): (r: nat)
    ensures PositiveCounts(results) ==> (r > 0 <==> k in AllKeys(results))
  {
    if |results| == 0 then 0
    else
      var last := results[|results| - 1];
      assert PositiveCounts(results) ==> PositiveCounts(results[..|results| - 1]);
      CountSum(results[..|results| - 1], k) + (if k in last then last[k].count else 0)
  }

  /** The sum of the chunk means of column c for key k. */
  function MeanSum(results: seq<map<Key, Centroid>>, width: nat, k: Key, c: nat): real
    requires UniformWidth(results, width) && c < width
  {
    if |results| == 0 then 0.0
    else
      var last := results[|results| - 1];
      assert UniformWidth(results[..|results| - 1], width);
      MeanSum(results[..|results| - 1], width, k, c) + (if k in last then last[k].means[c] else 0.0)
  }

  /** The merge as written: `groupby(keys).agg(mean, mean, sum, ...)` over
      the concatenated chunk tables, so each mean is the unweighted mean of
      the chunk means. */
  function MergeAsWritten(results: seq<map<Key, Centroid>>, width: nat): map<Key, Centroid>
    requires UniformWidth(results, width)
  {
    map k | k in AllKeys(results) ::
      Centroid(CountSum(results, k),
               seq(width, c requires 0 <= c < width => MeanSum(results, width, k, c) / Hits(results, k) as real))
  }

  /** The chunk means weighted by their counts, for key k. */
  function WeightedSum(results: seq<map<Key, Centroid>>, width: nat, k: Key, c: nat): real
    requires UniformWidth(results, width) && c < width
  {
    if |results| == 0 then 0.0
    else
      var last := results[|results| - 1];
      assert UniformWidth(results[..|results| - 1], width);
      WeightedSum(results[..|results| - 1], width, k, c)
        + (if k in last then last[k].means[c] * last[k].count as real else 0.0)
  }

  /** The corrected merge: each chunk mean weighted by its chunk's count. */
  function WeightedMerge(results: seq<map<Key, Centroid>>, width: nat): map<Key, Centroid>
    requires UniformWidth(results, width) && PositiveCounts(results)
  {
    map k | k in AllKeys(results) ::
      Centroid(CountSum(results, k),
               seq(width, c requires 0 <= c < width => WeightedSum(results, width, k, c) / CountSum(results, k) as real))
  }

  // ---------------------------------------------------------------------
  // compute_grid_centroids_multi

  function Occurrences<T(==)>(s: seq<T>, x: T): (r: nat)
    ensures r > 0 <==> x in s
  {
    if |s| == 0 then 0 else Occurrences(s[..|s| - 1], x) + (if s[|s| - 1] == x then 1 else 0)
  }

  lemma OccurrencesPrefix<T>(s: seq<T>, j: nat, x: T)
    requires j < |s|
    ensures Occurrences(s[..j + 1], x) == Occurrences(s[..j], x) + (if s[j] == x then 1 else 0)
  {
    assert s[..j + 1][..j] == s[..j];
  }

  /** The bin-size loop for one chunk: its table for each bin size is
      appended to that bin size's list. */
  method AppendChunkTables(finalResults: map<int, seq<map<Key, Centroid>>>, chunk: seq<Point>,
                           binSizes: seq<int>, byIndex: bool, width: nat)
    returns (results: map<int, seq<map<Key, Centroid>>>)
    requires forall b :: b in finalResults ==> b != 0
    requires forall b :: b in binSizes ==> b in finalResults
    requires HasWidth(chunk, width)
    ensures results.Keys == finalResults.Keys
    ensures forall b :: b in results ==>
      results[b] == finalResults[b] + Repeat(ChunkTable(chunk, Binning(b, byIndex), width), Occurrences(binSizes, b))
  {
    results := finalResults;
    var j := 0;
    while j < |binSizes|
      invariant 0 <= j <= |binSizes|
      invariant AppendedUpTo(finalResults, results, chunk, binSizes, j, byIndex, width)
    {
      var b := binSizes[j];
      var table := AggregateChunk(chunk, Binning(b, byIndex), width);
      AppendStep(finalResults, results, chunk, binSizes, j, byIndex, width, table);
      results := results[b := results[b] + [table]];
      j := j + 1;
    }
    assert binSizes[..j] == binSizes;
  }

  /** After the first j bin sizes, each list has gained one table of the
      chunk per occurrence of its bin size among them. */
  ghost predicate AppendedUpTo(finalResults: map<int, seq<map<Key, Centroid>>>, results: map<int, seq<map<Key, Centroid>>>,
                               chunk: seq<Point>, binSizes: seq<int>, j: nat, byIndex: bool, width: nat)
    requires j <= |binSizes|
    requires forall b :: b in finalResults ==> b != 0
    requires HasWidth(chunk, width)
  {
    && results.Keys == finalResults.Keys
    && forall b :: b in results ==>
      results[b] == finalResults[b] + Repeat(ChunkTable(chunk, Binning(b, byIndex), width), Occurrences(binSizes[..j], b))
  }

  lemma AppendStep(finalResults: map<int, seq<map<Key, Centroid>>>, results: map<int, seq<map<Key, Centroid>>>,
                   chunk: seq<Point>, binSizes: seq<int>, j: nat, byIndex: bool, width: nat, table: map<Key, Centroid>)
    requires j < |binSizes| && binSizes[j] in finalResults
    requires forall b :: b in finalResults ==> b != 0
    requires HasWidth(chunk, width)
    requires AppendedUpTo(finalResults, results, chunk, binSizes, j, byIndex, width)
    requires table == ChunkTable(chunk, Binning(binSizes[j], byIndex), width)
    ensures AppendedUpTo(finalResults, results[binSizes[j] := results[binSizes[j]] + [table]], chunk, binSizes, j + 1, byIndex, width)
  {
    var b := binSizes[j];
    var next := results[b := results[b] + [table]];
    forall b' | b' in next
      ensures next[b'] == finalResults[b'] + Repeat(ChunkTable(chunk, Binning(b', byIndex), width), Occurrences(binSizes[..j + 1], b'))
    {
      OccurrencesPrefix(binSizes, j, b');
    }
  }

  /** The merge loop: `pd.concat` fails on a bin size with no chunk table. */
  method MergeTables(finalResults: map<int, seq<map<Key, Centroid>>>, binSizes: seq<int>, width: nat)
    returns (r: Result<map<int, map<Key, Centroid>>, CentroidError>)
    requires forall j :: 0 <= j < |binSizes| ==> binSizes[j] in finalResults && UniformWidth(finalResults[binSizes[j]], width)
    ensures r.Err? <==> exists j :: 0 <= j < |binSizes| && |finalResults[binSizes[j]]| == 0
    ensures r.Err? ==> r.error == NothingToConcat
    ensures r.Ok? ==> forall b :: b in r.value <==> b in binSizes
    ensures r.Ok? ==> forall b :: b in r.value ==> r.value[b] == MergeAsWritten(finalResults[b], width)
  {
    var merged: map<int, map<Key, Centroid>> := map[];
    var j := 0;
    while j < |binSizes|
      invariant 0 <= j <= |binSizes|
      invariant forall b :: b in merged <==> b in binSizes[..j]
      invariant forall i :: 0 <= i < j ==> |finalResults[binSizes[i]]| > 0
      invariant forall b :: b in merged ==> b in finalResults && merged[b] == MergeAsWritten(finalResults[b], width)
    {
      var b := binSizes[j];
      if |finalResults[b]| == 0 {
        return Err(NothingToConcat);
      }
      merged := merged[b := MergeAsWritten(finalResults[b], width)];
      assert binSizes[..j + 1] == binSizes[..j] + [b];
      j := j + 1;
    }
    assert binSizes[..j] == binSizes;
    return Ok(merged);
  }

  /** The next chunk is the first `chunk_size` rows of what is left. */
  lemma ChunksStep(rows: seq<Point>, chunkStart: nat, chunkSize: int, width: nat)
    requires chunkSize > 0 && chunkStart < |rows| && HasWidth(rows, width)
    ensures var end := if chunkStart + chunkSize < |rows| then chunkStart + chunkSize else |rows|;
      Chunks(rows[chunkStart..], chunkSize) == [rows[chunkStart..end]] + Chunks(rows[end..], chunkSize)
      && HasWidth(rows[chunkStart..end], width)
  {
    var end := if chunkStart + chunkSize < |rows| then chunkStart + chunkSize else |rows|;
    var rest := rows[chunkStart..];
    assert rows[chunkStart..end] == rest[..end - chunkStart] && rows[end..] == rest[end - chunkStart..];
    forall p | p in rows[chunkStart..end]
      ensures 2 + |p.targets| == width
    {
      assert p in rows;
    }
  }

  /** `final_results` after the chunks `done`. */
  ghost predicate ChunkTablesSoFar(finalResults: map<int, seq<map<Key, Centroid>>>, done: seq<seq<Point>>,
                                   binSizes: seq<int>, byIndex: bool, width: nat)
  {
    (forall c :: c in done ==> HasWidth(c, width))
    && (forall b :: b in finalResults <==> b in binSizes)
    && (forall b :: b in finalResults ==> b != 0)
    && (forall b :: b in finalResults ==>
          finalResults[b] == Tables(done, Binning(b, byIndex), width, Occurrences(binSizes, b)))
  }

  /** One more chunk, with its tables appended, keeps the tables in step. */
  lemma TablesStep(finalResults: map<int, seq<map<Key, Centroid>>>, results: map<int, seq<map<Key, Centroid>>>,
                   done: seq<seq<Point>>, chunk: seq<Point>, binSizes: seq<int>, byIndex: bool, width: nat)
    requires ChunkTablesSoFar(finalResults, done, binSizes, byIndex, width) && HasWidth(chunk, width)
    requires results.Keys == finalResults.Keys
    requires forall b :: b in results ==>
      results[b] == finalResults[b] + Repeat(ChunkTable(chunk, Binning(b, byIndex), width), Occurrences(binSizes, b))
    ensures ChunkTablesSoFar(results, done + [chunk], binSizes, byIndex, width)
  {
    var next := done + [chunk];
    assert next[..|next| - 1] == done;
    forall b | b in results
      ensures results[b] == Tables(next, Binning(b, byIndex), width, Occurrences(binSizes, b))
    {
    }
  }

  /** One turn of the chunk loop: the next `chunk_size` rows (fewer at the
      end) and their tables appended for every bin size. */
  method CollectChunk(rows: seq<Point>, chunkStart: nat, chunkSize: int, binSizes: seq<int>, byIndex: bool, width: nat,
                      finalResults: map<int, seq<map<Key, Centroid>>>, ghost done: seq<seq<Point>>)
    returns (end: nat, results: map<int, seq<map<Key, Centroid>>>)
    requires chunkSize > 0 && chunkStart < |rows| && HasWidth(rows, width)
    requires ChunkTablesSoFar(finalResults, done, binSizes, byIndex, width)
    ensures chunkStart < end <= |rows|
    ensures Chunks(rows[chunkStart..], chunkSize) == [rows[chunkStart..end]] + Chunks(rows[end..], chunkSize)
    ensures ChunkTablesSoFar(results, done + [rows[chunkStart..end]], binSizes, byIndex, width)
  {
    end := if chunkStart + chunkSize < |rows| then chunkStart + chunkSize else |rows|;
    var chunk := rows[chunkStart..end];
    ChunksStep(rows, chunkStart, chunkSize, width);
    results := AppendChunkTables(finalResults, chunk, binSizes, byIndex, width);
    TablesStep(finalResults, results, done, chunk, binSizes, byIndex, width);
  }

  /** The chunk loop: `final_results[bin_size]` for every bin size. */
  method CollectChunkTables(rows: seq<Point>, binSizes: seq<int>, chunkSize: int, byIndex: bool, width: nat)
    returns (finalResults: map<int, seq<map<Key, Centroid>>>)
    requires chunkSize > 0
    requires forall b :: b in binSizes ==> b != 0
    requires HasWidth(rows, width)
    ensures ChunkTablesSoFar(finalResults, Chunks(rows, chunkSize), binSizes, byIndex, width)
  {
    ghost var all := Chunks(rows, chunkSize);
    finalResults := map b | b in binSizes :: [];
    ghost var done: seq<seq<Point>> := [];
    var chunkStart := 0;
    while chunkStart < |rows|
      invariant 0 <= chunkStart <= |rows|
      invariant all == done + Chunks(rows[chunkStart..], chunkSize)
      invariant ChunkTablesSoFar(finalResults, done, binSizes, byIndex, width)
      decreases |rows| - chunkStart
    {
      var end, results := CollectChunk(rows, chunkStart, chunkSize, binSizes, byIndex, width, finalResults, done);
      assert all == (done + [rows[chunkStart..end]]) + Chunks(rows[end..], chunkSize);
      finalResults := results;
      done := done + [rows[chunkStart..end]];
      chunkStart := end;
    }
    assert rows[chunkStart..] == [];
    assert Chunks(rows[chunkStart..], chunkSize) == [];
    assert all == done;
  }

  /** The in-memory path: the chunk loop with the bin-size loop inside it,
      then one merge per bin size. */
  method ComputeGridCentroids(rows: seq<Point>, binSizes: seq<int>, chunkSize: int, byIndex: bool, width: nat)
    returns (r: Result<map<int, map<Key, Centroid>>, CentroidError>)
    requires forall b :: b in binSizes ==> b != 0
    requires HasWidth(rows, width)
    ensures chunkSize == 0 ==> r == Err(ZeroStep)
    ensures chunkSize != 0 && |binSizes| > 0 && |Chunks(rows, chunkSize)| == 0 ==> r == Err(NothingToConcat)
    ensures r.Ok? <==> chunkSize != 0 && (|binSizes| == 0 || |Chunks(rows, chunkSize)| > 0)
    ensures r.Ok? ==> forall b :: b in r.value <==> b in binSizes
    ensures r.Ok? ==> forall b :: b in r.value ==>
      r.value[b] == MergeAsWritten(Tables(Chunks(rows, chunkSize), Binning(b, byIndex), width, Occurrences(binSizes, b)), width)
  {
    if chunkSize == 0 {
      return Err(ZeroStep);
    }
    ghost var all := Chunks(rows, chunkSize);
    var finalResults: map<int, seq<map<Key, Centroid>>>;
    if chunkSize > 0 {
      finalResults := CollectChunkTables(rows, binSizes, chunkSize, byIndex, width);
    } else {
      finalResults := map b | b in binSizes :: [];
    }
    assert ChunkTablesSoFar(finalResults, all, binSizes, byIndex, width);
    forall j | 0 <= j < |binSizes|
      ensures binSizes[j] in finalResults && UniformWidth(finalResults[binSizes[j]], width)
    {
      var b := binSizes[j];
      assert b in binSizes;
      assert finalResults[b] == Tables(all, Binning(b, byIndex), width, Occurrences(binSizes, b));
    }
    if |all| == 0 && |binSizes| > 0 {
      assert binSizes[0] in binSizes;
      assert binSizes[0] in finalResults;
      assert |finalResults[binSizes[0]]| == 0;
      assert exists j :: 0 <= j < |binSizes| && |finalResults[binSizes[j]]| == 0;
    }
    if |all| > 0 {
      forall j | 0 <= j < |binSizes|
        ensures |finalResults[binSizes[j]]| > 0
      {
        assert binSizes[j] in binSizes;
      }
    }
    r := MergeTables(finalResults, binSizes, width);
  }
}

module GridCentroidsProofs {
  import opened Wrappers
  import JsArray
  import opened GridCentroids

  lemma {:induction false} FlattenWidth(chunks: seq<seq<Point>>, width: nat)
    requires forall c :: c in chunks ==> HasWidth(c, width)
    ensures HasWidth(Flatten(chunks), width)
  {
    if |chunks| > 0 {
      var prefix := chunks[..|chunks| - 1];
      assert forall c :: c in prefix ==> c in chunks;
      FlattenWidth(prefix, width);
      assert chunks[|chunks| - 1] in chunks;
    }
  }

  /** The key set, counts and hits split over a concatenation of table lists. */
  lemma {:induction false} MergeCountsAppend(a: seq<map<Key, Centroid>>, b: seq<map<Key, Centroid>>, k: Key)
    ensures AllKeys(a + b) == AllKeys(a) + AllKeys(b)
    ensures CountSum(a + b, k) == CountSum(a, k) + CountSum(b, k)
    ensures Hits(a + b, k) == Hits(a, k) + Hits(b, k)
  {
    if |b| == 0 {
      assert a + b == a;
    } else {
      var b' := b[..|b| - 1];
      assert (a + b)[..|a + b| - 1] == a + b';
      MergeCountsAppend(a, b', k);
    }
  }

  /** The weighted sums split over a concatenation of table lists. */
  lemma {:induction false} WeightedSumAppend(a: seq<map<Key, Centroid>>, b: seq<map<Key, Centroid>>, width: nat, k: Key, c: nat)
    requires UniformWidth(a, width) && UniformWidth(b, width) && c < width
    ensures UniformWidth(a + b, width)
    ensures WeightedSum(a + b, width, k, c) == WeightedSum(a, width, k, c) + WeightedSum(b, width, k, c)
  {
    if |b| == 0 {
      assert a + b == a;
    } else {
      var b' := b[..|b| - 1];
      assert (a + b)[..|a + b| - 1] == a + b';
      assert UniformWidth(b', width);
      WeightedSumAppend(a, b', width, k, c);
    }
  }

  /** A table appended n times: its keys, n times its counts, n hits. */
  lemma {:induction false} RepeatCounts(t: map<Key, Centroid>, n: nat, k: Key)
    ensures AllKeys(Repeat(t, n)) == if n == 0 then {} else t.Keys
    ensures CountSum(Repeat(t, n), k) == n * (if k in t then t[k].count else 0)
    ensures Hits(Repeat(t, n), k) == n * (if k in t then 1 else 0)
  {
    if n > 0 {
      RepeatCounts(t, n - 1, k);
      assert Repeat(t, n)[..n - 1] == Repeat(t, n - 1);
      var x := if k in t then t[k].count else 0;
      assert n * x == (n - 1) * x + x;
      var h := if k in t then 1 else 0;
      assert n * h == (n - 1) * h + h;
    }
  }

  lemma ScaledSum(s: int, s1: int, s2: int, n: nat, a: nat, b: nat, total: nat)
    requires s == s1 + s2 && s1 == n * a && s2 == n * b && total == a + b
    ensures s == n * total
  {
  }

  lemma MeanTimesCount(m: real, s: real, n: real)
    requires n != 0.0 && m == s / n
    ensures m * n == s
  {
  }

  /** Over all chunk tables (each appended occ times), the keys are the keys
      of the rows and the counts are occ times the row counts. */
  lemma {:induction false} TablesCounts(chunks: seq<seq<Point>>, bin: Binning, width: nat, occ: nat, k: Key)
    requires bin.binSize != 0
    requires forall c :: c in chunks ==> HasWidth(c, width)
    ensures AllKeys(Tables(chunks, bin, width, occ)) == if occ == 0 || |chunks| == 0 then {} else KeysOf(Flatten(chunks), bin)
    ensures CountSum(Tables(chunks, bin, width, occ), k) == occ * CountKey(Flatten(chunks), bin, k)
  {
    if |chunks| > 0 {
      var prefix, last := chunks[..|chunks| - 1], chunks[|chunks| - 1];
      assert last in chunks;
      assert forall c :: c in prefix ==> c in chunks;
      TablesCounts(prefix, bin, width, occ, k);
      var t := ChunkTable(last, bin, width);
      assert t.Keys == KeysOf(last, bin);
      RepeatCounts(t, occ, k);
      var before := Tables(prefix, bin, width, occ);
      assert Tables(chunks, bin, width, occ) == before + Repeat(t, occ);
      MergeCountsAppend(before, Repeat(t, occ), k);
      assert Flatten(chunks) == Flatten(prefix) + last;
      CountKeyAppend(Flatten(prefix), last, bin, k);
      var a, b := CountKey(Flatten(prefix), bin, k), CountKey(last, bin, k);
      assert (if k in t then t[k].count else 0) == b;
      assert CountSum(Repeat(t, occ), k) == occ * b;
      assert CountSum(before, k) == occ * a;
      assert CountKey(Flatten(chunks), bin, k) == a + b;
      ScaledSum(CountSum(Tables(chunks, bin, width, occ), k), CountSum(before, k), CountSum(Repeat(t, occ), k),
                occ, a, b, CountKey(Flatten(chunks), bin, k));
      if |prefix| == 0 {
        assert KeysOf(Flatten(prefix), bin) == {};
      }
    } else {
      assert CountKey(Flatten(chunks), bin, k) == 0;
    }
  }

  /** With each chunk table appended once, the count-weighted chunk means
      add up to the column sums of all rows. */
  lemma {:induction false} TablesWeightedSums(chunks: seq<seq<Point>>, bin: Binning, width: nat, k: Key, c: nat)
    requires bin.binSize != 0 && c < width
    requires forall ch :: ch in chunks ==> HasWidth(ch, width)
    ensures HasWidth(Flatten(chunks), width)
    ensures WeightedSum(Tables(chunks, bin, width, 1), width, k, c) == SumKey(Flatten(chunks), bin, width, k, c)
  {
    FlattenWidth(chunks, width);
    if |chunks| > 0 {
      var prefix, last := chunks[..|chunks| - 1], chunks[|chunks| - 1];
      assert last in chunks;
      assert forall ch :: ch in prefix ==> ch in chunks;
      TablesWeightedSums(prefix, bin, width, k, c);
      FlattenWidth(prefix, width);
      var t := ChunkTable(last, bin, width);
      var before := Tables(prefix, bin, width, 1);
      assert Repeat(t, 1) == [t];
      assert Tables(chunks, bin, width, 1) == before + [t];
      WeightedSumAppend(before, [t], width, k, c);
      ChunkWeightedSum(last, bin, width, k, c);
      assert Flatten(chunks) == Flatten(prefix) + last;
      SumKeyAppend(Flatten(prefix), last, bin, width, k, c);
    }
  }

  /** The one-table weighted sum of a chunk table is the chunk's column sum. */
  lemma ChunkWeightedSum(rows: seq<Point>, bin: Binning, width: nat, k: Key, c: nat)
    requires bin.binSize != 0 && HasWidth(rows, width) && c < width
    ensures UniformWidth([ChunkTable(rows, bin, width)], width)
    ensures WeightedSum([ChunkTable(rows, bin, width)], width, k, c) == SumKey(rows, bin, width, k, c)
  {
    var t := ChunkTable(rows, bin, width);
    var one: seq<map<Key, Centroid>> := [t];
    assert one[..0] == [];
    var w := if k in t then t[k].means[c] * t[k].count as real else 0.0;
    assert WeightedSum(one, width, k, c) == w;
    if k in t {
      var s, n := SumKey(rows, bin, width, k, c), CountKey(rows, bin, k);
      assert t[k].count == n && t[k].means[c] == s / n as real;
      MeanTimesCount(t[k].means[c], s, n as real);
      assert w == s;
    } else {
      SumAbsentKey(rows, bin, width, k, c);
      assert w == 0.0;
    }
  }

  /** The merged table as written has one entry per key of the input, and
      its count is the number of input rows with that key, times the number
      of times the bin size is listed; the chunk size does not matter. */
  lemma MergedCountsAreRowCounts(rows: seq<Point>, chunkSize: int, bin: Binning, width: nat, occ: nat)
    requires chunkSize > 0 && bin.binSize != 0 && HasWidth(rows, width) && occ > 0
    ensures MergeAsWritten(Tables(Chunks(rows, chunkSize), bin, width, occ), width).Keys == KeysOf(rows, bin)
    ensures forall k :: k in KeysOf(rows, bin) ==>
      MergeAsWritten(Tables(Chunks(rows, chunkSize), bin, width, occ), width)[k].count == occ * CountKey(rows, bin, k)
  {
    var chunks := Chunks(rows, chunkSize);
    ChunksCoverRows(rows, chunkSize);
    var tables := Tables(chunks, bin, width, occ);
    var merged := MergeAsWritten(tables, width);
    TablesCounts(chunks, bin, width, occ, Key(None, 0, 0));
    if |rows| == 0 {
      assert KeysOf(rows, bin) == {};
    }
    assert merged.Keys == KeysOf(rows, bin);
    forall k | k in KeysOf(rows, bin)
      ensures merged[k].count == occ * CountKey(rows, bin, k)
    {
      TablesCounts(chunks, bin, width, occ, k);
    }
  }

  function SumCounts(rows: seq<Point>, bin: Binning, keys: seq<Key>): nat
    requires bin.binSize != 0
  {
    if |keys| == 0 then 0 else SumCounts(rows, bin, keys[..|keys| - 1]) + CountKey(rows, bin, keys[|keys| - 1])
  }

  lemma {:induction false} SumCountsSnoc(rows: seq<Point>, p: Point, bin: Binning, keys: seq<Key>)
    requires bin.binSize != 0
    ensures SumCounts(rows + [p], bin, keys) == SumCounts(rows, bin, keys) + Occurrences(keys, KeyOf(p, bin))
  {
    if |keys| > 0 {
      SumCountsSnoc(rows, p, bin, keys[..|keys| - 1]);
      assert (rows + [p])[..|rows|] == rows;
    }
  }

  lemma {:induction false} OccursOnce<T>(s: seq<T>, x: T)
    requires JsArray.NoDup(s) && x in s
    ensures Occurrences(s, x) == 1
  {
    var last := s[|s| - 1];
    var init := s[..|s| - 1];
    assert JsArray.NoDup(init);
    if last == x {
      assert x !in init;
    } else {
      assert s == init + [last];
      OccursOnce(init, x);
    }
  }

  /** Summed over the distinct keys, the counts add up to the number of rows. */
  lemma {:induction false} TotalCount(rows: seq<Point>, bin: Binning, keys: seq<Key>)
    requires bin.binSize != 0 && JsArray.NoDup(keys)
    requires forall k :: k in KeysOf(rows, bin) ==> k in keys
    ensures SumCounts(rows, bin, keys) == |rows|
  {
    if |rows| == 0 {
      SumCountsZero(rows, bin, keys);
    } else {
      var init, p := rows[..|rows| - 1], rows[|rows| - 1];
      assert rows == init + [p];
      TotalCount(init, bin, keys);
      SumCountsSnoc(init, p, bin, keys);
      OccursOnce(keys, KeyOf(p, bin));
    }
  }

  lemma {:induction false} SumCountsZero(rows: seq<Point>, bin: Binning, keys: seq<Key>)
    requires bin.binSize != 0 && |rows| == 0
    ensures SumCounts(rows, bin, keys) == 0
  {
    if |keys| > 0 {
      SumCountsZero(rows, bin, keys[..|keys| - 1]);
    }
  }

  /** Merging a single table gives it back. */
  lemma MergeOfOne(t: map<Key, Centroid>, width: nat)
    requires forall k :: k in t ==> |t[k].means| == width
    ensures UniformWidth([t], width)
    ensures MergeAsWritten([t], width) == t
  {
    var one: seq<map<Key, Centroid>> := [t];
    assert one[..0] == [];
    var merged := MergeAsWritten(one, width);
    assert merged.Keys == t.Keys;
    forall k | k in t
      ensures merged[k] == t[k]
    {
      assert Hits(one, k) == 1 && CountSum(one, k) == t[k].count;
      forall c | 0 <= c < width
        ensures merged[k].means[c] == t[k].means[c]
      {
        assert MeanSum(one, width, k, c) == t[k].means[c];
      }
    }
  }

  /** When every row fits in the first chunk, the merge as written gives the
      exact table. */
  lemma OneChunkIsExact(rows: seq<Point>, chunkSize: int, bin: Binning, width: nat)
    requires chunkSize >= |rows| > 0 && bin.binSize != 0 && HasWidth(rows, width)
    ensures MergeAsWritten(Tables(Chunks(rows, chunkSize), bin, width, 1), width) == ChunkTable(rows, bin, width)
  {
    assert rows[..|rows|] == rows && rows[|rows|..] == [];
    var chunks := Chunks(rows, chunkSize);
    assert chunks == [rows];
    var t := ChunkTable(rows, bin, width);
    assert Repeat(t, 1) == [t];
    assert chunks[..0] == [];
    assert Tables(chunks, bin, width, 1) == [t];
    MergeOfOne(t, width);
  }

  /** The merge as written averages the chunk means without weights: two
      rows at x = 0 in one chunk and one row at x = 3 in the next give 1.5,
      while the mean of the three rows is 1. */
  lemma UnweightedMergeCounterexample()
    ensures var rows := [Point(0, 0.0, 0.0, []), Point(0, 0.0, 0.0, []), Point(0, 3.0, 0.0, [])];
      var bin := Binning(4, true);
      var k := Key(Some(0), 0, 0);
      k in ChunkTable(rows, bin, 2) && ChunkTable(rows, bin, 2)[k].means[0] == 1.0
      && k in MergeAsWritten(Tables(Chunks(rows, 2), bin, 2, 1), 2)
      && MergeAsWritten(Tables(Chunks(rows, 2), bin, 2, 1), 2)[k].means[0] == 1.5
  {
    var p0, p3 := Point(0, 0.0, 0.0, []), Point(0, 3.0, 0.0, []);
    var rows := [p0, p0, p3];
    var bin := Binning(4, true);
    var k := Key(Some(0), 0, 0);
    var c1, c2 := [p0, p0], [p3];
    ExampleAggregates(p0, p3, bin, k);
    ExampleChunks(p0, p3);
    var t1, t2 := ChunkTable(c1, bin, 2), ChunkTable(c2, bin, 2);
    assert k in t1 && t1[k].means[0] == 0.0;
    assert k in t2 && t2[k].means[0] == 3.0;
    ExampleTables(c1, c2, bin);
    var tables := Tables([c1, c2], bin, 2, 1);
    ExampleMerge(t1, t2, k);
  }

  lemma ExampleAggregates(p0: Point, p3: Point, bin: Binning, k: Key)
    requires p0 == Point(0, 0.0, 0.0, []) && p3 == Point(0, 3.0, 0.0, [])
    requires bin == Binning(4, true) && k == Key(Some(0), 0, 0)
    ensures KeysOf([p0, p0], bin) == {k} && KeysOf([p3], bin) == {k}
    ensures CountKey([p0, p0], bin, k) == 2 && SumKey([p0, p0], bin, 2, k, 0) == 0.0
    ensures CountKey([p3], bin, k) == 1 && SumKey([p3], bin, 2, k, 0) == 3.0
    ensures KeysOf([p0, p0, p3], bin) == {k}
    ensures CountKey([p0, p0, p3], bin, k) == 3 && SumKey([p0, p0, p3], bin, 2, k, 0) == 3.0
  {
    assert Bin(0.0, 4) == 0 && Bin(3.0, 4) == 0;
    assert KeyOf(p0, bin) == k && KeyOf(p3, bin) == k;
    var c0, c1, c2, rows := [p0], [p0, p0], [p3], [p0, p0, p3];
    assert c1[..1] == c0 && c0[..0] == [] && c2[..0] == [] && rows[..2] == c1;
    assert KeysOf(c0, bin) == {k} && CountKey(c0, bin, k) == 1 && SumKey(c0, bin, 2, k, 0) == 0.0;
  }

  lemma ExampleChunks(p0: Point, p3: Point)
    ensures Chunks([p0, p0, p3], 2) == [[p0, p0], [p3]]
  {
    var rows, c1, c2 := [p0, p0, p3], [p0, p0], [p3];
    assert rows[..2] == c1 && rows[2..] == c2 && c2[..1] == c2 && c2[1..] == [];
    assert Chunks(c2, 2) == [c2];
  }

  lemma ExampleTables(c1: seq<Point>, c2: seq<Point>, bin: Binning)
    requires bin.binSize != 0 && HasWidth(c1, 2) && HasWidth(c2, 2)
    ensures Tables([c1, c2], bin, 2, 1) == [ChunkTable(c1, bin, 2), ChunkTable(c2, bin, 2)]
  {
    var t1, t2 := ChunkTable(c1, bin, 2), ChunkTable(c2, bin, 2);
    var chunks := [c1, c2];
    assert chunks[..1] == [c1] && [c1][..0] == [];
    assert Repeat(t1, 1) == [t1] && Repeat(t2, 1) == [t2];
    assert Tables([c1], bin, 2, 1) == [t1];
  }

  lemma ExampleMerge(t1: map<Key, Centroid>, t2: map<Key, Centroid>, k: Key)
    requires forall k' :: k' in t1 ==> |t1[k'].means| == 2
    requires forall k' :: k' in t2 ==> |t2[k'].means| == 2
    requires k in t1 && k in t2 && t1[k].means[0] == 0.0 && t2[k].means[0] == 3.0
    ensures UniformWidth([t1, t2], 2)
    ensures k in MergeAsWritten([t1, t2], 2) && MergeAsWritten([t1, t2], 2)[k].means[0] == 1.5
  {
    var tables := [t1, t2];
    assert tables[..1] == [t1] && [t1][..0] == [];
    assert Hits([t1], k) == 1 && MeanSum([t1], 2, k, 0) == 0.0;
    assert Hits(tables, k) == 2;
    assert MeanSum(tables, 2, k, 0) == 3.0;
  }

  /** The corrected merge, weighting each chunk mean by its count, gives the
      exact table for every chunk size. */
  lemma WeightedMergeIsExact(rows: seq<Point>, chunkSize: int, bin: Binning, width: nat)
    requires chunkSize > 0 && bin.binSize != 0 && HasWidth(rows, width)
    ensures WeightedMerge(Tables(Chunks(rows, chunkSize), bin, width, 1), width) == ChunkTable(rows, bin, width)
  {
    var chunks := Chunks(rows, chunkSize);
    ChunksCoverRows(rows, chunkSize);
    var tables := Tables(chunks, bin, width, 1);
    var merged := WeightedMerge(tables, width);
    var t := ChunkTable(rows, bin, width);
    TablesCounts(chunks, bin, width, 1, Key(None, 0, 0));
    assert merged.Keys == t.Keys;
    forall k | k in t
      ensures merged[k] == t[k]
    {
      TablesCounts(chunks, bin, width, 1, k);
      forall c | 0 <= c < width
        ensures merged[k].means[c] == t[k].means[c]
      {
        TablesWeightedSums(chunks, bin, width, k, c);
      }
      assert merged[k].means == t[k].means;
    }
  }
}
