// The point-layer tile loader of the viewer
// (my-svelte-project/src/lib/ZarrVectorLoader.js): which feature groups are
// requested at each resolution, the tile URL and the group path of a tile,
// and the decoding of one group's arrays into point features.
module VectorLoader {
  import opened Wrappers
  import JsArray
  import Text

  /** `pieces[i]`, undefined (None) past the end. */
  function Field(pieces: seq<string>, i: nat): Option<string>
  {
    if i < |pieces| then Some(pieces[i]) else None
  }

  /** The (resolution, group) pairs one registered group string contributes:
      its i-th comma field for the i-th resolution. */
  function RowOf(featureGroup: string, resolutions: seq<int>): (r: seq<(int, Option<string>)>)
    ensures |r| == |resolutions|
    ensures forall i :: 0 <= i < |r| ==> r[i].0 == resolutions[i]
  {
    var pieces := Text.Split(featureGroup, ',');
    seq(|resolutions|, i requires 0 <= i < |resolutions| => (resolutions[i], Field(pieces, i)))
  }

  /** The pairs in the order the nested loops visit them: group strings
      outside, resolutions inside. */
  function Pairs(featureGroups: seq<string>, resolutions: seq<int>): (r: seq<(int, Option<string>)>)
    ensures forall k :: 0 <= k < |r| ==> r[k].0 in resolutions
  {
    if |featureGroups| == 0 then []
    else Pairs(featureGroups[..|featureGroups| - 1], resolutions) + RowOf(featureGroups[|featureGroups| - 1], resolutions)
  }

  /** `new Map(resolutions.map(key => [key, []]))` */
  function InitialGroups(resolutions: seq<int>): (m: map<int, seq<Option<string>>>)
    ensures forall r :: r in m <==> r in resolutions
  {
    map r | r in resolutions :: []
  }

  /** For each pair in turn: `if (!group.includes(v)) group.push(v)`. */
  function Accumulate(m: map<int, seq<Option<string>>>, pairs: seq<(int, Option<string>)>): (r: map<int, seq<Option<string>>>)
    requires forall k :: 0 <= k < |pairs| ==> pairs[k].0 in m
    ensures r.Keys == m.Keys
  {
    if |pairs| == 0 then m
    else
      var acc := Accumulate(m, pairs[..|pairs| - 1]);
      var (res, v) := pairs[|pairs| - 1];
      acc[res := JsArray.PushIfAbsent(acc[res], v)]
  }

  /** currentGroups as populateFeatureGroups leaves it. */
  function Groups(featureGroups: seq<string>, resolutions: seq<int>): map<int, seq<Option<string>>>
  {
    Accumulate(InitialGroups(resolutions), Pairs(featureGroups, resolutions))
  }

  lemma {:induction false} AccumulateAppend(m: map<int, seq<Option<string>>>, ps: seq<(int, Option<string>)>, qs: seq<(int, Option<string>)>)
    requires forall k :: 0 <= k < |ps| ==> ps[k].0 in m
    requires forall k :: 0 <= k < |qs| ==> qs[k].0 in m
    ensures forall k :: 0 <= k < |qs| ==> qs[k].0 in Accumulate(m, ps)
    ensures Accumulate(m, ps + qs) == Accumulate(Accumulate(m, ps), qs)
  {
    if |qs| > 0 {
      var q' := qs[..|qs| - 1];
      assert (ps + qs)[..|ps + qs| - 1] == ps + q';
      AccumulateAppend(m, ps, q');
    } else {
      assert ps + qs == ps;
    }
  }

  lemma AccumulateSnoc(m: map<int, seq<Option<string>>>, ps: seq<(int, Option<string>)>, p: (int, Option<string>))
    requires forall k :: 0 <= k < |ps| ==> ps[k].0 in m
    requires p.0 in m
    ensures p.0 in Accumulate(m, ps)
    ensures Accumulate(m, ps + [p]) == Accumulate(m, ps)[p.0 := JsArray.PushIfAbsent(Accumulate(m, ps)[p.0], p.1)]
  {
    assert (ps + [p])[..|ps|] == ps;
  }

  /** Accumulating one more pair of a row. */
  lemma AccumulatePrefix(m: map<int, seq<Option<string>>>, row: seq<(int, Option<string>)>, i: nat)
    requires i < |row| && forall k :: 0 <= k < |row| ==> row[k].0 in m
    ensures row[i].0 in Accumulate(m, row[..i])
    ensures Accumulate(m, row[..i + 1]) == Accumulate(m, row[..i])[row[i].0 := JsArray.PushIfAbsent(Accumulate(m, row[..i])[row[i].0], row[i].1)]
  {
    assert row[..i + 1] == row[..i] + [row[i]];
    AccumulateSnoc(m, row[..i], row[i]);
  }

  /** With distinct resolutions, one group string touches the list of the
      i-th resolution only through its i-th field. */
  lemma {:induction false} AccumulateRow(m: map<int, seq<Option<string>>>, fg: string, resolutions: seq<int>, i: nat, k: nat)
    requires JsArray.NoDup(resolutions)
    requires forall r :: r in resolutions ==> r in m
    requires i < |resolutions| && k <= |resolutions|
    ensures var row := RowOf(fg, resolutions)[..k];
      Accumulate(m, row)[resolutions[i]]
        == if i < k then JsArray.PushIfAbsent(m[resolutions[i]], Field(Text.Split(fg, ','), i))
           else m[resolutions[i]]
  {
    if k > 0 {
      var row := RowOf(fg, resolutions);
      assert row[..k][..k - 1] == row[..k - 1];
      AccumulateRow(m, fg, resolutions, i, k - 1);
      if i != k - 1 {
        assert resolutions[k - 1] != resolutions[i];
      }
    }
  }

  /** The i-th comma fields of the group strings. */
  function Column(featureGroups: seq<string>, i: nat): (c: seq<Option<string>>)
    ensures |c| == |featureGroups|
  {
    seq(|featureGroups|, j requires 0 <= j < |featureGroups| => Field(Text.Split(featureGroups[j], ','), i))
  }

  /** With distinct resolutions (as the pyramid writes them), the groups of
      the i-th resolution are the distinct i-th fields of the registered
      group strings, in first-seen order. */
  lemma {:induction false} GroupsAreDistinctColumn(featureGroups: seq<string>, resolutions: seq<int>, i: nat)
    requires JsArray.NoDup(resolutions) && i < |resolutions|
    ensures resolutions[i] in Groups(featureGroups, resolutions)
    ensures Groups(featureGroups, resolutions)[resolutions[i]] == JsArray.DistinctFirstSeen(Column(featureGroups, i))
  {
    if |featureGroups| > 0 {
      var n := |featureGroups| - 1;
      var prefix := featureGroups[..n];
      GroupsAreDistinctColumn(prefix, resolutions, i);
      GroupsSnoc(featureGroups, resolutions, i);
      var col := Column(featureGroups, i);
      assert col[..n] == Column(prefix, i);
      DistinctSnoc(col);
    }
  }

  /** One more group string pushes its i-th field onto the i-th list. */
  lemma GroupsSnoc(featureGroups: seq<string>, resolutions: seq<int>, i: nat)
    requires JsArray.NoDup(resolutions) && i < |resolutions| && |featureGroups| > 0
    ensures var n := |featureGroups| - 1;
      resolutions[i] in Groups(featureGroups[..n], resolutions) &&
      Groups(featureGroups, resolutions)[resolutions[i]]
        == JsArray.PushIfAbsent(Groups(featureGroups[..n], resolutions)[resolutions[i]], Field(Text.Split(featureGroups[n], ','), i))
  {
    var n := |featureGroups| - 1;
    GroupsAppend(featureGroups, resolutions);
    AccumulateFullRow(Groups(featureGroups[..n], resolutions), featureGroups[n], resolutions, i);
  }

  /** The groups after one more group string are the earlier groups with
      its row accumulated. */
  lemma GroupsAppend(featureGroups: seq<string>, resolutions: seq<int>)
    requires |featureGroups| > 0
    ensures var n := |featureGroups| - 1;
      (forall r :: r in resolutions ==> r in Groups(featureGroups[..n], resolutions)) &&
      Groups(featureGroups, resolutions) == Accumulate(Groups(featureGroups[..n], resolutions), RowOf(featureGroups[n], resolutions))
  {
    var n := |featureGroups| - 1;
    var ps := Pairs(featureGroups[..n], resolutions);
    var row := RowOf(featureGroups[n], resolutions);
    assert Pairs(featureGroups, resolutions) == ps + row;
    AccumulateAppend(InitialGroups(resolutions), ps, row);
  }

  lemma AccumulateFullRow(m: map<int, seq<Option<string>>>, fg: string, resolutions: seq<int>, i: nat)
    requires JsArray.NoDup(resolutions) && i < |resolutions|
    requires forall r :: r in resolutions ==> r in m
    ensures resolutions[i] in m
    ensures Accumulate(m, RowOf(fg, resolutions))[resolutions[i]] == JsArray.PushIfAbsent(m[resolutions[i]], Field(Text.Split(fg, ','), i))
  {
    var row := RowOf(fg, resolutions);
    assert row[..|resolutions|] == row;
    AccumulateRow(m, fg, resolutions, i, |resolutions|);
  }

  lemma DistinctSnoc<T(!new)>(s: seq<T>)
    requires |s| > 0
    ensures JsArray.DistinctFirstSeen(s) == JsArray.PushIfAbsent(JsArray.DistinctFirstSeen(s[..|s| - 1]), s[|s| - 1])
  {
  }

  /** The map has exactly one entry per resolution. */
  lemma GroupsKeys(featureGroups: seq<string>, resolutions: seq<int>)
    ensures forall r :: r in Groups(featureGroups, resolutions) <==> r in resolutions
  {
  }

  class Loader {
    var resolutions: seq<int>
    var featureGroups: seq<string>
    var currentGroups: map<int, seq<Option<string>>>

    ghost predicate Valid()
      reads this
    {
      currentGroups == Groups(featureGroups, resolutions)
    }

    constructor(resolutions: seq<int>)
      ensures this.resolutions == resolutions
      ensures featureGroups == []
      ensures currentGroups == InitialGroups(resolutions)
      ensures Valid()
    {
      this.resolutions := resolutions;
      featureGroups := [];
      currentGroups := InitialGroups(resolutions);
    }

    /** populateFeatureGroups */
    method PopulateFeatureGroups()
      modifies this`currentGroups
      ensures currentGroups == Groups(featureGroups, resolutions)
      ensures Valid()
    {
      currentGroups := InitialGroups(resolutions);
      var j := 0;
      while j < |featureGroups|
        invariant 0 <= j <= |featureGroups|
        invariant currentGroups == Groups(featureGroups[..j], resolutions)
      {
        ghost var done := Pairs(featureGroups[..j], resolutions);
        ghost var row := RowOf(featureGroups[j], resolutions);
        assert featureGroups[..j + 1][..j] == featureGroups[..j];
        AccumulateAppend(InitialGroups(resolutions), done, row);
        PushRow(featureGroups[j]);
        j := j + 1;
      }
      assert featureGroups[..|featureGroups|] == featureGroups;
    }

    /** The inner loop of populateFeatureGroups, for one group string. */
    method PushRow(featureGroup: string)
      requires forall r :: r in resolutions ==> r in currentGroups
      modifies this`currentGroups
      ensures currentGroups == Accumulate(old(currentGroups), RowOf(featureGroup, resolutions))
    {
      var pieces := Text.Split(featureGroup, ',');
      ghost var row := RowOf(featureGroup, resolutions);
      var start := currentGroups;
      var groups := start;
      assert forall k :: 0 <= k < |row| ==> row[k].0 in start;
      var i := 0;
      while i < |resolutions|
        invariant 0 <= i <= |resolutions|
        invariant groups == Accumulate(start, row[..i])
        invariant groups.Keys == start.Keys
      {
        var current := Field(pieces, i);
        var res := resolutions[i];
        assert row[i] == (res, current);
        var group := groups[res];
        if !(current in group) {
          group := group + [current];
        }
        AccumulatePrefix(start, row, i);
        groups := groups[res := group];
        i := i + 1;
      }
      assert row[..|resolutions|] == row;
      currentGroups := groups;
    }

    /** addFeatureGroup */
    method AddFeatureGroup(featureGroup: string)
      modifies this`featureGroups, this`currentGroups
      ensures featureGroups == old(featureGroups) + [featureGroup]
      ensures currentGroups == Groups(featureGroups, resolutions)
      ensures Valid()
    {
      featureGroups := featureGroups + [featureGroup];
      PopulateFeatureGroups();
    }

    /** removeFeatureGroup: `splice(indexOf(s), 1)`, so a string that was
        never added removes the last one instead. */
    method RemoveFeatureGroup(featureGroup: string)
      modifies this`featureGroups, this`currentGroups
      ensures featureGroups == JsArray.RemoveAt(old(featureGroups), featureGroup)
      ensures currentGroups == Groups(featureGroups, resolutions)
      ensures Valid()
    {
      var idx := JsArray.IndexOf(featureGroups, featureGroup);
      featureGroups := JsArray.Splice1(featureGroups, idx);
      PopulateFeatureGroups();
    }
  }

  // ---------------------------------------------------------------------
  // Tile URLs and group paths

  /** tileUrlFunction: "z/x/y". */
  function TileUrl(z: int, x: int, y: int): (url: string)
  {
    Text.Join([Text.IntToDecimal(z), Text.IntToDecimal(x), Text.IntToDecimal(y)], '/')
  }

  /** `parseInt(pieces[k])`, NaN (None) when the piece is missing. */
  function PieceInt(pieces: seq<string>, k: nat): Option<int>
  {
    if k < |pieces| then Text.ParseInt(pieces[k]) else None
  }

  /** The (z, x, y) tileLoadFunction reads back from a URL. */
  function ParseTileUrl(url: string): (Option<int>, Option<int>, Option<int>)
  {
    var pieces := Text.Split(url, '/');
    (PieceInt(pieces, 0), PieceInt(pieces, 1), PieceInt(pieces, 2))
  }

  lemma ParseIntOfIntToDecimal(n: int)
    ensures Text.ParseInt(Text.IntToDecimal(n)) == Some(n)
  {
    if n < 0 {
      var d := Text.NatToDecimal(-n);
      Text.DigitPrefixOfDigits(d, "");
      assert d + "" == d && d[..|d|] == d;
      Text.DecimalRoundTrip(-n);
      assert ("-" + d)[1..] == d;
    } else {
      Text.ParseIntOfDecimal(n, "");
      assert Text.NatToDecimal(n) + "" == Text.NatToDecimal(n);
    }
  }

  lemma NoSlashInDecimal(n: int)
    ensures '/' !in Text.IntToDecimal(n)
  {
  }

  /** The URL of a tile parses back to the tile's coordinates. */
  lemma TileUrlRoundTrip(z: int, x: int, y: int)
    ensures ParseTileUrl(TileUrl(z, x, y)) == (Some(z), Some(x), Some(y))
  {
    var parts := [Text.IntToDecimal(z), Text.IntToDecimal(x), Text.IntToDecimal(y)];
    NoSlashInDecimal(z);
    NoSlashInDecimal(x);
    NoSlashInDecimal(y);
    Text.SplitJoin(parts, '/');
    ParseIntOfIntToDecimal(z);
    ParseIntOfIntToDecimal(x);
    ParseIntOfIntToDecimal(y);
  }

  /** A number in a template literal: its decimal text, or "NaN". */
  function NumberText(n: Option<int>): string
  {
    if n.Some? then Text.IntToDecimal(n.value) else "NaN"
  }

  /** A group name in a template literal ("undefined" for a missing field). */
  function GroupText(g: Option<string>): string
  {
    if g.Some? then g.value else "undefined"
  }

  /** `/zooms/${resolution}/${x}_${y}/${fg}` */
  function GroupPath(resolution: int, x: Option<int>, y: Option<int>, fg: Option<string>): (p: string)
    ensures |p| > 7 && p[..7] == "/zooms/"
  {
    "/zooms/" + Text.IntToDecimal(resolution) + "/" + NumberText(x) + "_" + NumberText(y) + "/" + GroupText(fg)
  }

  datatype LoadError = NoSuchLevel | UnsupportedCountDtype | UnsupportedFeatureIndexDtype | UnsupportedLocationDtype

  /** The group paths requested for a tile URL: one per current group of the
      level `resolutions[z]`; a z outside the levels leaves `fgs`
      undefined and the loader throws. */
  function TileGroupPaths(url: string, resolutions: seq<int>, currentGroups: map<int, seq<Option<string>>>): (r: Result<seq<string>, LoadError>)
    ensures r.Ok? <==>
      var z := ParseTileUrl(url).0;
      z.Some? && 0 <= z.value < |resolutions| && resolutions[z.value] in currentGroups
    ensures r.Ok? ==>
      var (z, x, y) := ParseTileUrl(url);
      var fgs := currentGroups[resolutions[z.value]];
      |r.value| == |fgs| && forall i :: 0 <= i < |fgs| ==> r.value[i] == GroupPath(resolutions[z.value], x, y, fgs[i])
  {
    var (z, x, y) := ParseTileUrl(url);
    if z.None? || z.value < 0 || z.value >= |resolutions| || resolutions[z.value] !in currentGroups then Err(NoSuchLevel)
    else
      var res := resolutions[z.value];
      var fgs := currentGroups[res];
      Ok(seq(|fgs|, i requires 0 <= i < |fgs| => GroupPath(res, x, y, fgs[i])))
  }

  /** For a loader in its valid state and a tile it produced the URL of,
      the paths cover exactly the groups registered for that level. */
  lemma TileGroupPathsOfOwnTile(z: nat, x: int, y: int, featureGroups: seq<string>, resolutions: seq<int>)
    requires z < |resolutions|
    ensures var r := TileGroupPaths(TileUrl(z, x, y), resolutions, Groups(featureGroups, resolutions));
      r.Ok? && |r.value| == |Groups(featureGroups, resolutions)[resolutions[z]]|
  {
    TileUrlRoundTrip(z, x, y);
  }

  // ---------------------------------------------------------------------
  // Decoding one group's arrays

  datatype TypedArray = Uint32Array(ints: seq<nat>) | Float32Array(reals: seq<real>) | OtherArray

  /** A point feature; `id` is always undefined because the ids list the
      loader indexes is never filled. */
  datatype PointFeature = PointFeature(x: Option<real>, y: Option<real>, id: Option<nat>, featureIndex: Option<nat>, count: nat)

  function AtInt(s: seq<nat>, i: nat): Option<nat> { if i < |s| then Some(s[i]) else None }

  function AtReal(s: seq<real>, i: nat): Option<real> { if i < |s| then Some(s[i]) else None }

  /** The feature for row i: the y coordinate is flipped to
      fullImageHeight - y (undefined stays undefined, as NaN). */
  function PointAt(counts: seq<nat>, featureIndices: seq<nat>, xs: seq<real>, ys: seq<real>, fullImageHeight: real, i: nat): PointFeature
    requires i < |counts|
  {
    var y := AtReal(ys, i);
    PointFeature(AtReal(xs, i), if y.Some? then Some(fullImageHeight - y.value) else None,
                 None, AtInt(featureIndices, i), counts[i])
  }

  /** The dtype checks and the feature loop of tileLoadFunction for one group. */
  method DecodeGroup(counts: TypedArray, featureIndices: TypedArray, xs: TypedArray, ys: TypedArray, fullImageHeight: real)
    returns (r: Result<seq<PointFeature>, LoadError>)
    ensures !counts.Uint32Array? ==> r == Err(UnsupportedCountDtype)
    ensures counts.Uint32Array? && !featureIndices.Uint32Array? ==> r == Err(UnsupportedFeatureIndexDtype)
    ensures counts.Uint32Array? && featureIndices.Uint32Array? && !(xs.Float32Array? && ys.Float32Array?) ==>
      r == Err(UnsupportedLocationDtype)
    ensures r.Ok? <==> counts.Uint32Array? && featureIndices.Uint32Array? && xs.Float32Array? && ys.Float32Array?
    ensures r.Ok? ==> |r.value| == |counts.ints|
    ensures r.Ok? ==> forall i :: 0 <= i < |counts.ints| ==>
      r.value[i].count == counts.ints[i] && r.value[i].id.None?
      && r.value[i].featureIndex == AtInt(featureIndices.ints, i)
      && r.value[i].x == AtReal(xs.reals, i)
      && r.value[i].y == (if i < |ys.reals| then Some(fullImageHeight - ys.reals[i]) else None)
  {
    if !counts.Uint32Array? { return Err(UnsupportedCountDtype); }
    if !featureIndices.Uint32Array? { return Err(UnsupportedFeatureIndexDtype); }
    if !xs.Float32Array? { return Err(UnsupportedLocationDtype); }
    if !ys.Float32Array? { return Err(UnsupportedLocationDtype); }
    var features: seq<PointFeature> := [];
    var i := 0;
    while i < |counts.ints|
      invariant 0 <= i <= |counts.ints|
      invariant |features| == i
      invariant forall k :: 0 <= k < i ==>
        features[k] == PointAt(counts.ints, featureIndices.ints, xs.reals, ys.reals, fullImageHeight, k)
    {
      features := features + [PointAt(counts.ints, featureIndices.ints, xs.reals, ys.reals, fullImageHeight, i)];
      i := i + 1;
    }
    return Ok(features);
  }
}
