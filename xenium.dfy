// The Xenium importer (cosilico_py/preprocessing/platforms/x10_xenium.py):
// the parameter plan of the transcript and cell layers, the transcript
// quality filter with its feature codes, the scaling to pixels and the
// bounding-box crop shared by transcripts and cell vertices.
module Xenium {
  import opened Wrappers
  import JsArray
  import Arith
  import Pyramid

  // ---------------------------------------------------------------------
  // Transcript tile size

  /** `1 << (max_dim_size.bit_length() - 1)` raises for an empty image. */
  datatype PlanError = NegativeShift

  /** Python's `int.bit_length`: the number of binary digits of n. */
  function BitLength(n: nat): (r: nat)
    ensures r == 0 <==> n == 0
  {
    if n == 0 then 0 else 1 + BitLength(n / 2)
  }

  function Pow2(k: nat): (r: nat)
    ensures r > 0
  {
    if k == 0 then 1 else 2 * Pow2(k - 1)
  }

  /** The top binary digit of n is worth 2^(bit_length - 1). */
  lemma {:induction false} BitLengthBounds(n: nat)
    requires n > 0
    ensures Pow2(BitLength(n) - 1) <= n < 2 * Pow2(BitLength(n) - 1)
  {
    if n > 1 {
      BitLengthBounds(n / 2);
    }
  }

  const TranscriptTile: nat := 4096

  /** The transcript tile size: 4096, lowered to `1 << (bit_length - 1)`
      when the image is smaller. */
  function TranscriptTileSize(maxDim: nat): Result<nat, PlanError>
  {
    if TranscriptTile > maxDim then
      if maxDim == 0 then Err(NegativeShift) else Ok(Pow2(BitLength(maxDim) - 1))
    else Ok(TranscriptTile)
  }

  /** The tile size is 4096, or else the largest power of two not above the
      largest image dimension; only an empty image has none. */
  lemma TranscriptTileSizeIs(maxDim: nat)
    ensures TranscriptTileSize(maxDim).Err? <==> maxDim == 0
    ensures maxDim >= TranscriptTile ==> TranscriptTileSize(maxDim) == Ok(TranscriptTile)
    ensures 0 < maxDim < TranscriptTile ==>
      exists k: nat :: TranscriptTileSize(maxDim) == Ok(Pow2(k)) && Pow2(k) <= maxDim < 2 * Pow2(k)
  {
    if 0 < maxDim < TranscriptTile {
      BitLengthBounds(maxDim);
      var k: nat := BitLength(maxDim) - 1;
      assert TranscriptTileSize(maxDim) == Ok(Pow2(k));
    }
  }

  // ---------------------------------------------------------------------
  // Group sizes and bin sizes per zoom level

  const InitialGroupSize: nat := 1024
  const TranscriptResMagnitude: nat := 4
  const BinSize: nat := 64

  /** (4 * 2) ** i. */
  function Pow8(i: nat): (r: nat)
    ensures r > 0
  {
    if i == 0 then 1 else Pow8(i - 1) * 8
  }

  /** `[int(1024 / (4 * 2)**i) for i in range(levels)]`; the quotients are
      powers of two, so the float division is exact and `int` is the floor. */
  function GroupSizes(levels: nat): (r: seq<nat>)
    ensures |r| == levels
  {
    seq(levels, i requires 0 <= i => Quotient(InitialGroupSize, Pow8(i)))
  }

  function Quotient(a: nat, b: nat): nat
    requires b > 0
  {
    a / b
  }

  lemma {:induction false} DivDiv(a: nat, b: nat, c: nat)
    requires b > 0 && c > 0
    ensures b * c > 0 && a / b / c == a / (b * c)
  {
    var q, r := a / b, a % b;
    var q2, r2 := q / c, q % c;
    Arith.Euclid(a, b);
    Arith.Euclid(q, c);
    assert a == q2 * (b * c) + (r2 * b + r) by {
      assert q == q2 * c + r2;
      assert a == (q2 * c + r2) * b + r;
    }
    assert r2 * b + r < b * c by {
      assert r2 <= c - 1;
      Arith.MulMonotone(r2, c - 1, b);
      assert (c - 1) * b == b * c - b;
    }
    Arith.DivModUnique(a, b * c, q2, r2 * b + r);
  }

  /** The first level groups 1024 features and each next level an eighth as
      many (rounded down), so the sizes never grow. */
  lemma GroupSizesShrink(levels: nat)
    ensures levels > 0 ==> GroupSizes(levels)[0] == InitialGroupSize
    ensures forall i :: 0 <= i < levels - 1 ==> GroupSizes(levels)[i + 1] == GroupSizes(levels)[i] / 8
    ensures forall i, j :: 0 <= i <= j < levels ==> GroupSizes(levels)[j] <= GroupSizes(levels)[i]
  {
    var g := GroupSizes(levels);
    forall i | 0 <= i < levels - 1
      ensures g[i + 1] == g[i] / 8
    {
      DivDiv(InitialGroupSize, Pow8(i), 8);
      assert g[i] == InitialGroupSize / Pow8(i);
      assert Pow8(i + 1) == Pow8(i) * 8;
    }
    forall i, j | 0 <= i <= j < levels
      ensures g[j] <= g[i]
    {
      ShrinkSpan(g, i, j);
    }
  }

  lemma {:induction false} ShrinkSpan(g: seq<nat>, i: nat, j: nat)
    requires i <= j < |g|
    requires forall k :: 0 <= k < |g| - 1 ==> g[k + 1] == g[k] / 8
    ensures g[j] <= g[i]
    decreases j - i
  {
    if i < j {
      ShrinkSpan(g, i + 1, j);
    }
  }

  /** `{res: i * 4 * 64 for i, res in enumerate(zooms) if i}`; a repeated
      zoom keeps the value of its last position. */
  function BinSizeMap(zooms: seq<nat>): map<nat, nat>
  {
    if |zooms| <= 1 then map[]
    else
      var n := |zooms| - 1;
      BinSizeMap(zooms[..n])[zooms[n] := n * TranscriptResMagnitude * BinSize]
  }

  /** The keys are the zooms from the second on; with distinct zooms, zoom i
      (from the second on) gets the bin size 256 * i and the first zoom none. */
  lemma {:induction false} BinSizesByLevel(zooms: seq<nat>)
    requires JsArray.NoDup(zooms)
    ensures BinSizeMap(zooms).Keys == set i | 1 <= i < |zooms| :: zooms[i]
    ensures |zooms| > 0 ==> zooms[0] !in BinSizeMap(zooms)
    ensures forall i :: 1 <= i < |zooms| ==> zooms[i] in BinSizeMap(zooms) && BinSizeMap(zooms)[zooms[i]] == 256 * i
  {
    if |zooms| > 1 {
      var n := |zooms| - 1;
      var init := zooms[..n];
      assert JsArray.NoDup(init);
      BinSizesByLevel(init);
      var m := BinSizeMap(init);
      assert BinSizeMap(zooms) == m[zooms[n] := n * 256];
      assert (set i | 1 <= i < |zooms| :: zooms[i]) == (set i | 1 <= i < n :: init[i]) + {zooms[n]};
      if n > 1 {
        assert zooms[0] == init[0] && zooms[0] != zooms[n];
      }
      forall i | 1 <= i < n
        ensures zooms[i] in BinSizeMap(zooms) && BinSizeMap(zooms)[zooms[i]] == 256 * i
      {
        assert init[i] == zooms[i] && zooms[i] != zooms[n];
      }
    }
  }

  // ---------------------------------------------------------------------
  // The layer plan of experiment_from_x10_xenium_cellranger

  datatype XeniumPlan = XeniumPlan(
    transcriptTileSize: nat, transcriptZooms: seq<nat>, groupSizes: seq<nat>, binSizeMap: map<nat, nat>,
    cellZooms: seq<nat>, imageIds: seq<string>, layerIds: seq<string>, bundleLayers: seq<string>)

  const CellTile: nat := 4096
  const CellResMagnitude: nat := 2

  /** The plan: the transcript tile size and zooms (scaler 4), a group size
      and (from the second zoom on) a bin size per zoom, the cell zooms
      (tile 4096, scaler 2), and the id lists: the image id appended, the
      transcript layer appended, then the cell layer inserted in front. */
  method PlanXenium(maxDim: nat, imageId: string, transcriptLayerId: string, cellLayerId: string)
    returns (r: Result<XeniumPlan, PlanError>)
    ensures r.Err? <==> maxDim == 0
    ensures r.Ok? ==>
      var p := r.value;
      && TranscriptTileSize(maxDim) == Ok(p.transcriptTileSize)
      && Pyramid.IsResolutionPlan(p.transcriptZooms, p.transcriptTileSize, maxDim, TranscriptResMagnitude)
      && p.groupSizes == GroupSizes(|p.transcriptZooms|)
      && p.binSizeMap == BinSizeMap(p.transcriptZooms)
      && Pyramid.IsResolutionPlan(p.cellZooms, CellTile, maxDim, CellResMagnitude)
      && p.imageIds == [imageId]
      && p.layerIds == [cellLayerId, transcriptLayerId]
      && p.layerIds == p.bundleLayers
  {
    var tileSize := TranscriptTile;
    if tileSize > maxDim {
      if maxDim == 0 {
        return Err(NegativeShift);
      }
      tileSize := Pow2(BitLength(maxDim) - 1);
    }
    var imageIds: seq<string> := [];
    var layerIds: seq<string> := [];
    imageIds := imageIds + [imageId];
    var zooms := Pyramid.GetResolutions(tileSize, maxDim, TranscriptResMagnitude);
    var groupSizes := GroupSizes(|zooms|);
    var binSizeMap := BinSizeMap(zooms);
    layerIds := layerIds + [transcriptLayerId];
    var cellZooms := Pyramid.GetResolutions(CellTile, maxDim, CellResMagnitude);
    layerIds := [cellLayerId] + layerIds;
    var bundleLayers := [cellLayerId, transcriptLayerId];
    r := Ok(XeniumPlan(tileSize, zooms, groupSizes, binSizeMap, cellZooms, imageIds, layerIds, bundleLayers));
  }

  /** In a plan the transcript zooms strictly grow, so zoom i (from the
      second on) has bin size 256 * i and the first zoom has none. */
  lemma PlanBinSizes(p: XeniumPlan, maxDim: nat)
    requires p.transcriptTileSize > 0
    requires Pyramid.IsResolutionPlan(p.transcriptZooms, p.transcriptTileSize, maxDim, TranscriptResMagnitude)
    requires p.binSizeMap == BinSizeMap(p.transcriptZooms)
    ensures p.transcriptZooms[0] !in p.binSizeMap
    ensures forall i :: 1 <= i < |p.transcriptZooms| ==>
      p.transcriptZooms[i] in p.binSizeMap && p.binSizeMap[p.transcriptZooms[i]] == 256 * i
  {
    var z := p.transcriptZooms;
    ZoomsGrow(z, p.transcriptTileSize, maxDim);
    assert JsArray.NoDup(z) by {
      forall i, j | 0 <= i < j < |z|
        ensures z[i] != z[j]
      {
        assert z[i] < z[j];
      }
    }
    BinSizesByLevel(z);
  }

  lemma ZoomsGrow(z: seq<nat>, tileSize: nat, maxDim: nat)
    requires tileSize > 0
    requires Pyramid.IsResolutionPlan(z, tileSize, maxDim, TranscriptResMagnitude)
    ensures forall i, j :: 0 <= i < j < |z| ==> z[i] < z[j]
  {
    assert forall i :: 0 <= i < |z| ==> z[i] > 0 by {
      forall i | 0 <= i < |z|
        ensures z[i] > 0
      {
        Positive(z, tileSize, maxDim, i);
      }
    }
    forall i, j | 0 <= i < j < |z|
      ensures z[i] < z[j]
    {
      Increasing(z, tileSize, maxDim, i, j);
    }
  }

  lemma {:induction false} Positive(z: seq<nat>, tileSize: nat, maxDim: nat, i: nat)
    requires tileSize > 0 && i < |z|
    requires Pyramid.IsResolutionPlan(z, tileSize, maxDim, TranscriptResMagnitude)
    ensures z[i] > 0
  {
    if i > 0 {
      Positive(z, tileSize, maxDim, i - 1);
      assert z[i] == z[i - 1] * 4;
    }
  }

  lemma {:induction false} Increasing(z: seq<nat>, tileSize: nat, maxDim: nat, i: nat, j: nat)
    requires i < j < |z|
    requires forall k :: 0 <= k < |z| ==> z[k] > 0
    requires Pyramid.IsResolutionPlan(z, tileSize, maxDim, TranscriptResMagnitude)
    ensures z[i] < z[j]
    decreases j - i
  {
    assert z[j] == z[j - 1] * 4;
    if i < j - 1 {
      Increasing(z, tileSize, maxDim, i, j - 1);
    }
  }

  // ---------------------------------------------------------------------
  // Loading: quality filter, feature codes, scaling and the bbox crop

  /** A located row: coordinates plus the other columns. */
  datatype Located<T> = Located(x: real, y: real, columns: T)

  /** `bbox = (r1, r2, c1, c2)`: rows, then columns. */
  datatype BBox = BBox(r1: real, r2: real, c1: real, c2: real)

  datatype TranscriptColumns = TranscriptColumns(
    featureName: string, isGene: bool, codewordCategory: string, transcriptId: nat, qv: real)

  datatype KeptColumns = KeptColumns(featureName: string, featureIndex: nat, transcriptId: nat, qv: real)

  const PredesignedGene: string := "predesigned_gene"
  const MinQv: real := 20.0

  predicate PassesQuality(t: TranscriptColumns)
  {
    t.isGene && t.codewordCategory == PredesignedGene && t.qv >= MinQv
  }

  /** The three `.loc` filters, in order. */
  function QualityFilter(rows: seq<Located<TranscriptColumns>>): (r: seq<Located<TranscriptColumns>>)
    ensures |r| <= |rows|
  {
    if |rows| == 0 then []
    else
      var rest := QualityFilter(rows[..|rows| - 1]);
      var last := rows[|rows| - 1];
      if PassesQuality(last.columns) then rest + [last] else rest
  }

  /** A row is kept exactly when it passes the three tests. */
  lemma {:induction false} QualityFilterKeeps(rows: seq<Located<TranscriptColumns>>)
    ensures forall t :: t in QualityFilter(rows) <==> t in rows && PassesQuality(t.columns)
  {
    if |rows| > 0 {
      var init := rows[..|rows| - 1];
      QualityFilterKeeps(init);
      assert rows == init + [rows[|rows| - 1]];
    }
  }

  predicate NameUsed(name: string, rows: seq<Located<TranscriptColumns>>)
  {
    exists i :: 0 <= i < |rows| && rows[i].columns.featureName == name
  }

  /** `cat.remove_unused_categories()`: the categories still used, in their
      category order. */
  function UsedCategories(categories: seq<string>, rows: seq<Located<TranscriptColumns>>): (r: seq<string>)
    ensures |r| <= |categories|
    ensures forall c :: c in r <==> c in categories && NameUsed(c, rows)
    ensures JsArray.NoDup(categories) ==> JsArray.NoDup(r)
  {
    if |categories| == 0 then []
    else
      var init := categories[..|categories| - 1];
      var last := categories[|categories| - 1];
      var r := UsedCategories(init, rows);
      assert forall c :: c in categories <==> c in init || c == last;
      if NameUsed(last, rows) then r + [last] else r
  }

  /** The used categories are `categories` filtered in place: the filter of
      a concatenation is the concatenation of the filters, and a single
      category is kept iff a row uses it. Together these fix the order. */
  lemma {:induction false} UsedCategoriesIsFilter(a: seq<string>, b: seq<string>, c: string, rows: seq<Located<TranscriptColumns>>)
    ensures UsedCategories(a + b, rows) == UsedCategories(a, rows) + UsedCategories(b, rows)
    ensures UsedCategories([c], rows) == if NameUsed(c, rows) then [c] else []
    decreases |b|
  {
    assert [c][..0] == [];
    if |b| == 0 {
      assert a + b == a;
    } else {
      var b' := b[..|b| - 1];
      assert (a + b)[..|a + b| - 1] == a + b';
      assert (a + b)[|a + b| - 1] == b[|b| - 1];
      UsedCategoriesIsFilter(a, b', c, rows);
      if NameUsed(b[|b| - 1], rows) {
        assert UsedCategories(a, rows) + UsedCategories(b', rows) + [b[|b| - 1]]
            == UsedCategories(a, rows) + (UsedCategories(b', rows) + [b[|b| - 1]]);
      }
    }
  }

  predicate NamesAreCategories(rows: seq<Located<TranscriptColumns>>, categories: seq<string>)
  {
    forall i :: 0 <= i < |rows| ==> rows[i].columns.featureName in categories
  }

  /** A row with its coordinates divided by the microns per pixel. */
  function Scaled<T>(p: Located<T>, mpp: real): Located<T>
    requires mpp != 0.0
  {
    Located(p.x / mpp, p.y / mpp, p.columns)
  }

  function Scale<T>(rows: seq<Located<T>>, mpp: real): (r: seq<Located<T>>)
    requires mpp != 0.0
    ensures |r| == |rows|
    ensures forall i :: 0 <= i < |rows| ==> r[i] == Scaled(rows[i], mpp)
  {
    seq(|rows|, i requires 0 <= i < |rows| => Scaled(rows[i], mpp))
  }

  predicate InBox<T>(p: Located<T>, b: BBox)
  {
    b.c1 < p.x < b.c2 && b.r1 < p.y < b.r2
  }

  /** `source[(x > c1) & (x < c2)]`. */
  function CropX<T(!new)>(rows: seq<Located<T>>, b: BBox): (r: seq<Located<T>>)
    ensures forall p :: p in r <==> p in rows && b.c1 < p.x < b.c2
  {
    if |rows| == 0 then []
    else
      var init := rows[..|rows| - 1];
      var last := rows[|rows| - 1];
      assert rows == init + [last];
      var rest := CropX(init, b);
      if b.c1 < last.x < b.c2 then rest + [last] else rest
  }

  /** `source[(y > r1) & (y < r2)]`. */
  function CropY<T(!new)>(rows: seq<Located<T>>, b: BBox): (r: seq<Located<T>>)
    ensures forall p :: p in r <==> p in rows && b.r1 < p.y < b.r2
  {
    if |rows| == 0 then []
    else
      var init := rows[..|rows| - 1];
      var last := rows[|rows| - 1];
      assert rows == init + [last];
      var rest := CropY(init, b);
      if b.r1 < last.y < b.r2 then rest + [last] else rest
  }

  /** A row moved by (-c1, -r1). */
  function Moved<T>(p: Located<T>, b: BBox): Located<T>
  {
    Located(p.x - b.c1, p.y - b.r1, p.columns)
  }

  function Shift<T>(rows: seq<Located<T>>, b: BBox): (r: seq<Located<T>>)
    ensures |r| == |rows|
    ensures forall i :: 0 <= i < |rows| ==> r[i] == Moved(rows[i], b)
  {
    seq(|rows|, i requires 0 <= i < |rows| => Moved(rows[i], b))
  }

  /** The crop: both strict filters, then the shift by (c1, r1). */
  function Crop<T(!new)>(rows: seq<Located<T>>, b: BBox): seq<Located<T>>
  {
    Shift(CropY(CropX(rows, b), b), b)
  }

  /** The rows strictly inside the box, in order: one filter on both tests. */
  function Inside<T>(rows: seq<Located<T>>, b: BBox): (r: seq<Located<T>>)
    ensures |r| <= |rows|
    ensures forall i :: 0 <= i < |r| ==> exists k :: 0 <= k < |rows| && r[i] == rows[k] && InBox(rows[k], b)
  {
    if |rows| == 0 then []
    else
      var init := rows[..|rows| - 1];
      var last := rows[|rows| - 1];
      var rest := Inside(init, b);
      assert forall i :: 0 <= i < |rest| ==> exists k :: 0 <= k < |rows| && rest[i] == rows[k] && InBox(rows[k], b) by {
        forall i | 0 <= i < |rest|
          ensures exists k :: 0 <= k < |rows| && rest[i] == rows[k] && InBox(rows[k], b)
        {
          var k :| 0 <= k < |init| && rest[i] == init[k] && InBox(init[k], b);
          assert rows[k] == init[k];
        }
      }
      if InBox(last, b) then rest + [last] else rest
  }

  lemma CropYSnoc<T(!new)>(a: seq<Located<T>>, p: Located<T>, b: BBox)
    ensures CropY(a + [p], b) == if b.r1 < p.y < b.r2 then CropY(a, b) + [p] else CropY(a, b)
  {
    assert (a + [p])[..|a|] == a;
  }

  /** Filtering on x and then on y keeps the same rows as one filter on
      both tests. */
  lemma {:induction false} CropFiltersAreInside<T(!new)>(rows: seq<Located<T>>, b: BBox)
    ensures CropY(CropX(rows, b), b) == Inside(rows, b)
  {
    if |rows| > 0 {
      var init, last := rows[..|rows| - 1], rows[|rows| - 1];
      CropFiltersAreInside(init, b);
      if b.c1 < last.x < b.c2 {
        CropYSnoc(CropX(init, b), last, b);
      }
    }
  }

  /** p is some row strictly inside the box, moved by (-c1, -r1). */
  ghost predicate MovedFromInside<T>(p: Located<T>, rows: seq<Located<T>>, b: BBox)
  {
    exists k :: 0 <= k < |rows| && InBox(rows[k], b) && p == Moved(rows[k], b)
  }

  /** Every cropped row is a row strictly inside the box, moved by (-c1, -r1),
      so it lies strictly inside (0, c2 - c1) x (0, r2 - r1). */
  lemma CropComesFromInside<T(!new)>(rows: seq<Located<T>>, b: BBox)
    ensures forall i :: 0 <= i < |Crop(rows, b)| ==> MovedFromInside(Crop(rows, b)[i], rows, b)
    ensures forall i :: 0 <= i < |Crop(rows, b)| ==>
      0.0 < Crop(rows, b)[i].x < b.c2 - b.c1 && 0.0 < Crop(rows, b)[i].y < b.r2 - b.r1
  {
    CropFiltersAreInside(rows, b);
    var inside := Inside(rows, b);
    assert Crop(rows, b) == Shift(inside, b);
    forall i | 0 <= i < |Crop(rows, b)|
      ensures MovedFromInside(Crop(rows, b)[i], rows, b)
      ensures 0.0 < Crop(rows, b)[i].x < b.c2 - b.c1 && 0.0 < Crop(rows, b)[i].y < b.r2 - b.r1
    {
      var k :| 0 <= k < |rows| && inside[i] == rows[k] && InBox(rows[k], b);
      assert Crop(rows, b)[i] == Moved(rows[k], b);
    }
  }

  /** Every row strictly inside the box is kept, moved by (-c1, -r1). */
  lemma {:induction false} CropKeepsInside<T(!new)>(rows: seq<Located<T>>, b: BBox)
    ensures forall p :: p in rows && InBox(p, b) ==> Moved(p, b) in Crop(rows, b)
  {
    CropFiltersAreInside(rows, b);
    InsideKeeps(rows, b);
    var inside := Inside(rows, b);
    forall p | p in rows && InBox(p, b)
      ensures Moved(p, b) in Crop(rows, b)
    {
      var i :| 0 <= i < |inside| && inside[i] == p;
      assert Crop(rows, b)[i] == Moved(p, b);
    }
  }

  lemma {:induction false} InsideKeeps<T>(rows: seq<Located<T>>, b: BBox)
    ensures forall p :: p in rows && InBox(p, b) ==> p in Inside(rows, b)
  {
    if |rows| > 0 {
      var init := rows[..|rows| - 1];
      InsideKeeps(init, b);
      assert rows == init + [rows[|rows| - 1]];
    }
  }

  /** A row on the edge of the box is dropped. */
  lemma CropIsStrict<T(!new)>(p: Located<T>, b: BBox)
    requires p.x == b.c1 || p.y == b.r2
    ensures Crop([p], b) == []
  {
    CropFiltersAreInside([p], b);
    assert [p][..0] == [];
  }

  /** The feature code of each kept row: the position of its name among the
      used categories. */
  function CodeFeatures(kept: seq<Located<TranscriptColumns>>, used: seq<string>): (r: seq<Located<KeptColumns>>)
    ensures |r| == |kept|
  {
    seq(|kept|, i requires 0 <= i < |kept| =>
      var t := kept[i].columns;
      Located(kept[i].x, kept[i].y,
              KeptColumns(t.featureName, if t.featureName in used then JsArray.IndexOf(used, t.featureName) else 0,
                          t.transcriptId, t.qv)))
  }

  /** load_transcript_df: the quality filter; the feature code is the
      position of the name among the categories still used; the coordinates
      divided by the microns per pixel; the optional crop. */
  function LoadTranscripts(rows: seq<Located<TranscriptColumns>>, categories: seq<string>, mpp: real, bbox: Option<BBox>)
    : seq<Located<KeptColumns>>
    requires mpp != 0.0
  {
    var kept := QualityFilter(rows);
    var scaled := Scale(CodeFeatures(kept, UsedCategories(categories, kept)), mpp);
    match bbox
    case None => scaled
    case Some(b) => Crop(scaled, b)
  }

  /** A loaded row's code is the position of its name among the used
      categories, and it passed the quality bar. */
  predicate Coded(c: KeptColumns, used: seq<string>)
  {
    c.qv >= MinQv && c.featureName in used && c.featureIndex == JsArray.IndexOf(used, c.featureName)
  }

  /** Two coded rows share a code exactly when they share a name. */
  lemma CodesMatchNames(a: KeptColumns, c: KeptColumns, used: seq<string>)
    requires Coded(a, used) && Coded(c, used)
    ensures a.featureIndex == c.featureIndex <==> a.featureName == c.featureName
    ensures a.featureIndex < |used|
  {
  }

  predicate AllCoded(s: seq<Located<KeptColumns>>, used: seq<string>)
  {
    forall i :: 0 <= i < |s| ==> Coded(s[i].columns, used)
  }

  lemma CodedRows(rows: seq<Located<TranscriptColumns>>, categories: seq<string>)
    requires NamesAreCategories(rows, categories)
    ensures AllCoded(CodeFeatures(QualityFilter(rows), UsedCategories(categories, QualityFilter(rows))),
                     UsedCategories(categories, QualityFilter(rows)))
  {
    var kept := QualityFilter(rows);
    QualityFilterKeeps(rows);
    var used := UsedCategories(categories, kept);
    var coded := CodeFeatures(kept, used);
    forall i | 0 <= i < |coded|
      ensures Coded(coded[i].columns, used)
    {
      var t := kept[i];
      assert t in kept;
      var k :| 0 <= k < |rows| && rows[k] == t;
      assert t.columns.featureName in categories;
      assert NameUsed(t.columns.featureName, kept);
    }
  }

  /** The other columns of each row, in order. */
  function ColumnsOf<T>(rows: seq<Located<T>>): (r: seq<T>)
    ensures |r| == |rows|
    ensures forall k :: 0 <= k < |rows| ==> r[k] == rows[k].columns
  {
    seq(|rows|, k requires 0 <= k < |rows| => rows[k].columns)
  }

  /** Scaling changes only the coordinates. */
  lemma ScaleKeepsColumns<T>(rows: seq<Located<T>>, mpp: real)
    requires mpp != 0.0
    ensures ColumnsOf(Scale(rows, mpp)) == ColumnsOf(rows)
  {
  }

  /** Cropping keeps the other columns of the rows it keeps. */
  lemma CropKeepsColumns<T(!new)>(rows: seq<Located<T>>, b: BBox)
    ensures forall i :: 0 <= i < |Crop(rows, b)| ==> Crop(rows, b)[i].columns in ColumnsOf(rows)
  {
    var out := Crop(rows, b);
    var cols := ColumnsOf(rows);
    CropComesFromInside(rows, b);
    forall i | 0 <= i < |out|
      ensures out[i].columns in cols
    {
      var k :| 0 <= k < |rows| && InBox(rows[k], b) && out[i] == Moved(rows[k], b);
      assert out[i].columns == cols[k];
    }
  }

  /** Loading moves rows but keeps their other columns. */
  lemma LoadKeepsColumns<T(!new)>(rows: seq<Located<T>>, mpp: real, bbox: Option<BBox>)
    requires mpp != 0.0
    ensures forall i :: 0 <= i < |LoadCells(rows, mpp, bbox)| ==> LoadCells(rows, mpp, bbox)[i].columns in ColumnsOf(rows)
  {
    var scaled := Scale(rows, mpp);
    ScaleKeepsColumns(rows, mpp);
    var out := LoadCells(rows, mpp, bbox);
    match bbox
    case None =>
      forall i | 0 <= i < |out|
        ensures out[i].columns in ColumnsOf(rows)
      {
        assert out[i].columns == ColumnsOf(scaled)[i];
      }
    case Some(b) =>
      CropKeepsColumns(scaled, b);
  }

  /** Every loaded transcript passed the quality tests, and its feature code
      is the position of its name among the used categories. */
  lemma LoadedTranscripts(rows: seq<Located<TranscriptColumns>>, categories: seq<string>, mpp: real, bbox: Option<BBox>)
    requires mpp != 0.0 && NamesAreCategories(rows, categories)
    ensures AllCoded(LoadTranscripts(rows, categories, mpp, bbox), UsedCategories(categories, QualityFilter(rows)))
  {
    var kept := QualityFilter(rows);
    var used := UsedCategories(categories, kept);
    var coded := CodeFeatures(kept, used);
    CodedRows(rows, categories);
    assert AllCoded(coded, used);
    LoadKeepsColumns(coded, mpp, bbox);
    var out := LoadCells(coded, mpp, bbox);
    assert out == LoadTranscripts(rows, categories, mpp, bbox);
    var cols := ColumnsOf(coded);
    forall i | 0 <= i < |out|
      ensures Coded(out[i].columns, used)
    {
      assert out[i].columns in cols;
      var k :| 0 <= k < |cols| && cols[k] == out[i].columns;
      assert Coded(coded[k].columns, used);
    }
  }

  /** Two loaded transcripts share a code exactly when they share a name, and
      the codes run below the number of used categories. */
  lemma LoadedCodesMatchNames(rows: seq<Located<TranscriptColumns>>, categories: seq<string>, mpp: real, bbox: Option<BBox>, i: nat, j: nat)
    requires mpp != 0.0 && NamesAreCategories(rows, categories)
    requires i < |LoadTranscripts(rows, categories, mpp, bbox)| && j < |LoadTranscripts(rows, categories, mpp, bbox)|
    ensures var out := LoadTranscripts(rows, categories, mpp, bbox);
      && out[i].columns.featureIndex < |UsedCategories(categories, QualityFilter(rows))|
      && (out[i].columns.featureIndex == out[j].columns.featureIndex <==> out[i].columns.featureName == out[j].columns.featureName)
  {
    LoadedTranscripts(rows, categories, mpp, bbox);
    var out := LoadTranscripts(rows, categories, mpp, bbox);
    CodesMatchNames(out[i].columns, out[j].columns, UsedCategories(categories, QualityFilter(rows)));
  }

  /** load_cell_df: the vertex coordinates divided by the microns per pixel,
      then the optional crop; each vertex is checked on its own, so a cell
      that straddles the box edge keeps only its inside vertices. */
  function LoadCells<T(!new)>(vertices: seq<Located<T>>, mpp: real, bbox: Option<BBox>): seq<Located<T>>
    requires mpp != 0.0
  {
    var scaled := Scale(vertices, mpp);
    match bbox
    case None => scaled
    case Some(b) => Crop(scaled, b)
  }

  /** With a box, the loaded vertices are exactly the scaled vertices
      strictly inside it, each moved to the box corner. */
  lemma LoadedCells<T(!new)>(vertices: seq<Located<T>>, mpp: real, b: BBox)
    requires mpp != 0.0
    ensures forall k :: 0 <= k < |vertices| && InBox(Scaled(vertices[k], mpp), b) ==>
      Moved(Scaled(vertices[k], mpp), b) in LoadCells(vertices, mpp, Some(b))
    ensures forall i :: 0 <= i < |LoadCells(vertices, mpp, Some(b))| ==>
      exists k :: 0 <= k < |vertices| && InBox(Scaled(vertices[k], mpp), b)
        && LoadCells(vertices, mpp, Some(b))[i] == Moved(Scaled(vertices[k], mpp), b)
  {
    var scaled := Scale(vertices, mpp);
    var out := Crop(scaled, b);
    assert out == LoadCells(vertices, mpp, Some(b));
    CropKeepsInside(scaled, b);
    CropComesFromInside(scaled, b);
    forall k | 0 <= k < |vertices| && InBox(Scaled(vertices[k], mpp), b)
      ensures Moved(Scaled(vertices[k], mpp), b) in out
    {
      assert scaled[k] in scaled;
    }
    forall i | 0 <= i < |out|
      ensures exists k :: 0 <= k < |vertices| && InBox(Scaled(vertices[k], mpp), b) && out[i] == Moved(Scaled(vertices[k], mpp), b)
    {
      var k :| 0 <= k < |scaled| && InBox(scaled[k], b) && out[i] == Moved(scaled[k], b);
      assert scaled[k] == Scaled(vertices[k], mpp);
    }
  }
}
