// The image pyramid written by the preprocessing engine
// (cosilico-py/src/cosilico_py/preprocessing/core/image.py): the resolution
// plan, the padding of an image to whole tiles, the size of each zoom level
// and the reshape/transpose that stores a level as a 7-D array of tiles.
// Pixel values are integers; an image is a function over (x, y, z, c, t)
// together with its extent on each axis.
module Pyramid {
  import opened Wrappers
  import Arith
  import Ome

  type Pixels = (nat, nat, nat, nat, nat) -> int

  /** An image in X, Y, Z, C, T axis order. */
  datatype Volume = Volume(sx: nat, sy: nat, sz: nat, sc: nat, st: nat, at: Pixels)

  /** A 7-D array: its seven extents and its element function. */
  datatype Array7 = Array7(
    d0: nat, d1: nat, d2: nat, d3: nat, d4: nat, d5: nat, d6: nat,
    at: (nat, nat, nat, nat, nat, nat, nat) -> int)
  {
    function Shape(): seq<nat> { [d0, d1, d2, d3, d4, d5, d6] }
  }

  // ---------------------------------------------------------------------
  // Resolution plan (get_resolutions)

  function Pow(b: nat, k: nat): nat
  {
    if k == 0 then 1 else b * Pow(b, k - 1)
  }

  /** The sizes start at the tile size, grow by `scaler` each step, and stop at
      the first size that reaches the largest image dimension. */
  ghost predicate IsResolutionPlan(r: seq<nat>, tileSize: nat, maxDim: nat, scaler: nat)
  {
    && |r| > 0
    && r[0] == tileSize
    && (forall i :: 0 <= i < |r| - 1 ==> r[i + 1] == r[i] * scaler)
    && (forall i :: 0 <= i < |r| - 1 ==> r[i] < maxDim)
    && r[|r| - 1] >= maxDim
  }

  /** get_resolutions. The loop ends only when it can grow past maxDim: a
      positive tile size and a scaler above 1, or no growth needed at all
      (see ResolutionLoopNeverEnds for the other case). */
  method GetResolutions(tileSize: nat, maxDim: nat, scaler: nat) returns (sizes: seq<nat>)
    requires tileSize >= maxDim || (tileSize > 0 && scaler > 1)
    ensures IsResolutionPlan(sizes, tileSize, maxDim, scaler)
    ensures tileSize >= maxDim <==> sizes == [tileSize]
  {
    var minRes := tileSize;
    sizes := [];
    while minRes < maxDim
      invariant tileSize <= minRes
      invariant |sizes| == 0 ==> minRes == tileSize
      invariant |sizes| > 0 ==> sizes[0] == tileSize && minRes == sizes[|sizes| - 1] * scaler
      invariant forall i :: 0 <= i < |sizes| - 1 ==> sizes[i + 1] == sizes[i] * scaler
      invariant forall i :: 0 <= i < |sizes| ==> sizes[i] < maxDim
      decreases maxDim - minRes
    {
      Arith.MulGrows(minRes, scaler);
      sizes := sizes + [minRes];
      minRes := minRes * scaler;
    }
    if |sizes| > 0 {
      sizes := sizes + [sizes[|sizes| - 1] * scaler];
    } else {
      sizes := [minRes];
    }
  }

  /** A resolution plan is determined by its three parameters. */
  lemma {:induction false} ResolutionPlanUnique(r1: seq<nat>, r2: seq<nat>, tileSize: nat, maxDim: nat, scaler: nat)
    requires IsResolutionPlan(r1, tileSize, maxDim, scaler)
    requires IsResolutionPlan(r2, tileSize, maxDim, scaler)
    ensures r1 == r2
  {
    var n := if |r1| < |r2| then |r1| else |r2|;
    var i := 0;
    while i < n
      invariant 0 <= i <= n
      invariant forall k :: 0 <= k < i ==> r1[k] == r2[k]
    {
      if i > 0 {
        assert r1[i] == r1[i - 1] * scaler && r2[i] == r2[i - 1] * scaler;
      }
      i := i + 1;
    }
    if |r1| != |r2| {
      assert false;
    }
  }

  /** With scaler <= 1 (or a zero tile size) and tileSize < maxDim, the value
      the loop tests after k rounds is still below maxDim: the loop never ends. */
  lemma {:induction false} ResolutionLoopNeverEnds(tileSize: nat, maxDim: nat, scaler: nat, k: nat)
    requires tileSize < maxDim
    requires scaler <= 1 || tileSize == 0
    ensures tileSize * Pow(scaler, k) < maxDim
  {
    if k > 0 {
      ResolutionLoopNeverEnds(tileSize, maxDim, scaler, k - 1);
      var p := Pow(scaler, k - 1);
      if scaler == 0 {
        assert Pow(scaler, k) == 0;
      } else if scaler == 1 {
        assert Pow(scaler, k) == p;
      } else {
        assert tileSize * Pow(scaler, k) == 0;
      }
    }
  }

  // ---------------------------------------------------------------------
  // Padding to whole tiles (pad_to_target_block_shape)

  /** `(w + t - 1) // t * t`: the least multiple of t that is at least w. */
  function PaddedSize(w: nat, t: nat): (r: nat)
    requires t > 0
    ensures r % t == 0 && w <= r < w + t
  {
    var q := (w + t - 1) / t;
    Arith.Euclid(w + t - 1, t);
    Arith.MulDivMod(q, t);
    q * t
  }

  /** Zero padding at the high end of the two spatial axes only. */
  function Pad(v: Volume, tw: nat, th: nat): (r: Volume)
    requires tw > 0 && th > 0
    ensures r.sx % tw == 0 && v.sx <= r.sx < v.sx + tw
    ensures r.sy % th == 0 && v.sy <= r.sy < v.sy + th
    ensures r.sz == v.sz && r.sc == v.sc && r.st == v.st
    ensures forall x: nat, y: nat, z: nat, c: nat, t: nat :: x < v.sx && y < v.sy ==> r.at(x, y, z, c, t) == v.at(x, y, z, c, t)
    ensures forall x: nat, y: nat, z: nat, c: nat, t: nat :: (x >= v.sx || y >= v.sy) ==> r.at(x, y, z, c, t) == 0
  {
    Volume(PaddedSize(v.sx, tw), PaddedSize(v.sy, th), v.sz, v.sc, v.st,
      (x: nat, y: nat, z: nat, c: nat, t: nat) => if x < v.sx && y < v.sy then v.at(x, y, z, c, t) else 0)
  }

  /** Padding a size that is already a multiple leaves it unchanged. */
  lemma PaddedSizeOfMultiple(w: nat, t: nat)
    requires t > 0 && w % t == 0
    ensures PaddedSize(w, t) == w
  {
    var r := PaddedSize(w, t);
    Arith.MultipleIs(w, t);
    Arith.DivModUnique(r, t, w / t, r - w);
  }

  // ---------------------------------------------------------------------
  // One zoom level (write_zoom_level)

  datatype DType = UInt8 | UInt16 | OtherDType(name: string)

  /** Chunk extents of the image along X, Y, Z, C, T. */
  datatype Chunks = Chunks(cx: nat, cy: nat, cz: nat, cc: nat, ct: nat)

  datatype WriteError =
    | ChunksNotSingleton      // assertion on the non-spatial chunk sizes
    | ZeroTileSize            // `shape % 0` raises ZeroDivisionError
    | WidthNotTileMultiple
    | HeightNotTileMultiple
    | UnsupportedDType
    | TileGridMismatch        // the level cannot be reshaped into whole tiles
    | DeclaredShapeMismatch   // the (Z, C, T) array does not fit the (T, C, Z) dataset

  /** The assertions at the top of write_zoom_level, first failure first. */
  function CheckLevelInput(image: Volume, chunks: Chunks, dtype: DType, tileSize: nat): Option<WriteError>
  {
    if chunks.cz + chunks.cc + chunks.ct != 3 then Some(ChunksNotSingleton)
    else if tileSize == 0 then Some(ZeroTileSize)
    else if image.sx % tileSize != 0 then Some(WidthNotTileMultiple)
    else if image.sy % tileSize != 0 then Some(HeightNotTileMultiple)
    else if !(dtype.UInt8? || dtype.UInt16?) then Some(UnsupportedDType)
    else None
  }

  /** For chunks of positive extent (as dask makes them for non-empty axes),
      the sum test means every non-spatial chunk has extent 1. */
  lemma ChunkTestMeansSingletons(chunks: Chunks)
    requires chunks.cz > 0 && chunks.cc > 0 && chunks.ct > 0
    ensures chunks.cz + chunks.cc + chunks.ct == 3 <==> chunks.cz == 1 && chunks.cc == 1 && chunks.ct == 1
  {
  }

  /** Width of the scaled level as the blocks declare it: each of the n / ts
      blocks of extent ts becomes `int(ts / res * ts)` wide. The blocks are
      tile-sized because write_image_zarr rechunks the image to
      (ts, ts, 1, 1, 1) before any level is written. */
  function ScaledLength(n: nat, ts: nat, res: nat): nat
    requires ts > 0 && res > 0
  {
    (n / ts) * ((ts * ts) / res)
  }

  /** `int(scale_factor * shape)`, the test for re-padding. */
  function TruncScaled(n: nat, ts: nat, res: nat): nat
    requires res > 0
  {
    (ts * n) / res
  }

  predicate NeedsRepad(image: Volume, ts: nat, res: nat)
    requires ts > 0 && res > 0
  {
    TruncScaled(image.sx, ts, res) % ts != 0 || TruncScaled(image.sy, ts, res) % ts != 0
  }

  /** The level stored for resolution `res`: the image itself when
      `res <= ts`, otherwise the resampled image (its pixel values `zoomed`
      come from a nearest-neighbour resampler), re-padded when needed. */
  function Level(image: Volume, ts: nat, res: nat, zoomed: Pixels): (l: Volume)
    requires ts > 0
    ensures l.sz == image.sz && l.sc == image.sc && l.st == image.st
  {
    if ts < res then
      var scaled := Volume(ScaledLength(image.sx, ts, res), ScaledLength(image.sy, ts, res),
                           image.sz, image.sc, image.st, zoomed);
      if NeedsRepad(image, ts, res) then Pad(scaled, ts, ts) else scaled
    else image
  }

  lemma LevelUnscaled(image: Volume, ts: nat, res: nat, zoomed: Pixels)
    requires 0 < ts && res <= ts
    ensures Level(image, ts, res, zoomed) == image
  {
  }

  lemma ScaledExactly(n: nat, ts: nat, res: nat)
    requires ts > 0 && res > 0 && n % ts == 0 && (ts * ts) % res == 0
    ensures ScaledLength(n, ts, res) == TruncScaled(n, ts, res) == n * ts / res
  {
    var k, m := n / ts, (ts * ts) / res;
    Arith.MultipleIs(n, ts);
    Arith.MultipleIs(ts * ts, res);
    assert ts * n == k * (ts * ts);
    assert ts * n == (k * m) * res;
    Arith.MulDivMod(k * m, res);
  }

  /** When res divides ts*ts (every level up to res = ts*ts in a plan with
      an integer scaler), a level of an image made of whole tiles is the
      image scaled by ts/res and padded up to whole tiles. */
  lemma {:induction false} LevelExtent(image: Volume, ts: nat, res: nat, zoomed: Pixels)
    requires 0 < ts < res && (ts * ts) % res == 0
    requires image.sx % ts == 0 && image.sy % ts == 0
    ensures var level := Level(image, ts, res, zoomed);
      && level.sx == PaddedSize(image.sx * ts / res, ts)
      && level.sy == PaddedSize(image.sy * ts / res, ts)
      && level.sx % ts == 0 && level.sy % ts == 0
      && level.sz == image.sz && level.sc == image.sc && level.st == image.st
  {
    ScaledExactly(image.sx, ts, res);
    ScaledExactly(image.sy, ts, res);
    var wx, wy := image.sx * ts / res, image.sy * ts / res;
    if !NeedsRepad(image, ts, res) {
      PaddedSizeOfMultiple(wx, ts);
      PaddedSizeOfMultiple(wy, ts);
    }
  }

  // ---------------------------------------------------------------------
  // Tile layout

  /** `level.reshape((nx, ts, ny, ts, Z, C, T))` in row-major order. */
  function ReshapeToTiles(level: Volume, ts: nat): (a: Array7)
    requires ts > 0 && level.sx % ts == 0 && level.sy % ts == 0
  {
    Array7(level.sx / ts, ts, level.sy / ts, ts, level.sz, level.sc, level.st,
      (i: nat, p: nat, j: nat, q: nat, z: nat, c: nat, t: nat) => level.at(i * ts + p, j * ts + q, z, c, t))
  }

  /** `a.transpose(0, 2, 4, 5, 6, 3, 1)`: output axis k is input axis perm[k]. */
  function TransposeTiles(a: Array7): (r: Array7)
  {
    Array7(a.d0, a.d2, a.d4, a.d5, a.d6, a.d3, a.d1,
      (i: nat, j: nat, z: nat, c: nat, t: nat, q: nat, p: nat) => a.at(i, p, j, q, z, c, t))
  }

  /** The tile array written for a level made of whole tiles. */
  function TileArray(level: Volume, ts: nat): Array7
    requires ts > 0 && level.sx % ts == 0 && level.sy % ts == 0
  {
    TransposeTiles(ReshapeToTiles(level, ts))
  }

  /** The shape the `tiles` dataset is created with: (nx, ny, T, C, Z, ts, ts). */
  function DeclaredShape(level: Volume, ts: nat): seq<nat>
    requires ts > 0
  {
    [level.sx / ts, level.sy / ts, level.st, level.sc, level.sz, ts, ts]
  }

  /** One chunk per tile and per (T, C, Z) index. */
  function DatasetChunks(ts: nat): seq<nat>
  {
    [1, 1, 1, 1, 1, ts, ts]
  }

  /** Pixel (x, y, z, c, t) of the level is stored in tile (x / ts, y / ts)
      at row y % ts, column x % ts. */
  lemma {:induction false} TilePlacement(level: Volume, ts: nat, x: nat, y: nat, z: nat, c: nat, t: nat)
    requires ts > 0 && level.sx % ts == 0 && level.sy % ts == 0
    requires x < level.sx && y < level.sy
    ensures var tiles := TileArray(level, ts);
      && x / ts < tiles.d0 && y / ts < tiles.d1
      && tiles.at(x / ts, y / ts, z, c, t, y % ts, x % ts) == level.at(x, y, z, c, t)
  {
    Arith.Euclid(x, ts);
    Arith.Euclid(y, ts);
    Arith.DivBelow(x, level.sx, ts);
    Arith.DivBelow(y, level.sy, ts);
  }

  /** The array handed to the dataset orders the middle axes (Z, C, T) while
      the dataset was declared (T, C, Z): the two shapes agree iff Z == T. */
  lemma DeclaredShapeMatchesIff(level: Volume, ts: nat)
    requires ts > 0 && level.sx % ts == 0 && level.sy % ts == 0
    ensures TileArray(level, ts).Shape() == DeclaredShape(level, ts) <==> level.sz == level.st
  {
    if TileArray(level, ts).Shape() == DeclaredShape(level, ts) {
      assert TileArray(level, ts).Shape()[2] == DeclaredShape(level, ts)[2];
    }
  }

  /** write_zoom_level: the tile array stored for resolution `res`. Storing
      it into the dataset declared with DeclaredShape fails unless the two
      shapes agree, that is unless Z == T. Only the non-spatial chunk
      extents are read: the x and y chunks are taken to be the tile size,
      as write_image_zarr makes them (see WriteImageLevels). */
  function WriteZoomLevel(image: Volume, chunks: Chunks, dtype: DType, ts: nat, res: nat, zoomed: Pixels): (r: Result<Array7, WriteError>)
    ensures CheckLevelInput(image, chunks, dtype, ts).Some? ==> r == Err(CheckLevelInput(image, chunks, dtype, ts).value)
    ensures r.Ok? <==>
      (CheckLevelInput(image, chunks, dtype, ts).None?
       && var level := Level(image, ts, res, zoomed);
          level.sx % ts == 0 && level.sy % ts == 0 && image.sz == image.st)
    ensures r.Ok? ==> var level := Level(image, ts, res, zoomed);
      && level.sx % ts == 0 && level.sy % ts == 0
      && r.value == TileArray(level, ts)
      && r.value.Shape() == DeclaredShape(level, ts)
    ensures r == Err(DeclaredShapeMismatch) ==> var level := Level(image, ts, res, zoomed);
      && level.sx % ts == 0 && level.sy % ts == 0
      && TileArray(level, ts).Shape() != DeclaredShape(level, ts)
  {
    match CheckLevelInput(image, chunks, dtype, ts)
    case Some(e) => Err(e)
    case None =>
      var level := Level(image, ts, res, zoomed);
      if level.sx % ts != 0 || level.sy % ts != 0 then Err(TileGridMismatch)
      else
        DeclaredShapeMatchesIff(level, ts);
        if level.sz != level.st then Err(DeclaredShapeMismatch)
        else Ok(TileArray(level, ts))
  }

  /** An accepted level never fails on the tile grid when res divides ts*ts
      (or the level is unscaled): it is stored exactly when Z == T, and its
      tile grid covers the whole level. */
  lemma WriteZoomLevelSucceeds(image: Volume, chunks: Chunks, dtype: DType, ts: nat, res: nat, zoomed: Pixels)
    requires CheckLevelInput(image, chunks, dtype, ts).None?
    requires res <= ts || (ts * ts) % res == 0
    ensures var r := WriteZoomLevel(image, chunks, dtype, ts, res, zoomed);
      && (r.Ok? <==> image.sz == image.st)
      && (r.Err? ==> r.error == DeclaredShapeMismatch)
      && var level := Level(image, ts, res, zoomed);
         level.sx % ts == 0 && level.sy % ts == 0
         && TileArray(level, ts).d0 * ts == level.sx && TileArray(level, ts).d1 * ts == level.sy
  {
    var level := Level(image, ts, res, zoomed);
    if ts < res {
      LevelExtent(image, ts, res, zoomed);
    }
    assert level.sx % ts == 0 && level.sy % ts == 0;
    Arith.MultipleIs(level.sx, ts);
    Arith.MultipleIs(level.sy, ts);
  }

  // ---------------------------------------------------------------------
  // write_image_zarr: crop, plan and attributes

  datatype BBoxError = BadBBox

  /** The bounding-box assertion of write_image_zarr: four values
      [top, bottom, left, right] with top < bottom and left < right. */
  predicate IsBBox(bbox: seq<int>)
  {
    |bbox| == 4 && bbox[0] < bbox[1] && bbox[2] < bbox[3]
  }

  /** Python's clamped, negative-from-the-end slice bound on an axis of n. */
  function SliceBound(n: nat, b: int): (r: nat)
    ensures r <= n
  {
    if b < 0 then (if n + b < 0 then 0 else n + b) else if b > n then n else b
  }

  /** Extent of `axis[lo:hi]`. */
  function SliceLength(n: nat, lo: int, hi: int): (r: nat)
    ensures r <= n
  {
    var a, b := SliceBound(n, lo), SliceBound(n, hi);
    if b > a then b - a else 0
  }

  /** `image[c1:c2, r1:r2]` after the bbox assertion ([top, bottom, left,
      right] = [r1, r2, c1, c2]). */
  function CropImage(image: Volume, bbox: seq<int>): (r: Result<Volume, BBoxError>)
    ensures r.Ok? <==> IsBBox(bbox)
    ensures r.Ok? ==>
      r.value.sx == SliceLength(image.sx, bbox[2], bbox[3]) && r.value.sy == SliceLength(image.sy, bbox[0], bbox[1])
    ensures r.Ok? ==> r.value.sz == image.sz && r.value.sc == image.sc && r.value.st == image.st
    ensures r.Ok? ==> forall x: nat, y: nat, z: nat, c: nat, t: nat :: x < r.value.sx && y < r.value.sy ==>
      && SliceBound(image.sx, bbox[2]) + x < image.sx && SliceBound(image.sy, bbox[0]) + y < image.sy
      && r.value.at(x, y, z, c, t) == image.at(SliceBound(image.sx, bbox[2]) + x, SliceBound(image.sy, bbox[0]) + y, z, c, t)
  {
    if !IsBBox(bbox) then Err(BadBBox)
    else
      var r1, r2, c1, c2 := bbox[0], bbox[1], bbox[2], bbox[3];
      var x0, y0 := SliceBound(image.sx, c1), SliceBound(image.sy, r1);
      Ok(Volume(SliceLength(image.sx, c1, c2), SliceLength(image.sy, r1, r2), image.sz, image.sc, image.st,
        (x: nat, y: nat, z: nat, c: nat, t: nat) => image.at(x0 + x, y0 + y, z, c, t)))
  }

  /** The OME size written after a crop (c2 - c1, r2 - r1) matches the
      cropped pixels exactly when the box lies inside the image. */
  lemma CropSizeMatchesIff(n: nat, lo: int, hi: int)
    requires 0 <= lo < hi
    ensures SliceLength(n, lo, hi) == hi - lo <==> hi <= n
  {
  }

  /** The attributes stored on the zarr root; `ome` is the OME model that
      write_image_zarr stores (as the JSON of its `to_dict` form). */
  datatype RootAttrs = RootAttrs(
    ome: Ome.OmeModel, version: string, name: string, resolutions: seq<nat>, tileSize: nat, upp: real, unit: string)

  /** The OME model after a crop to `bbox` = [r1, r2, c1, c2]: the first
      image's pixel counts become the box's width c2 - c1 and height r2 - r1,
      whatever the image's own extent, and nothing else changes. */
  function CroppedOme(ome: Ome.OmeModel, bbox: seq<int>): (m: Ome.OmeModel)
    requires |bbox| == 4 && Ome.Validate(ome).None?
    ensures |m.images| == |ome.images| && m.images[1..] == ome.images[1..]
    ensures m.images[0].pixels.Some?
    ensures var p, q := ome.images[0].pixels.value, m.images[0].pixels.value;
      && q.sizeX == Some(bbox[3] - bbox[2]) && q.sizeY == Some(bbox[1] - bbox[0])
      && q.physicalSizeX == p.physicalSizeX && q.physicalSizeXUnit == p.physicalSizeXUnit && q.channels == p.channels
  {
    var p := ome.images[0].pixels.value;
    ome.(images := ome.images[0 := Ome.OmeImage(Some(p.(sizeX := Some(bbox[3] - bbox[2]), sizeY := Some(bbox[1] - bbox[0]))))])
  }

  /** The root attributes of an image written with the given OME model and
      optional bounding box: validate_ome rejects the model first, then the
      bbox assertion rejects the box; otherwise the stored model is the
      cropped one when there is a box, and the pixel size and its unit are
      those of the first image's pixels. */
  function Attributes(ome: Ome.OmeModel, bbox: Option<seq<int>>, resolutions: seq<nat>, tileSize: nat): (r: Result<RootAttrs, ImageWriteError>)
    ensures r.Err? <==> Ome.Validate(ome).Some? || (bbox.Some? && !IsBBox(bbox.value))
    ensures Ome.Validate(ome).Some? ==> r == Err(InvalidOme(Ome.Validate(ome).value))
    ensures Ome.Validate(ome).None? && bbox.Some? && !IsBBox(bbox.value) ==> r == Err(InvalidBBox)
    ensures r.Ok? ==> var p := ome.images[0].pixels.value;
      && p.physicalSizeX.Some? && p.physicalSizeXUnit.Some?
      && r.value.upp == p.physicalSizeX.value && r.value.unit == p.physicalSizeXUnit.value
    ensures r.Ok? ==> r.value.version == "v1" && r.value.name == "Xenium Multiplex"
    ensures r.Ok? ==> r.value.resolutions == resolutions && r.value.tileSize == tileSize
    ensures r.Ok? ==> |r.value.ome.images| == |ome.images| > 0 && r.value.ome.images[0].pixels.Some?
    ensures r.Ok? && bbox.None? ==> r.value.ome == ome
    ensures r.Ok? && bbox.Some? ==> var q := r.value.ome.images[0].pixels.value;
      q.sizeX == Some(bbox.value[3] - bbox.value[2]) && q.sizeY == Some(bbox.value[1] - bbox.value[0])
    ensures r.Ok? && bbox.Some? ==> r.value.ome == CroppedOme(ome, bbox.value)
  {
    match Ome.Validate(ome)
    case Some(e) => Err(InvalidOme(e))
    case None =>
      if bbox.Some? && !IsBBox(bbox.value) then Err(InvalidBBox)
      else
        var p := ome.images[0].pixels.value;
        assert Ome.IsSet(p, Ome.PhysicalSizeX) && Ome.IsSet(p, Ome.PhysicalSizeXUnit);
        var stored := if bbox.Some? then CroppedOme(ome, bbox.value) else ome;
        Ok(RootAttrs(stored, "v1", "Xenium Multiplex", resolutions, tileSize, p.physicalSizeX.value, p.physicalSizeXUnit.value))
  }

  function Max(a: nat, b: nat): nat { if a < b then b else a }

  /** Why write_image_zarr stops: the OME model is rejected, the bounding
      box fails its assertion, or the level of the index-th planned
      resolution raises. */
  datatype ImageWriteError =
    | InvalidOme(reason: Ome.ValidationError)
    | InvalidBBox
    | LevelFailed(index: nat, error: WriteError)

  /** The part of write_image_zarr that decides what is written: the OME
      check, the crop to the bounding box, the resolution plan for the
      cropped image and its padding, then the levels of the padded image in
      plan order, stopping at the first that raises, and last the root
      attributes with the cropped OME model. `zoomed(res)` gives the
      resampled pixel values. */
  method WriteImageLevels(image: Volume, ome: Ome.OmeModel, bbox: Option<seq<int>>, dtype: DType, tileSize: nat,
                          resMagnitude: nat, zoomed: nat -> Pixels)
    returns (cropped: Volume, resolutions: seq<nat>, padded: Volume, levels: seq<Array7>, r: Result<RootAttrs, ImageWriteError>)
    requires tileSize > 0 && resMagnitude > 1
    ensures bbox.None? ==> cropped == image
    ensures bbox.Some? && IsBBox(bbox.value) ==> CropImage(image, bbox.value) == Ok(cropped)
    ensures cropped.sz == image.sz && cropped.st == image.st
    ensures IsResolutionPlan(resolutions, tileSize, Max(cropped.sx, cropped.sy), resMagnitude)
    ensures padded.sx % tileSize == 0 && cropped.sx <= padded.sx < cropped.sx + tileSize
    ensures padded.sy % tileSize == 0 && cropped.sy <= padded.sy < cropped.sy + tileSize
    ensures Ome.Validate(ome).Some? ==> r == Err(InvalidOme(Ome.Validate(ome).value)) && levels == []
    ensures Ome.Validate(ome).None? && bbox.Some? && !IsBBox(bbox.value) ==> r == Err(InvalidBBox) && levels == []
    ensures |levels| <= |resolutions|
    ensures forall i :: 0 <= i < |levels| ==>
      Ok(levels[i]) == WriteZoomLevel(padded, Chunks(tileSize, tileSize, 1, 1, 1), dtype, tileSize, resolutions[i], zoomed(resolutions[i]))
    ensures r.Ok? <==> Ome.Validate(ome).None? && (bbox.None? || IsBBox(bbox.value)) && |levels| == |resolutions|
    ensures r.Ok? ==> Attributes(ome, bbox, resolutions, tileSize) == Ok(r.value)
    ensures r.Ok? ==> IsResolutionPlan(r.value.resolutions, tileSize, Max(cropped.sx, cropped.sy), resMagnitude)
    ensures r.Ok? && bbox.None? ==> r.value.ome == ome
    ensures r.Ok? && bbox.Some? ==>
      && |r.value.ome.images| > 0 && r.value.ome.images[0].pixels.Some?
      && r.value.ome.images[0].pixels.value.sizeX == Some(bbox.value[3] - bbox.value[2])
      && r.value.ome.images[0].pixels.value.sizeY == Some(bbox.value[1] - bbox.value[0])
    ensures r.Ok? && bbox.Some? && 0 <= bbox.value[0] && 0 <= bbox.value[2] ==>
      && (r.value.ome.images[0].pixels.value.sizeX == Some(cropped.sx) <==> bbox.value[3] <= image.sx)
      && (r.value.ome.images[0].pixels.value.sizeY == Some(cropped.sy) <==> bbox.value[1] <= image.sy)
    ensures r.Err? && r.error.LevelFailed? ==>
      && r.error.index == |levels| < |resolutions|
      && WriteZoomLevel(padded, Chunks(tileSize, tileSize, 1, 1, 1), dtype, tileSize, resolutions[|levels|], zoomed(resolutions[|levels|]))
         == Err(r.error.error)
    ensures Ome.Validate(ome).None? && (bbox.None? || IsBBox(bbox.value)) ==>
      (r == Err(LevelFailed(0, UnsupportedDType)) <==> !(dtype.UInt8? || dtype.UInt16?))
    ensures r.Err? && r.error.LevelFailed? && r.error.error == DeclaredShapeMismatch ==> image.sz != image.st
  {
    if bbox.Some? && IsBBox(bbox.value) {
      cropped := CropImage(image, bbox.value).value;
    } else {
      cropped := image;
    }
    resolutions := GetResolutions(tileSize, Max(cropped.sx, cropped.sy), resMagnitude);
    padded := Pad(cropped, tileSize, tileSize);
    levels := [];
    var check := Ome.Validate(ome);
    if check.Some? {
      return cropped, resolutions, padded, levels, Err(InvalidOme(check.value));
    }
    if bbox.Some? && !IsBBox(bbox.value) {
      return cropped, resolutions, padded, levels, Err(InvalidBBox);
    }
    for i := 0 to |resolutions|
      invariant |levels| == i
      invariant forall k :: 0 <= k < i ==>
        Ok(levels[k]) == WriteZoomLevel(padded, Chunks(tileSize, tileSize, 1, 1, 1), dtype, tileSize, resolutions[k], zoomed(resolutions[k]))
      invariant i > 0 ==> dtype.UInt8? || dtype.UInt16?
    {
      var level := WriteZoomLevel(padded, Chunks(tileSize, tileSize, 1, 1, 1), dtype, tileSize, resolutions[i], zoomed(resolutions[i]));
      if level.Err? {
        return cropped, resolutions, padded, levels, Err(LevelFailed(i, level.error));
      }
      levels := levels + [level.value];
    }
    r := Ok(Attributes(ome, bbox, resolutions, tileSize).value);
    if bbox.Some? && 0 <= bbox.value[0] && 0 <= bbox.value[2] {
      CropSizeMatchesIff(image.sx, bbox.value[2], bbox.value[3]);
      CropSizeMatchesIff(image.sy, bbox.value[0], bbox.value[1]);
    }
  }
}
