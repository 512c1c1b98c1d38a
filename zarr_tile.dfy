// Loading one image tile in the viewer (cosilico-viewer/src/lib/openlayers/ZarrTile.js):
// the 16-to-8-bit conversion, the slice of the level's tile array that is
// read, the grey-to-RGBA expansion and the tile state that results.
// Typed-array element types are newtypes; the conversion is computed in
// exact arithmetic.
module ZarrTile {
  import opened Wrappers
  import Pyramid
  import Conversion
  import Arith

  newtype u8 = x: int | 0 <= x < 256
  newtype u16 = x: int | 0 <= x < 0x1_0000

  /** The typed array a zarr read hands back. */
  datatype TypedArray = Uint8Array(u8s: seq<u8>) | Uint16Array(u16s: seq<u16>) | OtherArray

  datatype TileError = TypeError | UnsupportedDType | OutOfBounds

  function Widen(s: seq<u16>): (r: seq<int>)
    ensures |r| == |s| && forall i :: 0 <= i < |s| ==> r[i] == s[i] as int
  {
    seq(|s|, i requires 0 <= i < |s| => s[i] as int)
  }

  /** The first loop of uint16ToUint8: the extremes, starting from 0xffff
      and 0 (which an empty input leaves in place). */
  method MinMax(s: seq<u16>) returns (lo: int, hi: int)
    ensures |s| == 0 ==> lo == 0xffff && hi == 0
    ensures |s| > 0 ==> lo == Conversion.MinOf(Widen(s)) && hi == Conversion.MaxOf(Widen(s))
  {
    ghost var w := Widen(s);
    lo, hi := 0xffff, 0;
    ghost var kl, kh := 0, 0;
    var i := 0;
    while i < |s|
      invariant 0 <= i <= |s|
      invariant i == 0 ==> lo == 0xffff && hi == 0
      invariant i > 0 ==> kl < i && kh < i && w[kl] == lo && w[kh] == hi
      invariant forall k :: 0 <= k < i ==> lo <= w[k] <= hi
    {
      var v := s[i] as int;
      assert v == w[i];
      kl, kh := (if v < lo || i == 0 then i else kl), (if v > hi || i == 0 then i else kh);
      lo, hi := (if v < lo then v else lo), (if v > hi then v else hi);
      i := i + 1;
    }
    if |s| > 0 {
      Conversion.MinOfIsLeast(w, lo);
      Conversion.MaxOfIsGreatest(w, hi);
    }
  }

  /** uint16ToUint8: the extremes, then `(v - min) * (255 / (max - min))`
      truncated into a fresh Uint8Array; a constant input stays all zeros;
      an input that is not a Uint16Array is a TypeError. */
  method Uint16ToUint8(src: TypedArray) returns (r: Result<seq<u8>, TileError>)
    ensures r.Err? <==> !src.Uint16Array?
    ensures r.Err? ==> r.error == TypeError
    ensures r.Ok? ==> |r.value| == |src.u16s|
    ensures r.Ok? && |src.u16s| > 0 ==> forall i :: 0 <= i < |src.u16s| ==>
      r.value[i] as int == Conversion.Rescale(src.u16s[i] as int, Conversion.MinOf(Widen(src.u16s)), Conversion.MaxOf(Widen(src.u16s)))
  {
    if !src.Uint16Array? {
      return Err(TypeError);
    }
    var s := src.u16s;
    var lo, hi := MinMax(s);
    ghost var w := Widen(s);
    assert |s| > 0 ==> forall k :: 0 <= k < |s| ==> lo <= w[k] <= hi;
    if hi == lo {
      var dst := new u8[|s|](_ => 0);
      assert forall k :: 0 <= k < |s| ==> dst[k] == 0;
      return Ok(dst[..]);
    }
    var out := RescaleAll(s, lo, hi);
    return Ok(out);
  }

  /** The second loop of uint16ToUint8: each value rescaled into a fresh
      Uint8Array. */
  method RescaleAll(s: seq<u16>, lo: int, hi: int) returns (out: seq<u8>)
    requires lo != hi && forall k :: 0 <= k < |s| ==> lo <= s[k] as int <= hi
    ensures |out| == |s|
    ensures forall k :: 0 <= k < |s| ==> out[k] as int == Conversion.Rescale(s[k] as int, lo, hi)
  {
    var dst := new u8[|s|](_ => 0);
    var i := 0;
    while i < |s|
      invariant 0 <= i <= |s|
      invariant forall k :: 0 <= k < i ==> dst[k] as int == Conversion.Rescale(s[k] as int, lo, hi)
    {
      var scaled := Conversion.Rescale(s[i] as int, lo, hi);
      Conversion.RescaleBounds(s[i] as int, lo, hi);
      dst[i] := scaled as u8;
      i := i + 1;
    }
    out := dst[..];
  }

  /** The viewer's conversion agrees with the Python one (in exact arithmetic). */
  lemma ViewerMatchesPythonConversion(s: seq<u16>)
    requires |s| > 0
    ensures var w := Widen(s);
      Conversion.ToUInt8(w).Ok?
      && forall i :: 0 <= i < |s| ==>
        Conversion.ToUInt8(w).value[i] == Conversion.Rescale(w[i], Conversion.MinOf(w), Conversion.MaxOf(w))
  {
  }

  // ---------------------------------------------------------------------
  // The tile slice and the RGBA image

  /** A zarr array of a zoom level: its tile array and element type. */
  datatype ZoomArray = ZoomArray(tiles: Pyramid.Array7, dtype: Pyramid.DType)

  /** A stored value as a Uint8ClampedArray / Uint16Array element. */
  function ClampU8(v: int): u8 { if v < 0 then 0 else if v > 255 then 255 else v as u8 }
  function WrapU16(v: int): u16 { (v % 0x1_0000) as u16 }

  /** `get(arr, [x, y, t, c, z, null, null])`: the tile at grid cell (x, y)
      for the given indices on axes 2-4, flattened row by row (rows follow
      axis 5). The first five indices must lie inside the array. */
  function TileSlice(arr: ZoomArray, x: nat, y: nat, a2: nat, a3: nat, a4: nat): (r: Result<TypedArray, TileError>)
    ensures r.Ok? <==> x < arr.tiles.d0 && y < arr.tiles.d1 && a2 < arr.tiles.d2 && a3 < arr.tiles.d3 && a4 < arr.tiles.d4
  {
    var t := arr.tiles;
    if !(x < t.d0 && y < t.d1 && a2 < t.d2 && a3 < t.d3 && a4 < t.d4) then Err(OutOfBounds)
    else
      var n := t.d5 * t.d6;
      var v := (k: nat) requires k < n => t.at(x, y, a2, a3, a4, k / t.d6, k % t.d6);
      match arr.dtype
      case UInt8 => Ok(Uint8Array(seq(n, k requires 0 <= k < n => ClampU8(v(k)))))
      case UInt16 => Ok(Uint16Array(seq(n, k requires 0 <= k < n => WrapU16(v(k)))))
      case OtherDType(_) => Ok(OtherArray)
  }

  /** The viewer reads slice [x, y, tIndex, cIndex, zIndex] of the writer's
      (nx, ny, Z, C, T, ts, ts) array: element q*ts + p of the tile is pixel
      (x*ts + p, y*ts + q) of the level at z = tIndex, t = zIndex. The
      orientation is right; the z and t indices trade places, which only
      matters when the level has more than one z or t plane. */
  lemma {:induction false} ViewerTileHoldsLevelPixels(level: Pyramid.Volume, ts: nat, x: nat, y: nat,
      tIndex: nat, cIndex: nat, zIndex: nat, p: nat, q: nat)
    requires ts > 0 && level.sx % ts == 0 && level.sy % ts == 0
    requires p < ts && q < ts
    ensures var tiles := Pyramid.TileArray(level, ts);
      tiles.d5 * tiles.d6 == ts * ts
      && q * ts + p < ts * ts
      && tiles.at(x, y, tIndex, cIndex, zIndex, (q * ts + p) / tiles.d6, (q * ts + p) % tiles.d6)
         == level.at(x * ts + p, y * ts + q, tIndex, cIndex, zIndex)
  {
    Arith.CellIndex(q, p, ts);
    Arith.MulMonotone(q, ts - 1, ts);
  }

  /** Grey values expanded to opaque RGBA: four bytes per pixel. */
  method ExpandToRgba(grey: seq<u8>) returns (rgba: seq<u8>)
    ensures |rgba| == 4 * |grey|
    ensures forall i :: 0 <= i < |grey| ==>
      rgba[4 * i] == grey[i] && rgba[4 * i + 1] == grey[i] && rgba[4 * i + 2] == grey[i] && rgba[4 * i + 3] == 255
  {
    var buf := new u8[4 * |grey|](_ => 0);
    for i := 0 to |grey|
      invariant forall k :: 0 <= k < i ==>
        buf[4 * k] == grey[k] && buf[4 * k + 1] == grey[k] && buf[4 * k + 2] == grey[k] && buf[4 * k + 3] == 255
    {
      buf[4 * i] := grey[i];
      buf[4 * i + 1] := grey[i];
      buf[4 * i + 2] := grey[i];
      buf[4 * i + 3] := 255;
    }
    rgba := buf[..];
  }

  /** OpenLayers tile states used by the loader. */
  const Loaded: int := 2
  const Failed: int := 3

  class Tile {
    var state: int
    var rgba: seq<u8>

    constructor (state: int)
      ensures this.state == state && rgba == []
    {
      this.state := state;
      rgba := [];
    }

    /** loadTile: read the slice, convert it to 8 bits (a Uint8Array is
        copied, a Uint16Array rescaled, anything else throws), expand it to
        RGBA and mark the tile loaded; any failure marks it failed. */
    method LoadTile(arr: ZoomArray, x: nat, y: nat, tIndex: nat, cIndex: nat, zIndex: nat)
      modifies this
      ensures state == Loaded || state == Failed
      ensures var slice := TileSlice(arr, x, y, tIndex, cIndex, zIndex);
        state == Loaded <==> slice.Ok? && (slice.value.Uint8Array? || slice.value.Uint16Array?)
      ensures state == Loaded && TileSlice(arr, x, y, tIndex, cIndex, zIndex).value.Uint8Array? ==>
        var grey := TileSlice(arr, x, y, tIndex, cIndex, zIndex).value.u8s;
        |rgba| == 4 * |grey| && forall i :: 0 <= i < |grey| ==>
          rgba[4 * i] == grey[i] && rgba[4 * i + 1] == grey[i] && rgba[4 * i + 2] == grey[i] && rgba[4 * i + 3] == 255
      ensures state == Loaded && TileSlice(arr, x, y, tIndex, cIndex, zIndex).value.Uint16Array? ==>
        var raw := TileSlice(arr, x, y, tIndex, cIndex, zIndex).value.u16s;
        |rgba| == 4 * |raw| && forall i :: 0 <= i < |raw| ==>
          var g := Conversion.Rescale(raw[i] as int, Conversion.MinOf(Widen(raw)), Conversion.MaxOf(Widen(raw)));
          rgba[4 * i] as int == g && rgba[4 * i + 1] as int == g && rgba[4 * i + 2] as int == g
          && rgba[4 * i + 3] == 255
      ensures state == Failed ==> rgba == old(rgba)
    {
      var slice := TileSlice(arr, x, y, tIndex, cIndex, zIndex);
      if slice.Err? {
        state := Failed;
        return;
      }
      var grey: seq<u8>;
      match slice.value {
        case Uint8Array(s) =>
          grey := s;
        case Uint16Array(_) =>
          var converted := Uint16ToUint8(slice.value);
          grey := converted.value;
        case OtherArray =>
          state := Failed;
          return;
      }
      var expanded := ExpandToRgba(grey);
      rgba := expanded;
      state := Loaded;
    }
  }
}
