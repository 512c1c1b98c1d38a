// 8-bit rescaling of an image (cosilico-py/src/cosilico_py/preprocessing/core/conversion.py):
// the smallest value maps to 0, the largest to 255, linearly in between,
// truncated. The image is flattened to a sequence (the shape is kept
// element for element). Arithmetic is exact: `(v - min) / (max - min) * 255`
// followed by the cast is the floor of the exact quotient.
module Conversion {
  import opened Wrappers
  import Arith

  function MinOf(s: seq<int>): (m: int)
    requires |s| > 0
    ensures m in s && forall i :: 0 <= i < |s| ==> m <= s[i]
  {
    if |s| == 1 then s[0]
    else
      var rest := MinOf(s[1..]);
      if s[0] <= rest then s[0] else rest
  }

  function MaxOf(s: seq<int>): (m: int)
    requires |s| > 0
    ensures m in s && forall i :: 0 <= i < |s| ==> s[i] <= m
  {
    if |s| == 1 then s[0]
    else
      var rest := MaxOf(s[1..]);
      if s[0] >= rest then s[0] else rest
  }

  /** The minimum is the element no other element is below. */
  lemma MinOfIsLeast(s: seq<int>, m: int)
    requires m in s && forall i :: 0 <= i < |s| ==> m <= s[i]
    ensures MinOf(s) == m
  {
    var k :| 0 <= k < |s| && s[k] == m;
    assert MinOf(s) <= s[k];
  }

  /** The maximum is the element no other element is above. */
  lemma MaxOfIsGreatest(s: seq<int>, m: int)
    requires m in s && forall i :: 0 <= i < |s| ==> s[i] <= m
    ensures MaxOf(s) == m
  {
    var k :| 0 <= k < |s| && s[k] == m;
    assert s[k] <= MaxOf(s);
  }

  /** The linear map from [lo, hi] onto [0, 255], truncated; a constant
      image (hi == lo) maps to 0. */
  function Rescale(v: int, lo: int, hi: int): int
  {
    if hi == lo then 0 else ((v - lo) * 255) / (hi - lo)
  }

  lemma RescaleBounds(v: int, lo: int, hi: int)
    requires lo <= v <= hi
    ensures 0 <= Rescale(v, lo, hi) <= 255
    ensures v == lo ==> Rescale(v, lo, hi) == 0
    ensures v == hi && lo < hi ==> Rescale(v, lo, hi) == 255
  {
    if lo < hi {
      var d := hi - lo;
      assert (v - lo) * 255 <= d * 255;
      Arith.DivUpTo((v - lo) * 255, d, 255);
      if v == hi {
        Arith.MulDivMod(255, d);
      }
    }
  }

  /** The map never reverses the order of two values. */
  lemma RescaleMonotone(v: int, w: int, lo: int, hi: int)
    requires lo <= v <= w <= hi
    ensures Rescale(v, lo, hi) <= Rescale(w, lo, hi)
  {
    if lo < hi {
      var d := hi - lo;
      assert (v - lo) * 255 <= (w - lo) * 255;
      Arith.DivMonotone((v - lo) * 255, (w - lo) * 255, d);
    }
  }

  datatype ConversionError = EmptyArray   // `min()` of an empty array raises

  /** da_to_uint8. The constant branch is written as the source has it,
      `(array > min) * 255`. */
  function ToUInt8(arr: seq<int>): (r: Result<seq<int>, ConversionError>)
    ensures r.Ok? <==> |arr| > 0
    ensures r.Ok? ==> |r.value| == |arr|
    ensures r.Ok? ==> forall i :: 0 <= i < |arr| ==> r.value[i] == Rescale(arr[i], MinOf(arr), MaxOf(arr))
  {
    if |arr| == 0 then Err(EmptyArray)
    else
      var lo, hi := MinOf(arr), MaxOf(arr);
      if hi == lo then Ok(seq(|arr|, i requires 0 <= i < |arr| => if arr[i] > lo then 255 else 0))
      else Ok(seq(|arr|, i requires 0 <= i < |arr| => ((arr[i] - lo) * 255) / (hi - lo)))
  }

  /** A constant array maps to zeros; otherwise its minimum maps to 0, its
      maximum to 255, every value into [0, 255], and order is kept. */
  lemma ToUInt8Properties(arr: seq<int>)
    requires |arr| > 0
    ensures var out := ToUInt8(arr).value;
      && (MinOf(arr) == MaxOf(arr) ==> forall i :: 0 <= i < |arr| ==> out[i] == 0)
      && (forall i :: 0 <= i < |arr| ==> 0 <= out[i] <= 255)
      && (forall i :: 0 <= i < |arr| && arr[i] == MinOf(arr) ==> out[i] == 0)
      && (forall i :: 0 <= i < |arr| && arr[i] == MaxOf(arr) && MinOf(arr) < MaxOf(arr) ==> out[i] == 255)
      && (forall i, j :: 0 <= i < |arr| && 0 <= j < |arr| && arr[i] <= arr[j] ==> out[i] <= out[j])
  {
    var lo, hi := MinOf(arr), MaxOf(arr);
    forall i | 0 <= i < |arr| ensures 0 <= Rescale(arr[i], lo, hi) <= 255 {
      RescaleBounds(arr[i], lo, hi);
    }
    forall i | 0 <= i < |arr| && arr[i] == lo ensures Rescale(arr[i], lo, hi) == 0 {
      RescaleBounds(arr[i], lo, hi);
    }
    forall i, j | 0 <= i < |arr| && 0 <= j < |arr| && arr[i] <= arr[j]
      ensures Rescale(arr[i], lo, hi) <= Rescale(arr[j], lo, hi)
    {
      RescaleMonotone(arr[i], arr[j], lo, hi);
    }
    forall i | 0 <= i < |arr| && arr[i] == hi && lo < hi ensures Rescale(arr[i], lo, hi) == 255 {
      RescaleBounds(arr[i], lo, hi);
    }
  }
}
