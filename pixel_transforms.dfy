// Colour arithmetic of the viewer's raster layer
// (viewer/src/lib/openlayers/PixelTransforms.js): hex colour strings,
// pseudocolour blending of several channels into one RGBA pixel, and
// per-channel min/max normalisation.
module PixelTransforms {
  import opened Wrappers
  import Arith

  // ---------------------------------------------------------------------
  // Hexadecimal digits

  predicate IsHexDigit(c: char)
  {
    '0' <= c <= '9' || 'a' <= c <= 'f' || 'A' <= c <= 'F'
  }

  predicate AllHex(s: string)
  {
    forall i :: 0 <= i < |s| ==> IsHexDigit(s[i])
  }

  function HexDigitValue(c: char): (d: nat)
    requires IsHexDigit(c)
    ensures d < 16
  {
    if '0' <= c <= '9' then c as int - '0' as int
    else if 'a' <= c <= 'f' then c as int - 'a' as int + 10
    else c as int - 'A' as int + 10
  }

  /** The digit Number.prototype.toString(16) writes for d (lower case). */
  function LowerHexDigit(d: nat): (c: char)
    requires d < 16
    ensures IsHexDigit(c) && HexDigitValue(c) == d
  {
    if d < 10 then ('0' as int + d) as char else ('a' as int + d - 10) as char
  }

  function Pow16(k: nat): (p: nat)
    ensures p >= 1
  {
    if k == 0 then 1 else Pow16(k - 1) * 16
  }

  /** The value of a string of hex digits, most significant first. */
  function HexValue(s: string): (v: nat)
    requires AllHex(s)
  {
    if |s| == 0 then 0 else HexValue(s[..|s| - 1]) * 16 + HexDigitValue(s[|s| - 1])
  }

  lemma {:induction false} HexValueBelow(s: string)
    requires AllHex(s)
    ensures HexValue(s) < Pow16(|s|)
  {
    if |s| > 0 {
      var p := s[..|s| - 1];
      HexValueBelow(p);
      Arith.MulMonotone(HexValue(p), Pow16(|p|) - 1, 16);
    }
  }

  lemma {:induction false} HexValueConcat(a: string, b: string)
    requires AllHex(a) && AllHex(b)
    ensures AllHex(a + b)
    ensures HexValue(a + b) == HexValue(a) * Pow16(|b|) + HexValue(b)
  {
    if |b| > 0 {
      var b' := b[..|b| - 1];
      assert (a + b)[..|a + b| - 1] == a + b';
      assert (a + b)[|a + b| - 1] == b[|b| - 1];
      HexValueConcat(a, b');
      ShiftDigit(HexValue(a), HexValue(b'), Pow16(|b'|), HexDigitValue(b[|b| - 1]));
    } else {
      assert a + b == a;
    }
  }

  lemma ShiftDigit(x: nat, y: nat, p: nat, d: nat)
    ensures (x * p + y) * 16 + d == x * (p * 16) + (y * 16 + d)
  {
  }

  /** Length of the longest prefix of hex digits. */
  function HexPrefixLength(s: string): (k: nat)
    ensures k <= |s|
    ensures AllHex(s[..k])
    ensures k < |s| ==> !IsHexDigit(s[k])
  {
    if |s| == 0 || !IsHexDigit(s[0]) then 0
    else
      var k := 1 + HexPrefixLength(s[1..]);
      assert s[..k] == [s[0]] + s[1..][..k - 1];
      k
  }

  lemma {:induction false} HexPrefixOfHex(s: string)
    requires AllHex(s)
    ensures HexPrefixLength(s) == |s|
  {
    if |s| > 0 {
      HexPrefixOfHex(s[1..]);
    }
  }

  // ---------------------------------------------------------------------
  // hexToInt and intToHex

  /** The characters parseInt skips at the start: ECMAScript's WhiteSpace
      and LineTerminator. */
  predicate IsJsSpace(c: char)
  {
    c == ' ' || c == '\t' || c == '\n' || c == '\r' || c == '\U{000B}' || c == '\U{000C}'
    || c == '\U{00A0}' || c == '\U{1680}' || '\U{2000}' <= c <= '\U{200A}' || c == '\U{2028}' || c == '\U{2029}'
    || c == '\U{202F}' || c == '\U{205F}' || c == '\U{3000}' || c == '\U{FEFF}'
  }

  /** The string with its leading white space removed. */
  function TrimStart(s: string): (r: string)
    ensures |r| <= |s|
    ensures |r| > 0 ==> !IsJsSpace(r[0])
    ensures |s| > 0 && !IsJsSpace(s[0]) ==> r == s
  {
    if |s| > 0 && IsJsSpace(s[0]) then TrimStart(s[1..]) else s
  }

  /** TrimStart removes exactly a prefix of white space. */
  lemma {:induction false} TrimStartIsSuffix(s: string)
    ensures var r := TrimStart(s);
      r == s[|s| - |r|..] && forall i :: 0 <= i < |s| - |r| ==> IsJsSpace(s[i])
  {
    if |s| > 0 && IsJsSpace(s[0]) {
      TrimStartIsSuffix(s[1..]);
    }
  }

  /** parseInt(s, 16): leading white space is skipped, then an optional
      sign, an optional "0x"/"0X", then the longest run of hex digits; None
      stands for NaN (no digit at all). */
  function HexToInt(s: string): (r: Option<int>)
    ensures r.None? <==>
      var w := TrimStart(s);
      var t := if |w| > 0 && (w[0] == '-' || w[0] == '+') then w[1..] else w;
      var u := if |t| >= 2 && t[0] == '0' && (t[1] == 'x' || t[1] == 'X') then t[2..] else t;
      |u| == 0 || !IsHexDigit(u[0])
  {
    var w := TrimStart(s);
    var negative := |w| > 0 && w[0] == '-';
    var t := if |w| > 0 && (w[0] == '-' || w[0] == '+') then w[1..] else w;
    var u := if |t| >= 2 && t[0] == '0' && (t[1] == 'x' || t[1] == 'X') then t[2..] else t;
    var k := HexPrefixLength(u);
    if k == 0 then None
    else
      var v: int := HexValue(u[..k]);
      Some(if negative then -v else v)
  }

  /** Number.prototype.toString(16) of a non-negative integer. */
  function NatToHex(n: nat): (s: string)
    ensures |s| > 0 && AllHex(s)
  {
    if n < 16 then [LowerHexDigit(n)] else NatToHex(n / 16) + [LowerHexDigit(n % 16)]
  }

  /** Number.prototype.toString(16) of an integer. */
  function IntToHexString(n: int): (s: string)
    ensures |s| > 0
  {
    if n < 0 then "-" + NatToHex(-n) else NatToHex(n)
  }

  /** String.prototype.padStart(width, c). */
  function PadStart(s: string, width: nat, c: char): (r: string)
    ensures |r| == if |s| >= width then |s| else width
    ensures r[|r| - |s|..] == s
    ensures forall i :: 0 <= i < |r| - |s| ==> r[i] == c
  {
    if |s| >= width then s else seq(width - |s|, _ => c) + s
  }

  function UpperChar(c: char): char
  {
    if 'a' <= c <= 'z' then (c as int - 32) as char else c
  }

  /** String.prototype.toUpperCase on the characters a hex string can hold. */
  function ToUpper(s: string): (r: string)
    ensures |r| == |s|
  {
    seq(|s|, i requires 0 <= i < |s| => UpperChar(s[i]))
  }

  /** intToHex */
  function IntToHex(n: int): (r: string)
    ensures |r| >= 6
    ensures forall i :: 0 <= i < |r| ==> !('a' <= r[i] <= 'z')
  {
    ToUpper(PadStart(IntToHexString(n), 6, '0'))
  }

  /** The k low hex digits of n, most significant first. */
  function FixedHex(n: nat, k: nat): (s: string)
    ensures |s| == k
  {
    if k == 0 then [] else FixedHex(n / 16, k - 1) + [LowerHexDigit(n % 16)]
  }

  lemma {:induction false} FixedHexOfZero(k: nat)
    ensures FixedHex(0, k) == seq(k, _ => '0')
  {
    if k > 0 {
      FixedHexOfZero(k - 1);
    }
  }

  /** Padding the hex string of n to k digits gives its k low digits. */
  lemma {:induction false} PadNatToHex(n: nat, k: nat)
    requires k >= 1 && n < Pow16(k)
    ensures |NatToHex(n)| <= k
    ensures PadStart(NatToHex(n), k, '0') == FixedHex(n, k)
  {
    if n < 16 {
      FixedHexOfZero(k - 1);
      assert n / 16 == 0 && n % 16 == n;
      assert PadStart(NatToHex(n), k, '0') == seq(k - 1, _ => '0') + [LowerHexDigit(n)];
    } else {
      var q := n / 16;
      Arith.Euclid(n, 16);
      if k == 1 {
        assert false;
      }
      PadNatToHex(q, k - 1);
      var x := NatToHex(q);
      var c := LowerHexDigit(n % 16);
      assert NatToHex(n) == x + [c];
      assert PadStart(x + [c], k, '0') == PadStart(x, k - 1, '0') + [c];
    }
  }

  lemma {:induction false} FixedHexOfHexValue(s: string)
    requires AllHex(s)
    ensures ToUpper(FixedHex(HexValue(s), |s|)) == ToUpper(s)
  {
    if |s| > 0 {
      var p := s[..|s| - 1];
      var d := HexDigitValue(s[|s| - 1]);
      Arith.CellIndex(HexValue(p), d, 16);
      FixedHexOfHexValue(p);
      var f := FixedHex(HexValue(s), |s|);
      assert f == FixedHex(HexValue(p), |p|) + [LowerHexDigit(d)];
      assert UpperChar(LowerHexDigit(d)) == UpperChar(s[|s| - 1]);
      assert ToUpper(f) == ToUpper(FixedHex(HexValue(p), |p|)) + [UpperChar(LowerHexDigit(d))];
      assert ToUpper(s) == ToUpper(p) + [UpperChar(s[|s| - 1])];
    }
  }

  /** A non-empty string of hex digits parses to its value. */
  lemma HexToIntOfDigits(s: string)
    requires |s| > 0 && AllHex(s)
    ensures HexToInt(s) == Some(HexValue(s))
  {
    HexDigitIsNoSpaceOrSign(s[0]);
    assert TrimStart(s) == s;
    if |s| >= 2 {
      HexDigitIsNoSpaceOrSign(s[1]);
    }
    HexPrefixOfHex(s);
    assert s[..|s|] == s;
  }

  lemma HexDigitIsNoSpaceOrSign(c: char)
    requires IsHexDigit(c)
    ensures !IsJsSpace(c) && c != '-' && c != '+' && c != 'x' && c != 'X'
  {
  }

  /** A six-digit colour without '#' survives hexToInt then intToHex, in
      upper case. */
  lemma HexRoundTrip(s: string)
    requires |s| == 6 && AllHex(s)
    ensures HexToInt(s) == Some(HexValue(s))
    ensures IntToHex(HexValue(s)) == ToUpper(s)
  {
    HexToIntOfDigits(s);
    HexValueBelow(s);
    PadNatToHex(HexValue(s), 6);
    FixedHexOfHexValue(s);
  }

  // ---------------------------------------------------------------------
  // Pseudocolour blending

  datatype Rgb = Rgb(red: int, green: int, blue: int)

  /** ToUint32 of an integer: the 32-bit pattern `>>` and `&` work on. */
  function ToUint32(x: int): (u: nat)
    ensures u < 0x1_0000_0000
  {
    x % 0x1_0000_0000
  }

  /** The colour of '#RRGGBB': parseInt of everything after the first
      character, then bits 16-23, 8-15 and 0-7 (NaN becomes 0 under `>>`
      and `&`). */
  function ColorRgb(hex: string): (c: Rgb)
    ensures 0 <= c.red < 256 && 0 <= c.green < 256 && 0 <= c.blue < 256
  {
    var parsed := HexToInt(if |hex| > 0 then hex[1..] else "");
    var bits := if parsed.Some? then ToUint32(parsed.value) else 0;
    Rgb((bits / 0x1_0000) % 256, (bits / 0x100) % 256, bits % 256)
  }

  /** '#RRGGBB' decodes to the three two-digit hex values. */
  lemma ColorRgbOfHash(hex: string)
    requires |hex| == 7 && AllHex(hex[1..])
    ensures ColorRgb(hex) == Rgb(HexValue(hex[1..3]), HexValue(hex[3..5]), HexValue(hex[5..7]))
  {
    var s := hex[1..];
    HexToIntOfDigits(s);
    var rr, gg, bb := hex[1..3], hex[3..5], hex[5..7];
    assert s == (rr + gg) + bb;
    HexValueConcat(rr, gg);
    HexValueConcat(rr + gg, bb);
    HexValueBelow(rr);
    HexValueBelow(gg);
    HexValueBelow(bb);
    var r, g, b := HexValue(rr), HexValue(gg), HexValue(bb);
    assert Pow16(2) == 256;
    var v := HexValue(s);
    assert v == (r * 256 + g) * 256 + b;
    Bytes(v, r, g, b);
    assert HexToInt(hex[1..]) == Some(v);
    assert ColorRgb(hex) == Rgb((v / 0x1_0000) % 256, (v / 0x100) % 256, v % 256);
  }

  /** The three bytes of a 24-bit value come back out of `>>` and `&`. */
  lemma Bytes(v: int, r: nat, g: nat, b: nat)
    requires r < 256 && g < 256 && b < 256
    requires v == (r * 256 + g) * 256 + b
    ensures ToUint32(v) == v && (v / 0x1_0000) % 256 == r && (v / 0x100) % 256 == g && v % 256 == b
  {
    Arith.MulMonotone(r, 255, 256);
    Arith.MulMonotone(r * 256 + g, 65535, 256);
    Arith.CellIndex(r * 256 + g, b, 256);
    Arith.CellIndex(r, g, 256);
    Arith.MulMonotone(g, 255, 256);
    assert v == r * 0x1_0000 + (g * 256 + b);
    Arith.CellIndex(r, g * 256 + b, 0x1_0000);
  }

  function Component(c: Rgb, channel: nat): int
  {
    if channel == 0 then c.red else if channel == 1 then c.green else c.blue
  }

  /** Σ component_i * value_i / 255 over the first n channels. */
  function Blend(colors: seq<Rgb>, values: seq<real>, channel: nat, n: nat): real
    requires n <= |colors| && n <= |values|
  {
    if n == 0 then 0.0
    else Blend(colors, values, channel, n - 1) + Weighted(Component(colors[n - 1], channel), values[n - 1] / 255.0)
  }

  /** Blending one more channel adds its weighted component on each of
      the three colour channels. */
  lemma BlendStep(colors: seq<Rgb>, values: seq<real>, n: nat)
    requires n < |colors| && n < |values|
    ensures Blend(colors, values, 0, n + 1) == Blend(colors, values, 0, n) + Weighted(colors[n].red, values[n] / 255.0)
    ensures Blend(colors, values, 1, n + 1) == Blend(colors, values, 1, n) + Weighted(colors[n].green, values[n] / 255.0)
    ensures Blend(colors, values, 2, n + 1) == Blend(colors, values, 2, n) + Weighted(colors[n].blue, values[n] / 255.0)
  {
  }

  /** One channel's contribution: colour component times intensity. */
  function Weighted(component: int, intensity: real): real
  {
    component as real * intensity
  }

  /** Math.round */
  function Round(x: real): int
  {
    (x + 0.5).Floor
  }

  /** Math.min(255, Math.round(x)) stored into a Uint8ClampedArray. */
  function ToByte(x: real): (b: int)
    ensures 0 <= b <= 255
    ensures 0.0 <= x && Round(x) <= 255 ==> b == Round(x)
  {
    var m := if Round(x) < 255 then Round(x) else 255;
    if m < 0 then 0 else m
  }

  datatype PixelError = LengthMismatch

  /** applyPseudocolorToPixel */
  method PseudocolorPixel(colors: seq<string>, values: seq<real>) returns (r: Result<seq<int>, PixelError>)
    ensures r.Ok? <==> |colors| == |values|
    ensures r.Ok? ==> |r.value| == 4 && r.value[3] == 255
    ensures r.Ok? ==>
      var rgbs := seq(|colors|, i requires 0 <= i < |colors| => ColorRgb(colors[i]));
      forall ch :: 0 <= ch < 3 ==> r.value[ch] == ToByte(Blend(rgbs, values, ch, |values|))
  {
    if |colors| != |values| {
      return Err(LengthMismatch);
    }
    var rgbs := seq(|colors|, i requires 0 <= i < |colors| => ColorRgb(colors[i]));
    var red, green, blue := 0.0, 0.0, 0.0;
    var i := 0;
    while i < |values|
      invariant 0 <= i <= |values|
      invariant red == Blend(rgbs, values, 0, i)
      invariant green == Blend(rgbs, values, 1, i)
      invariant blue == Blend(rgbs, values, 2, i)
    {
      var intensity := values[i] / 255.0;
      BlendStep(rgbs, values, i);
      red := red + Weighted(rgbs[i].red, intensity);
      green := green + Weighted(rgbs[i].green, intensity);
      blue := blue + Weighted(rgbs[i].blue, intensity);
      i := i + 1;
    }
    return Ok([ToByte(red), ToByte(green), ToByte(blue), 255]);
  }

  /** One channel at full intensity shows exactly its colour. */
  lemma OneChannelShowsItsColor(hex: string)
    requires |hex| == 7 && AllHex(hex[1..])
    ensures var rgbs := [ColorRgb(hex)];
      ToByte(Blend(rgbs, [255.0], 0, 1)) == HexValue(hex[1..3])
      && ToByte(Blend(rgbs, [255.0], 1, 1)) == HexValue(hex[3..5])
      && ToByte(Blend(rgbs, [255.0], 2, 1)) == HexValue(hex[5..7])
  {
    ColorRgbOfHash(hex);
    var c := ColorRgb(hex);
    RoundOfInteger(c.red);
    RoundOfInteger(c.green);
    RoundOfInteger(c.blue);
  }

  lemma RoundOfInteger(k: int)
    ensures Round(k as real) == k
  {
  }

  /** Channels at zero intensity blend to black. */
  lemma {:induction false} ZeroIntensityIsBlack(colors: seq<Rgb>, values: seq<real>, channel: nat, n: nat)
    requires n <= |colors| && n <= |values|
    requires forall i :: 0 <= i < n ==> values[i] == 0.0
    ensures Blend(colors, values, channel, n) == 0.0
    ensures ToByte(Blend(colors, values, channel, n)) == 0
  {
    if n > 0 {
      ZeroIntensityIsBlack(colors, values, channel, n - 1);
    }
  }

  // ---------------------------------------------------------------------
  // minMaxRangePixelTransform

  /** A JavaScript number as far as this transform can produce it. */
  datatype Num = Finite(value: real) | NaN

  function Clamp255(x: real): (r: real)
    ensures 0.0 <= r <= 255.0
  {
    if x > 255.0 then 255.0 else if x < 0.0 then 0.0 else x
  }

  /** Math.min(255, Math.max(0, ((v - lo) / (hi - lo)) * 255)); when
      hi == lo the quotient is +Infinity, -Infinity or NaN (0/0). */
  function Normalize(v: real, lo: real, hi: real): (r: Num)
    ensures r.NaN? <==> hi == lo && v == lo
    ensures r.Finite? ==> 0.0 <= r.value <= 255.0
    ensures hi == lo && v > lo ==> r == Finite(255.0)
    ensures hi == lo && v < lo ==> r == Finite(0.0)
  {
    if hi != lo then Finite(Clamp255((v - lo) / (hi - lo) * 255.0))
    else if v > lo then Finite(255.0)
    else if v < lo then Finite(0.0)
    else NaN
  }

  /** minMaxRangePixelTransform */
  function MinMaxRange(values: seq<real>, mins: seq<real>, maxs: seq<real>): (r: Result<seq<Num>, PixelError>)
    ensures r.Ok? <==> |values| == |mins| == |maxs|
    ensures r.Ok? ==> |r.value| == |values|
    ensures r.Ok? ==> forall i :: 0 <= i < |values| ==>
      (r.value[i].NaN? <==> mins[i] == maxs[i] == values[i])
    ensures r.Ok? ==> forall i :: 0 <= i < |values| && r.value[i].Finite? ==>
      0.0 <= r.value[i].value <= 255.0
  {
    if |values| != |mins| || |values| != |maxs| then Err(LengthMismatch)
    else Ok(seq(|values|, i requires 0 <= i < |values| => Normalize(values[i], mins[i], maxs[i])))
  }

  /** With max > min the window maps min to 0, max to 255, keeps order, and
      is the linear ramp in between. */
  lemma NormalizeWindow(v: real, w: real, lo: real, hi: real)
    requires lo < hi
    ensures Normalize(lo, lo, hi) == Finite(0.0)
    ensures Normalize(hi, lo, hi) == Finite(255.0)
    ensures lo <= v <= hi ==> Normalize(v, lo, hi) == Finite((v - lo) / (hi - lo) * 255.0)
    ensures v <= w ==> Normalize(v, lo, hi).value <= Normalize(w, lo, hi).value
  {
    var d := hi - lo;
    assert (hi - lo) / d == 1.0;
    if lo <= v <= hi {
      assert 0.0 <= (v - lo) / d <= 1.0;
    }
    if v <= w {
      assert (v - lo) / d <= (w - lo) / d;
    }
  }
}
