/**
 * `blendColor` of the sky animation: two `#RRGGBB` colours are parsed into
 * three channels each, every channel is interpolated by a factor and rounded
 * with `Math.round`, and the result is written back as `#` followed by three
 * two-digit lower-case radix-16 channels.
 */
module ColorBlend {
  import opened JsBuiltins

  /** The three channels of a colour, each as parsed by `parseInt` (possibly NaN). */
  datatype Rgb = Rgb(r: Number, g: Number, b: Number)

  /** A colour as the palette table writes it: `#` and six radix-16 digits in either case. */
  predicate IsHexColor(s: string)
  {
    && |s| == 7 && s[0] == '#'
    && IsHexDigit(s[1]) && IsHexDigit(s[2]) && IsHexDigit(s[3])
    && IsHexDigit(s[4]) && IsHexDigit(s[5]) && IsHexDigit(s[6])
  }

  /** A colour as `blendColor` writes it: `#` and six lower-case radix-16 digits. */
  predicate IsLowerHexColor(s: string)
  {
    && |s| == 7 && s[0] == '#'
    && IsLowerHexDigit(s[1]) && IsLowerHexDigit(s[2]) && IsLowerHexDigit(s[3])
    && IsLowerHexDigit(s[4]) && IsLowerHexDigit(s[5]) && IsLowerHexDigit(s[6])
  }

  /** `s` with every ASCII upper-case letter lowered. */
  function LowerCase(s: string): (r: string)
    ensures |r| == |s| && forall i :: 0 <= i < |s| ==> r[i] == ToLowerAscii(s[i])
  {
    if s == [] then [] else [ToLowerAscii(s[0])] + LowerCase(s[1..])
  }

  /** The byte spelled by the two digits of `s` at `i` and `i + 1`. */
  function ByteAt(s: string, i: nat): (v: nat)
    requires i + 1 < |s| && IsHexDigit(s[i]) && IsHexDigit(s[i + 1])
    ensures v < 256
  {
    16 * HexDigitValue(s[i]) + HexDigitValue(s[i + 1])
  }

  /** The decoding half of `blendColor`: drop the first `#`, then read the
      slices at 0, 2 and 4 of length 2 with `parseInt(_, 16)`. */
  function ParseColor(color: string): (c: Rgb)
    ensures NoHexDigit(color) ==> c == Rgb(NaN, NaN, NaN)
  {
    var hex := RemoveFirst(color, '#');
    assert NoHexDigit(color) ==> NoHexDigit(hex) by {
      if NoHexDigit(color) {
        RemoveFirstNoHexDigit(color, '#');
      }
    }
    Rgb(ParseInt16(Substr(hex, 0, 2)), ParseInt16(Substr(hex, 2, 2)), ParseInt16(Substr(hex, 4, 2)))
  }

  /** `Math.round(x1 + (x2 - x1) * factor)`; NaN in, NaN out. */
  function BlendChannel(x1: Number, x2: Number, factor: real): (x: Number)
    ensures x.NaN? <==> x1.NaN? || x2.NaN?
  {
    if x1.NaN? || x2.NaN? then NaN
    else Int(Round(x1.value as real + (x2.value - x1.value) as real * factor))
  }

  /** `x.toString(16).padStart(2, '0')`: at least two characters, and the text
      `NaN` for a channel that did not parse. */
  function FormatChannel(x: Number): (s: string)
    ensures |s| >= 2
    ensures x.NaN? ==> s == "NaN"
  {
    PadStart(ToString16(x), 2, '0')
  }

  /** The encoding half of `blendColor`: the template string `#${r}${g}${b}`. */
  function FormatColor(c: Rgb): (s: string)
    ensures |s| >= 7 && s[0] == '#'
  {
    "#" + FormatChannel(c.r) + FormatChannel(c.g) + FormatChannel(c.b)
  }

  /** `blendColor(color1, color2, factor)`. */
  function BlendColor(color1: string, color2: string, factor: real): (out: string)
    ensures |out| >= 7 && out[0] == '#'
  {
    var c1 := ParseColor(color1);
    var c2 := ParseColor(color2);
    FormatColor(Rgb(BlendChannel(c1.r, c2.r, factor),
                    BlendChannel(c1.g, c2.g, factor),
                    BlendChannel(c1.b, c2.b, factor)))
  }

  // ---------------------------------------------------------------------------
  // Decoding and encoding are inverse on bytes
  // ---------------------------------------------------------------------------

  /** Two digits at `i` parse to the byte they spell. */
  lemma ParseByteAt(s: string, i: nat)
    requires i + 1 < |s| && IsHexDigit(s[i]) && IsHexDigit(s[i + 1])
    ensures ParseInt16(s[i..i + 2]) == Int(ByteAt(s, i))
  {
    assert s[i..i + 2] == [s[i], s[i + 1]];
    ParseTwoHexDigits(s[i], s[i + 1]);
  }

  /** A palette colour parses to the three bytes its digits spell. */
  lemma ParseHexColor(s: string)
    requires IsHexColor(s)
    ensures ParseColor(s) == Rgb(Int(ByteAt(s, 1)), Int(ByteAt(s, 3)), Int(ByteAt(s, 5)))
  {
    var hex := RemoveFirst(s, '#');
    assert hex == s[1..];
    assert Substr(hex, 0, 2) == s[1..3];
    assert Substr(hex, 2, 2) == s[3..5];
    assert Substr(hex, 4, 2) == s[5..7];
    ParseByteAt(s, 1);
    ParseByteAt(s, 3);
    ParseByteAt(s, 5);
  }

  /** A byte is written as its two lower-case digits, the high one first. */
  lemma FormatByte(n: nat, hi: nat, lo: nat)
    requires hi < 16 && lo < 16 && n == 16 * hi + lo
    ensures FormatChannel(Int(n)) == [HexDigitChar(hi), HexDigitChar(lo)]
  {
    ByteToHex(hi, lo);
    if hi == 0 {
      assert PadStart([HexDigitChar(lo)], 2, '0') == ['0', HexDigitChar(lo)];
    }
  }

  /** The text written for three bytes: `#` and each byte's two digits. */
  lemma FormatDigits(r: nat, g: nat, b: nat, rh: nat, rl: nat, gh: nat, gl: nat, bh: nat, bl: nat)
    requires rh < 16 && rl < 16 && gh < 16 && gl < 16 && bh < 16 && bl < 16
    requires r == 16 * rh + rl && g == 16 * gh + gl && b == 16 * bh + bl
    ensures FormatColor(Rgb(Int(r), Int(g), Int(b)))
         == ['#', HexDigitChar(rh), HexDigitChar(rl), HexDigitChar(gh),
             HexDigitChar(gl), HexDigitChar(bh), HexDigitChar(bl)]
  {
    var x, y, z := FormatChannel(Int(r)), FormatChannel(Int(g)), FormatChannel(Int(b));
    assert FormatColor(Rgb(Int(r), Int(g), Int(b))) == "#" + x + y + z;
    FormatByte(r, rh, rl);
    FormatByte(g, gh, gl);
    FormatByte(b, bh, bl);
    ConcatColor(x, y, z);
  }

  lemma ConcatColor(x: string, y: string, z: string)
    requires |x| == 2 && |y| == 2 && |z| == 2
    ensures "#" + x + y + z == ['#', x[0], x[1], y[0], y[1], z[0], z[1]]
  {
  }

  /** Six digit values written out form a lower-case colour that spells the
      three bytes they make up. */
  lemma DigitsSpell(t: string, r: nat, g: nat, b: nat, rh: nat, rl: nat, gh: nat, gl: nat, bh: nat, bl: nat)
    requires rh < 16 && rl < 16 && gh < 16 && gl < 16 && bh < 16 && bl < 16
    requires r == 16 * rh + rl && g == 16 * gh + gl && b == 16 * bh + bl
    requires t == ['#', HexDigitChar(rh), HexDigitChar(rl), HexDigitChar(gh),
                   HexDigitChar(gl), HexDigitChar(bh), HexDigitChar(bl)]
    ensures IsLowerHexColor(t) && IsHexColor(t)
    ensures ByteAt(t, 1) == r && ByteAt(t, 3) == g && ByteAt(t, 5) == b
  {
    DigitCharValue(rh); DigitCharValue(rl);
    DigitCharValue(gh); DigitCharValue(gl);
    DigitCharValue(bh); DigitCharValue(bl);
  }

  /** ... and it parses back to those bytes. */
  lemma DigitsColor(t: string, r: nat, g: nat, b: nat, rh: nat, rl: nat, gh: nat, gl: nat, bh: nat, bl: nat)
    requires rh < 16 && rl < 16 && gh < 16 && gl < 16 && bh < 16 && bl < 16
    requires r == 16 * rh + rl && g == 16 * gh + gl && b == 16 * bh + bl
    requires t == ['#', HexDigitChar(rh), HexDigitChar(rl), HexDigitChar(gh),
                   HexDigitChar(gl), HexDigitChar(bh), HexDigitChar(bl)]
    ensures IsLowerHexColor(t)
    ensures ParseColor(t) == Rgb(Int(r), Int(g), Int(b))
  {
    DigitsSpell(t, r, g, b, rh, rl, gh, gl, bh, bl);
    ParseHexColor(t);
  }

  /** Writing three bytes gives a well-formed lower-case colour, and parsing it
      gives the bytes back. */
  lemma {:induction false} FormatParseRoundTrip(r: nat, g: nat, b: nat)
    requires r < 256 && g < 256 && b < 256
    ensures IsLowerHexColor(FormatColor(Rgb(Int(r), Int(g), Int(b))))
    ensures ParseColor(FormatColor(Rgb(Int(r), Int(g), Int(b)))) == Rgb(Int(r), Int(g), Int(b))
  {
    var rh, rl := SplitByte(r);
    var gh, gl := SplitByte(g);
    var bh, bl := SplitByte(b);
    var t := ['#', HexDigitChar(rh), HexDigitChar(rl), HexDigitChar(gh),
              HexDigitChar(gl), HexDigitChar(bh), HexDigitChar(bl)];
    FormatDigits(r, g, b, rh, rl, gh, gl, bh, bl);
    DigitsColor(t, r, g, b, rh, rl, gh, gl, bh, bl);
  }

  /** Writing the bytes of a palette colour gives the colour in lower case. */
  lemma FormatBytesOf(s: string)
    requires IsHexColor(s)
    ensures FormatColor(Rgb(Int(ByteAt(s, 1)), Int(ByteAt(s, 3)), Int(ByteAt(s, 5)))) == LowerCase(s)
  {
    FormatDigits(ByteAt(s, 1), ByteAt(s, 3), ByteAt(s, 5),
                 HexDigitValue(s[1]), HexDigitValue(s[2]), HexDigitValue(s[3]),
                 HexDigitValue(s[4]), HexDigitValue(s[5]), HexDigitValue(s[6]));
    LowerCaseColor(s);
  }

  /** Lowering a palette colour lowers each of its seven characters. */
  lemma LowerCaseColor(s: string)
    requires IsHexColor(s)
    ensures LowerCase(s) == ['#', ToLowerAscii(s[1]), ToLowerAscii(s[2]), ToLowerAscii(s[3]),
                             ToLowerAscii(s[4]), ToLowerAscii(s[5]), ToLowerAscii(s[6])]
  {
  }

  /** Parsing a palette colour and writing it back gives the colour in lower case. */
  lemma {:induction false} ParseFormatRoundTrip(s: string)
    requires IsHexColor(s)
    ensures FormatColor(ParseColor(s)) == LowerCase(s)
  {
    ParseHexColor(s);
    FormatBytesOf(s);
  }

  // ---------------------------------------------------------------------------
  // Interpolation
  // ---------------------------------------------------------------------------

  /** `x` lies between `lo` and `hi`, in whichever order they come. */
  predicate Between(x: int, lo: int, hi: int)
  {
    (lo <= x <= hi) || (hi <= x <= lo)
  }

  /** For a factor in [0, 1] the rounded channel lies between the two input channels. */
  lemma {:induction false} BlendChannelBetween(x1: int, x2: int, factor: real)
    requires 0.0 <= factor <= 1.0
    ensures BlendChannel(Int(x1), Int(x2), factor).Int?
    ensures Between(BlendChannel(Int(x1), Int(x2), factor).value, x1, x2)
  {
    var x := x1 as real + (x2 - x1) as real * factor;
    var lo := if x1 <= x2 then x1 else x2;
    var hi := if x1 <= x2 then x2 else x1;
    assert lo as real <= x <= hi as real by {
      if x1 <= x2 {
        assert 0.0 <= (x2 - x1) as real * factor <= (x2 - x1) as real;
      } else {
        assert (x2 - x1) as real <= (x2 - x1) as real * factor <= 0.0;
      }
    }
    var n := Round(x);
    assert lo <= n <= hi;
  }

  /** Factor 0 gives the first channel and factor 1 the second. */
  lemma BlendChannelEnds(x1: int, x2: int)
    ensures BlendChannel(Int(x1), Int(x2), 0.0) == Int(x1)
    ensures BlendChannel(Int(x1), Int(x2), 1.0) == Int(x2)
  {
    assert Round(x1 as real) == x1;
    assert Round(x2 as real) == x2;
  }

  /** As the factor approaches 1 the channel approaches the second input:
      it is off by at most the remaining distance plus half a unit of rounding. */
  lemma {:induction false} BlendChannelApproaches(x1: int, x2: int, factor: real)
    requires 0.0 <= factor <= 1.0
    ensures var n := BlendChannel(Int(x1), Int(x2), factor).value;
      if x1 <= x2 then (x2 - n) as real <= (1.0 - factor) * (x2 - x1) as real + 0.5
      else (n - x2) as real <= (1.0 - factor) * (x1 - x2) as real + 0.5
  {
    var x := x1 as real + (x2 - x1) as real * factor;
    assert x2 as real - x == (1.0 - factor) * (x2 - x1) as real;
  }

  /** A NaN channel on either side makes the written channel the text `NaN`. */
  lemma BlendChannelNaN(x1: Number, x2: Number, factor: real)
    requires x1.NaN? || x2.NaN?
    ensures FormatChannel(BlendChannel(x1, x2, factor)) == "NaN"
  {
  }

  // ---------------------------------------------------------------------------
  // blendColor
  // ---------------------------------------------------------------------------

  /** `out` is a well-formed lower-case colour whose every channel is the rounded
      interpolation, by `factor`, of the same channel of `from` and `to`, and so
      lies between them. */
  predicate IsBlendOf(out: string, from: string, to: string, factor: real)
    requires IsHexColor(from) && IsHexColor(to)
  {
    var r1, g1, b1 := ByteAt(from, 1), ByteAt(from, 3), ByteAt(from, 5);
    var r2, g2, b2 := ByteAt(to, 1), ByteAt(to, 3), ByteAt(to, 5);
    var o := ParseColor(out);
    && IsLowerHexColor(out)
    && o == Rgb(BlendChannel(Int(r1), Int(r2), factor),
                BlendChannel(Int(g1), Int(g2), factor),
                BlendChannel(Int(b1), Int(b2), factor))
    && o.r.Int? && Between(o.r.value, r1, r2)
    && o.g.Int? && Between(o.g.value, g1, g2)
    && o.b.Int? && Between(o.b.value, b1, b2)
  }

  /** For palette colours and a factor in [0, 1], `blendColor` writes a well-formed
      colour, and reading it back gives channels between those of the inputs. */
  lemma {:induction false} BlendColorIsBlend(color1: string, color2: string, factor: real)
    requires IsHexColor(color1) && IsHexColor(color2)
    requires 0.0 <= factor <= 1.0
    ensures IsBlendOf(BlendColor(color1, color2, factor), color1, color2, factor)
  {
    ParseHexColor(color1);
    ParseHexColor(color2);
    var r := BlendChannel(Int(ByteAt(color1, 1)), Int(ByteAt(color2, 1)), factor);
    var g := BlendChannel(Int(ByteAt(color1, 3)), Int(ByteAt(color2, 3)), factor);
    var b := BlendChannel(Int(ByteAt(color1, 5)), Int(ByteAt(color2, 5)), factor);
    BlendChannelBetween(ByteAt(color1, 1), ByteAt(color2, 1), factor);
    BlendChannelBetween(ByteAt(color1, 3), ByteAt(color2, 3), factor);
    BlendChannelBetween(ByteAt(color1, 5), ByteAt(color2, 5), factor);
    FormatParseRoundTrip(r.value, g.value, b.value);
  }

  /** Factor 0 gives back the first colour, in lower case. */
  lemma {:induction false} BlendColorAtZero(color1: string, color2: string)
    requires IsHexColor(color1) && IsHexColor(color2)
    ensures BlendColor(color1, color2, 0.0) == LowerCase(color1)
  {
    ParseHexColor(color1);
    ParseHexColor(color2);
    BlendChannelEnds(ByteAt(color1, 1), ByteAt(color2, 1));
    BlendChannelEnds(ByteAt(color1, 3), ByteAt(color2, 3));
    BlendChannelEnds(ByteAt(color1, 5), ByteAt(color2, 5));
    ParseFormatRoundTrip(color1);
  }

  /** Factor 1 gives the second colour, in lower case. */
  lemma {:induction false} BlendColorAtOne(color1: string, color2: string)
    requires IsHexColor(color1) && IsHexColor(color2)
    ensures BlendColor(color1, color2, 1.0) == LowerCase(color2)
  {
    ParseHexColor(color1);
    ParseHexColor(color2);
    BlendChannelEnds(ByteAt(color1, 1), ByteAt(color2, 1));
    BlendChannelEnds(ByteAt(color1, 3), ByteAt(color2, 3));
    BlendChannelEnds(ByteAt(color1, 5), ByteAt(color2, 5));
    ParseFormatRoundTrip(color2);
  }

  /** Three NaN channels are written as `NaN` each. */
  lemma FormatNaN()
    ensures FormatColor(Rgb(NaN, NaN, NaN)) == "#NaNNaNNaN"
  {
    assert FormatChannel(NaN) == "NaN";
  }

  /** A colour without a single radix-16 digit, on either side, yields
      `#NaNNaNNaN`, whatever it is blended with and by whatever factor. */
  lemma BlendColorMalformed(color1: string, color2: string, factor: real)
    requires NoHexDigit(color1) || NoHexDigit(color2)
    ensures BlendColor(color1, color2, factor) == "#NaNNaNNaN"
  {
    var c1, c2 := ParseColor(color1), ParseColor(color2);
    assert BlendColor(color1, color2, factor)
        == FormatColor(Rgb(BlendChannel(c1.r, c2.r, factor), BlendChannel(c1.g, c2.g, factor),
                           BlendChannel(c1.b, c2.b, factor)));
    FormatNaN();
  }
}
