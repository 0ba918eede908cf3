/**
 * The colour helpers of the effect library: hex colour parsing, the cyclic
 * channel shift, the random channel choice and `minInt`.
 */
module Helpers {
  import opened Pixel
  import opened Scan

  /** The channels of a pixel, in the order of the Go constants. */
  datatype Channel = Red | Green | Blue | Alpha

  /** `RandomChannel`, given the `rand.Float32()` draw `f`. */
  function RandomChannel(f: real): (ch: Channel)
    ensures ch != Alpha
    ensures ch == Green <==> f < 0.33
    ensures ch == Red <==> 0.33 <= f < 0.66
    ensures ch == Blue <==> 0.66 <= f
  {
    if f < 0.33 then Green else if f < 0.66 then Red else Blue
  }

  /** Every colour channel is chosen by some draw of `[0, 1)`, and alpha by none. */
  lemma RandomChannelOnto(ch: Channel)
    ensures ch != Alpha <==> exists f: real :: 0.0 <= f < 1.0 && RandomChannel(f) == ch
  {
    if ch != Alpha {
      var f := if ch == Green then 0.0 else if ch == Red then 0.5 else 0.9;
      assert RandomChannel(f) == ch;
    }
  }

  function MinInt(a: int, b: int): (m: int)
    ensures m <= a && m <= b
    ensures m == a || m == b
  {
    if a < b then a else b
  }

  /** The program's `maxInt`, the counterpart of `minInt`. The program never
      calls it; the model uses it to state clipping, bounds and frame counts. */
  function MaxInt(a: int, b: int): (m: int)
    ensures a <= m && b <= m
    ensures m == a || m == b
  {
    if a > b then a else b
  }

  /** `ParseHexColor`: `#RRGGBB` or `#RGB`, fully opaque. Go also returns the
      partly filled colour beside an error; every caller discards it. */
  function ParseHexColor(s: string): (res: Result<Color>)
    ensures |s| != 4 && |s| != 7 ==> res.Err?
    ensures res.Ok? ==> res.value.a == 0xFF
    ensures |s| == 4 && res.Ok? ==> res.value.r % 17 == 0 && res.value.g % 17 == 0 && res.value.b % 17 == 0
  {
    if |s| == 7 then
      match ScanHexTriple(s, 2)
      case Err(m) => Err(m)
      case Ok((r, g, b)) => Ok(Color(r, g, b, 0xFF))
    else if |s| == 4 then
      match ScanHexTriple(s, 1)
      case Err(m) => Err(m)
      case Ok((r, g, b)) => Ok(Color(Widen4(r), Widen4(g), Widen4(b), 0xFF))
    else
      Err("invalid llength, must be 7 or 4")
  }

  /** A short-form digit scaled by 17 into a byte (`0xf` becomes `0xff`). */
  function Widen4(v: nat): (b: byte)
    requires v < 16
    ensures b == 17 * v && b % 17 == 0
  {
    Low8(v * 17)
  }

  /** The two lower-case hexadecimal digits of a byte. */
  function Hex2(v: byte): (t: string)
    ensures |t| == 2 && AllHexDigits(t) && HexValue(t) == v
  {
    var t := [HexChar(v / 16), HexChar(v % 16)];
    assert t[..1] == [HexChar(v / 16)];
    t
  }

  /** `#RRGGBB` for a colour's red, green and blue. */
  function FormatHex(c: Color): (s: string)
    ensures |s| == 7
  {
    "#" + Hex2(c.r) + Hex2(c.g) + Hex2(c.b)
  }

  /** A width-2 verb at a run of two hex digits reads exactly that pair. */
  lemma ScanHexPair(s: string, i: nat)
    requires i + 2 <= |s| && IsHexDigit(s[i]) && IsHexDigit(s[i + 1])
    ensures ScanHex(s, i, 2) == Ok((HexValue(s[i..i + 2]), i + 2))
  {
    assert SpaceWidth(s, i) == 0;
    assert SkipSpaces(s, i) == i;
    assert TokenEnd(s, i + 2, 0) == i + 2;
    assert TokenEnd(s, i, 2) == i + 2;
  }

  /** The long form: `#` and six hex digits of either case give, channel by
      channel, the value of each two-digit pair, opaque. */
  lemma ParseLongForm(s: string)
    requires |s| == 7 && s[0] == '#' && forall k :: 1 <= k < 7 ==> IsHexDigit(s[k])
    ensures ParseHexColor(s) == Ok(Color(HexValue(s[1..3]), HexValue(s[3..5]), HexValue(s[5..7]), 0xFF))
  {
    ScanHexPair(s, 1);
    ScanHexPair(s, 3);
    ScanHexPair(s, 5);
  }

  /** The long form parses its own formatting: `#` and the two-digit hex of
      red, green and blue give back those channels, opaque. */
  lemma {:induction false} ParseFormatRoundTrip(c: Color)
    ensures ParseHexColor(FormatHex(c)) == Ok(Color(c.r, c.g, c.b, 0xFF))
  {
    var s := FormatHex(c);
    assert s[1..3] == Hex2(c.r) && s[3..5] == Hex2(c.g) && s[5..7] == Hex2(c.b);
    ScanHexPair(s, 1);
    ScanHexPair(s, 3);
    ScanHexPair(s, 5);
  }

  /** The short form: a `#` and three hex digits, each channel its digit times 17;
      anything else of length 4 (a space, an underscore, a missing `#`) fails. */
  lemma {:induction false} ParseShortForm(s: string)
    requires |s| == 4
    ensures ParseHexColor(s).Ok? <==> s[0] == '#' && IsHexDigit(s[1]) && IsHexDigit(s[2]) && IsHexDigit(s[3])
    ensures ParseHexColor(s).Ok? ==>
      ParseHexColor(s).value == Color(17 * DigitValue(s[1]), 17 * DigitValue(s[2]), 17 * DigitValue(s[3]), 0xFF)
  {
    if s[0] == '#' && IsHexDigit(s[1]) && IsHexDigit(s[2]) && IsHexDigit(s[3]) {
      ScanHexDigit(s, 1);
      ScanHexDigit(s, 2);
      ScanHexDigit(s, 3);
    }
  }

  /** A width-1 verb at a hex digit reads that digit. */
  lemma ScanHexDigit(s: string, i: nat)
    requires i < |s| && IsHexDigit(s[i])
    ensures ScanHex(s, i, 1) == Ok((DigitValue(s[i]), i + 1))
  {
    assert SpaceWidth(s, i) == 0;
    assert SkipSpaces(s, i) == i;
    assert TokenEnd(s, i + 1, 0) == i + 1;
    assert s[i..i + 1] == [s[i]];
    assert s[i..i + 1][..0] == [];
  }

  /** `#0f0` is pure opaque green. */
  lemma ParseShortGreen()
    ensures ParseHexColor("#0f0") == Ok(Color(0, 0xFF, 0, 0xFF))
  {
    ParseShortForm("#0f0");
  }

  /** The long form is lenient the way `Sscanf` is: a final field of one digit
      followed by a stray byte still parses. */
  lemma ParseShortFinalField()
    ensures ParseHexColor("#12345g") == Ok(Color(0x12, 0x34, 0x5, 0xFF))
  {
    var s := "#12345g";
    ScanHexPair(s, 1);
    ScanHexPair(s, 3);
    assert HexValue(s[1..3]) == 0x12 by { assert s[1..3][..1] == "1"; }
    assert HexValue(s[3..5]) == 0x34 by { assert s[3..5][..1] == "3"; }
    assert SkipSpaces(s, 5) == 5;
    assert TokenEnd(s, 6, 1) == 6;
    assert TokenEnd(s, 5, 2) == 6;
    assert s[5..6] == "5" && "5"[..0] == [];
  }

  /** A no-break space (U+00A0, the bytes C2 A0) before a verb is skipped
      like a blank: `#f`, the space, then `fff` reads as 0f, ff and 0f. */
  lemma ParseNoBreakSpace()
    ensures ParseHexColor(['#', 'f', 0xC2 as char, 0xA0 as char, 'f', 'f', 'f']) == Ok(Color(0x0f, 0xff, 0x0f, 0xFF))
  {
    var s := ['#', 'f', 0xC2 as char, 0xA0 as char, 'f', 'f', 'f'];
    assert SkipSpaces(s, 1) == 1 && TokenEnd(s, 2, 1) == 2 && TokenEnd(s, 1, 2) == 2;
    assert s[1..2] == "f" && "f"[..0] == [];
    assert SpaceWidth(s, 2) == 2 && SkipSpaces(s, 4) == 4 && SkipSpaces(s, 2) == 4;
    ScanHexPair(s, 4);
    assert HexValue(s[4..6]) == 0xff by { assert s[4..6][..1] == "f"; }
    assert SkipSpaces(s, 6) == 6 && TokenEnd(s, 7, 1) == 7 && TokenEnd(s, 6, 2) == 7;
    assert s[6..7] == "f";
  }

  /** `shiftColor`: with `left == 1` the channels rotate to (g, b, r), with any
      other value to (b, r, g); alpha is kept. Each channel goes through
      `RGBA()` and back through `uint8`, which takes the low byte. */
  function ShiftColor(c: Color, left: int): (o: Color)
    ensures left == 1 ==> o == Color(c.g, c.b, c.r, c.a)
    ensures left != 1 ==> o == Color(c.b, c.r, c.g, c.a)
  {
    var r, g, b, a := Wide(c.r), Wide(c.g), Wide(c.b), Wide(c.a);
    if left == 1 then Color(Low8(g), Low8(b), Low8(r), Low8(a))
    else Color(Low8(b), Low8(r), Low8(g), Low8(a))
  }

  /** The two directions undo each other, and three shifts one way are the identity. */
  lemma ShiftColorInverse(c: Color, left: int)
    ensures ShiftColor(ShiftColor(c, 0), 1) == c
    ensures ShiftColor(ShiftColor(c, 1), 0) == c
    ensures ShiftColor(ShiftColor(ShiftColor(c, left), left), left) == c
  {
  }

  /** The share `n * d / 100` the band walks take of an image side. The
      product is written as `d` additions of `n`, so that stating it keeps
      the arithmetic linear; `PercentIsShare` ties it to `n * d / 100`. */
  function Percent(n: nat, d: nat): nat
  {
    Times(n, d) / 100
  }

  /** `n` added `d` times. */
  function Times(n: nat, d: nat): nat
    decreases d
  {
    if d == 0 then 0 else Times(n, d - 1) + n
  }

  lemma {:induction false} TimesIsProduct(n: nat, d: nat)
    ensures Times(n, d) == n * d
    decreases d
  {
    if d > 0 {
      TimesIsProduct(n, d - 1);
    }
  }

  /** `Percent` is the Go expression `n * d / 100`, and no share beyond
      100 percent exceeds the side. */
  lemma PercentIsShare(n: nat, d: nat)
    ensures Percent(n, d) == n * d / 100
    ensures d <= 100 ==> Percent(n, d) <= n
  {
    TimesIsProduct(n, d);
    if d <= 100 {
      TimesGrows(n, d, 100);
      TimesIsProduct(n, 100);
    }
  }

  /** More additions of `n` give no less. */
  lemma {:induction false} TimesGrows(n: nat, d: nat, e: nat)
    requires d <= e
    ensures Times(n, d) <= Times(n, e)
    decreases e - d
  {
    if d < e {
      TimesGrows(n, d, e - 1);
    }
  }
}
