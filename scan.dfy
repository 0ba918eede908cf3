/**
 * The part of Go's `fmt.Sscanf` that `ParseHexColor` relies on: a literal
 * `#` followed by three `%Nx` verbs scanning unsigned hexadecimal numbers of
 * at most N characters. A Go string is modelled as the sequence of its bytes,
 * each byte written as the character with that code.
 *
 * Before each verb the scanner skips white space (the UTF-8 encoded runes of
 * fmt's `isSpace` table) and fails on a newline;
 * it then takes the longest run (at most N characters) of hexadecimal digits
 * and underscores, fails when the run is empty, and hands the run to
 * `strconv.ParseUint` with base 16, which rejects any underscore. Input left
 * over after the last verb is not an error.
 */
module Scan {

  datatype Result<T> = Ok(value: T) | Err(msg: string)

  predicate IsHexDigit(ch: char)
  {
    '0' <= ch <= '9' || 'a' <= ch <= 'f' || 'A' <= ch <= 'F'
  }

  /** The characters fmt's hexadecimal scanner accepts into a token. */
  predicate IsTokenChar(ch: char)
  {
    IsHexDigit(ch) || ch == '_'
  }

  /** The runes fmt's `isSpace` table holds: `\t` to `\r` (the newline
      among them), the space, U+0085, U+00A0, U+1680, U+2000 to U+200A,
      U+2028, U+2029, U+202F, U+205F and U+3000. */
  predicate IsSpaceRune(r: int)
  {
    || 0x09 <= r <= 0x0D || r == 0x20 || r == 0x85 || r == 0xA0 || r == 0x1680
    || 0x2000 <= r <= 0x200A || r == 0x2028 || r == 0x2029 || r == 0x202F
    || r == 0x205F || r == 0x3000
  }

  /** The UTF-8 encoding of a rune below U+10000, one byte per character. */
  function Utf8(r: nat): (t: string)
    requires r < 0x1_0000
    ensures 1 <= |t| <= 3
  {
    if r < 0x80 then [r as char]
    else if r < 0x800 then [(0xC0 + r / 64) as char, (0x80 + r % 64) as char]
    else [(0xE0 + r / 4096) as char, (0x80 + r / 64 % 64) as char, (0x80 + r % 64) as char]
  }

  /** The three-byte encodings of the white-space runes from U+1680 on. */
  predicate IsSpace3(b0: int, b1: int, b2: int)
  {
    || (b0 == 0xE1 && b1 == 0x9A && b2 == 0x80)
    || (b0 == 0xE2 && b1 == 0x80 && (0x80 <= b2 <= 0x8A || b2 == 0xA8 || b2 == 0xA9 || b2 == 0xAF))
    || (b0 == 0xE2 && b1 == 0x81 && b2 == 0x9F)
    || (b0 == 0xE3 && b1 == 0x80 && b2 == 0x80)
  }

  /** The length in bytes of the white-space rune the scanner skips at index
      `i` before a verb, or 0 when none starts there. The newline is not
      skipped: the scanner fails on it instead. */
  function SpaceWidth(s: string, i: nat): (w: nat)
    requires i <= |s|
    ensures i + w <= |s| && w <= 3
    ensures forall k :: i <= k < i + w ==> s[k] != '\n' && !IsTokenChar(s[k])
  {
    if i == |s| then 0
    else
      var b := s[i] as int;
      if b == 0x09 || b == 0x0B || b == 0x0C || b == 0x0D || b == 0x20 then 1
      else if i + 1 < |s| && b == 0xC2 && (s[i + 1] as int == 0x85 || s[i + 1] as int == 0xA0) then 2
      else if i + 2 < |s| && IsSpace3(b, s[i + 1] as int, s[i + 2] as int) then 3
      else 0
  }

  function DigitValue(ch: char): (v: nat)
    requires IsHexDigit(ch)
    ensures v < 16
  {
    if '0' <= ch <= '9' then ch as int - '0' as int
    else if 'a' <= ch <= 'f' then ch as int - 'a' as int + 10
    else ch as int - 'A' as int + 10
  }

  /** The lower-case hexadecimal digit of a value below 16. */
  function HexChar(v: nat): (ch: char)
    requires v < 16
    ensures IsHexDigit(ch) && DigitValue(ch) == v
  {
    if v < 10 then ('0' as int + v) as char else ('a' as int + v - 10) as char
  }

  predicate AllHexDigits(t: string)
  {
    forall k :: 0 <= k < |t| ==> IsHexDigit(t[k])
  }

  /** The number a run of hexadecimal digits denotes (most significant first). */
  function HexValue(t: string): (v: nat)
    requires AllHexDigits(t)
    ensures |t| <= 1 ==> v < 16
    ensures |t| <= 2 ==> v < 0x100
  {
    if t == [] then 0 else HexValue(t[..|t| - 1]) * 16 + DigitValue(t[|t| - 1])
  }

  /** Every white-space rune of fmt's table but the newline, encoded at
      index `i`, is skipped whole. */
  lemma SpaceRuneSkipped(s: string, i: nat, r: nat)
    requires r < 0x1_0000 && IsSpaceRune(r) && r != 0x0A
    requires i + |Utf8(r)| <= |s| && s[i..i + |Utf8(r)|] == Utf8(r)
    ensures SpaceWidth(s, i) == |Utf8(r)|
  {
    var t := Utf8(r);
    assert s[i] == t[0];
    if |t| > 1 {
      assert s[i + 1] == t[1];
    }
    if |t| > 2 {
      assert s[i + 2] == t[2];
    }
  }

  /** What the scanner skips at index `i` is the encoding of a white-space
      rune of fmt's table other than the newline. */
  lemma SkippedIsSpaceRune(s: string, i: nat)
    requires i <= |s| && SpaceWidth(s, i) > 0
    ensures exists r: nat :: r < 0x1_0000 && IsSpaceRune(r) && r != 0x0A && s[i..i + SpaceWidth(s, i)] == Utf8(r)
  {
    var w := SpaceWidth(s, i);
    var b0 := s[i] as int;
    if w == 1 {
      assert s[i..i + w] == Utf8(b0);
    } else if w == 2 {
      var r := s[i + 1] as int;
      assert s[i..i + w] == Utf8(r);
    } else {
      var b1, b2 := s[i + 1] as int, s[i + 2] as int;
      var r := (b0 - 0xE0) * 4096 + (b1 - 0x80) * 64 + (b2 - 0x80);
      assert r / 4096 == b0 - 0xE0 && r / 64 % 64 == b1 - 0x80 && r % 64 == b2 - 0x80;
      assert s[i..i + w] == Utf8(r);
    }
  }

  /** Index of the first character at or after `i` that the scanner does not
      skip as white space. */
  function SkipSpaces(s: string, i: nat): (j: nat)
    requires i <= |s|
    ensures i <= j <= |s|
    ensures j > i ==> SpaceWidth(s, i) > 0
    ensures forall k :: i <= k < j ==> s[k] != '\n' && !IsTokenChar(s[k])
    ensures SpaceWidth(s, j) == 0
    decreases |s| - i
  {
    var w := SpaceWidth(s, i);
    if w > 0 then SkipSpaces(s, i + w) else i
  }

  /** Index just past the longest run of token characters from `i`, at most
      `width` of them. */
  function TokenEnd(s: string, i: nat, width: nat): (e: nat)
    requires i <= |s|
    ensures i <= e <= |s| && e - i <= width
    ensures forall k :: i <= k < e ==> IsTokenChar(s[k])
    ensures e - i < width && e < |s| ==> !IsTokenChar(s[e])
    decreases width
  {
    if width == 0 || i == |s| || !IsTokenChar(s[i]) then i else TokenEnd(s, i + 1, width - 1)
  }

  /** One `%<width>x` verb scanning from index `i`: the value and the index after it. */
  function ScanHex(s: string, i: nat, width: nat): (res: Result<(nat, nat)>)
    requires i <= |s| && 0 < width
    ensures res.Ok? ==> i < res.value.1 <= |s|
    ensures res.Ok? && res.value.1 == i + 1 ==> IsHexDigit(s[i]) && res.value.0 == DigitValue(s[i])
    ensures res.Ok? && width <= 2 ==> res.value.0 < 0x100
    ensures res.Ok? && width == 1 ==> res.value.0 < 16
  {
    var j := SkipSpaces(s, i);
    if j == |s| then Err("unexpected EOF")
    else if s[j] == '\n' then Err("unexpected newline")
    else
      var e := TokenEnd(s, j, width);
      if e == j then Err("expected integer")
      else if !AllHexDigits(s[j..e]) then Err("invalid syntax")
      else Ok((HexValue(s[j..e]), e))
  }

  /** `fmt.Sscanf(s, "#%<w>x%<w>x%<w>x", &r, &g, &b)` into three `uint8`s. */
  function ScanHexTriple(s: string, width: nat): (res: Result<(nat, nat, nat)>)
    requires 0 < width <= 2
    ensures res.Ok? ==> res.value.0 < 0x100 && res.value.1 < 0x100 && res.value.2 < 0x100
    ensures res.Ok? && width == 1 ==> res.value.0 < 16 && res.value.1 < 16 && res.value.2 < 16
  {
    if |s| == 0 then Err("unexpected EOF")
    else if s[0] != '#' then Err("input does not match format")
    else
      match ScanHex(s, 1, width)
      case Err(m) => Err(m)
      case Ok((r, i)) =>
        match ScanHex(s, i, width)
        case Err(m) => Err(m)
        case Ok((g, j)) =>
          match ScanHex(s, j, width)
          case Err(m) => Err(m)
          case Ok((b, _)) => Ok((r, g, b))
  }
}
