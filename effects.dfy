/**
 * The per-pixel arithmetic and band geometry of the glitch effects, as pure
 * functions: the Streak end and mix, the Burst and ColorBoost blends in
 * 16-bit fixed point with `uint32` wrap-around, the single-channel copy, the
 * wrap-around of sampling coordinates and the band layout of Split.
 */
module Effects {
  import opened Pixel
  import opened Helpers

  datatype Option<T> = None | Some(value: T)


  // ----- Streak -----

  /** The column where a streak started at `x` stops walking (`streakEnd`):
      leftward it is never right of column 0, whatever the length, because the
      source takes `minInt(x-length, Min.X)`; rightward the walk condition
      `x >= streakEnd` already fails at the start unless `length == 0`. */
  function StreakEnd(x: int, length: int, left: bool, width: int): (e: int)
    requires 0 <= x < width
    ensures left ==> e <= 0
    ensures !left && length != 0 ==> x < e
    ensures !left && length == 0 ==> e == x
  {
    if length < 0 then (if left then 0 else width)
    else if left then MinInt(x - length, 0)
    else MinInt(x + length, width)
  }

  /** One streak step: three quarters of the carried colour `k` and a quarter
      of the pixel `p` under it, per 16-bit channel, brought back to 8 bits by
      the float conversion `conv` (the source's `c`). */
  function StreakMix(k: Color, p: Color, conv: nat -> byte): Color
  {
    var k16, p16 := Expand(k), Expand(p);
    Color(conv(k16.r / 4 * 3 + p16.r / 4), conv(k16.g / 4 * 3 + p16.g / 4),
          conv(k16.b / 4 * 3 + p16.b / 4), conv(k16.a / 4 * 3 + p16.a / 4))
  }

  /** The colour a leftward streak started at column `x0` of `row` leaves
      at column `i`: the colour it carries there (the start pixel itself at
      the start, then what it left one column to the right) mixed with the
      pixel under it. */
  function StreakCarry(row: seq<Color>, x0: int, i: int, conv: nat -> byte): Color
    requires 0 <= i <= x0 < |row|
    decreases x0 - i
  {
    StreakMix(if i == x0 then row[x0] else StreakCarry(row, x0, i + 1, conv), row[i], conv)
  }

  /** A row after a leftward streak from column `x0`: every column up to
      `x0` holds the colour the streak left there, the columns to its right
      are kept. */
  function StreakOnce(row: seq<Color>, x0: int, conv: nat -> byte): (r: seq<Color>)
    requires 0 <= x0 < |row|
    ensures |r| == |row|
    ensures forall i :: 0 <= i < |row| ==> r[i] == if i <= x0 then StreakCarry(row, x0, i, conv) else row[i]
  {
    seq(|row|, (i: int) requires 0 <= i < |row| => if i <= x0 then StreakCarry(row, x0, i, conv) else row[i])
  }

  /** What a streak leaves at a column depends only on the pixels from that
      column to its start: the columns right of the start play no part. */
  lemma {:induction false} StreakCarryLocal(row: seq<Color>, row': seq<Color>, x0: int, i: int, conv: nat -> byte)
    requires 0 <= i <= x0 < |row| && x0 < |row'| && row[i..x0 + 1] == row'[i..x0 + 1]
    ensures StreakCarry(row, x0, i, conv) == StreakCarry(row', x0, i, conv)
    decreases x0 - i
  {
    assert row[i] == row[i..x0 + 1][0] && row'[i] == row'[i..x0 + 1][0];
    assert row[x0] == row[i..x0 + 1][x0 - i] && row'[x0] == row'[i..x0 + 1][x0 - i];
    if i < x0 {
      assert row[i + 1..x0 + 1] == row[i..x0 + 1][1..];
      assert row'[i + 1..x0 + 1] == row'[i..x0 + 1][1..];
      StreakCarryLocal(row, row', x0, i + 1, conv);
    }
  }

  // ----- Burst -----

  lemma MulBound(x: nat, y: nat, xMax: nat, yMax: nat)
    requires x <= xMax && y <= yMax
    ensures x * y <= xMax * yMax
  {
    assert x * y <= xMax * y;
    assert xMax * y <= xMax * yMax;
  }

  /** Burst's weight of the neighbour channels, `MAXC - sa*alpha/MAXC`. The
      product never wraps, so the weight lies between `MAXC - alpha` and
      `MAXC`, and it is exactly `MAXC - alpha` for an opaque pixel. */
  function BurstWeight(sa: u16, alpha: int): (w: nat)
    requires 0 <= alpha < MAXC
    ensures MAXC - alpha <= w <= MAXC
    ensures sa == MAXC ==> w == MAXC - alpha
  {
    MulBound(sa, alpha, MAXC, alpha);
    assert U32(sa * alpha) == sa * alpha;
    assert (sa * alpha) / MAXC <= alpha by {
      assert MAXC * alpha / MAXC == alpha;
    }
    MAXC - U32(sa * alpha) / MAXC
  }

  /** One channel of Burst's blend: `(d*w + s*alpha) / MAXC` with the products
      and the sum wrapping at 2^32 and the quotient truncated to `uint16`. */
  function BurstChannel(d: u16, s: u16, sa: u16, alpha: int): u16
    requires 0 <= alpha < MAXC
  {
    U16(U32(U32(d * BurstWeight(sa, alpha)) + U32(s * alpha)) / MAXC)
  }

  /** A weighted sum of two values between `lo` and `hi` lies between the
      bounds times the total weight. */
  lemma ConvexBounds(d: nat, s: nat, w: nat, alpha: nat, lo: nat, hi: nat)
    requires lo <= d <= hi && lo <= s <= hi
    ensures lo * (w + alpha) <= d * w + s * alpha <= hi * (w + alpha)
  {
    MulBound(lo, w, d, w);
    MulBound(lo, alpha, s, alpha);
    MulBound(d, w, hi, w);
    MulBound(s, alpha, hi, alpha);
  }

  /** Multiplying by a non-negative factor keeps the order. */
  lemma MulMono(x: int, y: int, c: int)
    requires c >= 0
    ensures x <= y ==> x * c <= y * c
  {
    if x <= y {
      MulBound(0, 0, y - x, c);
      assert y * c - x * c == (y - x) * c;
    }
  }

  /** Dividing by `m` keeps a value between `lo` and `hi` when it was between
      `lo*m` and `hi*m`. */
  lemma DivBetween(n: nat, m: nat, lo: nat, hi: nat)
    requires m > 0 && lo * m <= n <= hi * m
    ensures lo <= n / m <= hi
  {
    var q := n / m;
    assert q * m <= n < q * m + m;
    MulMono(q + 1, lo, m);
    MulMono(hi + 1, q, m);
  }

  /** With weights adding up to `MAXC`, neither the products nor their sum
      reach 2^32. */
  lemma NoWrapSum(d: u16, s: u16, w: nat, alpha: nat)
    requires w + alpha == MAXC
    ensures U32(U32(d * w) + U32(s * alpha)) == d * w + s * alpha <= MAXC * MAXC
  {
    ConvexBounds(d, s, w, alpha, 0, MAXC);
    assert MAXC * (w + alpha) == 0xFFFE_0001;
    var dw, sa := d * w, s * alpha;
    assert 0 <= dw && 0 <= sa && dw + sa <= 0xFFFE_0001;
    assert U32(dw) == dw && U32(sa) == sa;
    assert U32(dw + sa) == dw + sa;
  }

  /** For an opaque pixel nothing in the blend wraps: the channel is the
      exact weighted mean `(d*(MAXC - alpha) + s*alpha) / MAXC`. */
  lemma BurstChannelExact(d: u16, s: u16, alpha: int)
    requires 0 <= alpha < MAXC
    ensures BurstChannel(d, s, MAXC, alpha) == (d * (MAXC - alpha) + s * alpha) / MAXC
  {
    var w := MAXC - alpha;
    assert BurstWeight(MAXC, alpha) == w;
    NoWrapSum(d, s, w, alpha);
    DivBetween(d * w + s * alpha, MAXC, 0, MAXC);
  }

  /** For an opaque pixel the blend is a convex combination: the new channel
      lies between the neighbour's and the pixel's own. */
  lemma {:induction false} BurstChannelBetween(d: u16, s: u16, alpha: int)
    requires 0 <= alpha < MAXC
    ensures MinInt(d, s) <= BurstChannel(d, s, MAXC, alpha) <= MaxInt(d, s)
  {
    BurstChannelExact(d, s, alpha);
    var w := MAXC - alpha;
    ConvexBounds(d, s, w, alpha, MinInt(d, s), MaxInt(d, s));
    DivBetween(d * w + s * alpha, MAXC, MinInt(d, s), MaxInt(d, s));
  }

  /** The pixel Burst writes: each channel is blended with a different
      diagonal neighbour's channel (`dr`, `dg`, `db`, `da`), all weighted by
      the pixel's own alpha, and stored back at 8 bits. */
  function BurstPixel(s: Color, dr: byte, dg: byte, db: byte, da: byte, alpha: int): Color
    requires 0 <= alpha < MAXC
  {
    var e := Expand(s);
    Store64(Color64(BurstChannel(Wide(dr), e.r, e.a, alpha), BurstChannel(Wide(dg), e.g, e.a, alpha),
                    BurstChannel(Wide(db), e.b, e.a, alpha), BurstChannel(Wide(da), e.a, e.a, alpha)))
  }

  /** Storing keeps the high byte, which preserves order. */
  lemma HighBetween(v: u16, a: byte, b: byte)
    requires MinInt(Wide(a), Wide(b)) <= v <= MaxInt(Wide(a), Wide(b))
    ensures MinInt(a, b) <= High8(v) <= MaxInt(a, b)
  {
  }

  /** On an opaque pixel every stored channel of Burst lies between the
      neighbour's channel and the pixel's own. */
  lemma {:induction false} BurstPixelBetween(s: Color, dr: byte, dg: byte, db: byte, da: byte, alpha: int)
    requires 0 <= alpha < MAXC && s.a == 0xFF
    ensures var p := BurstPixel(s, dr, dg, db, da, alpha);
      && MinInt(dr, s.r) <= p.r <= MaxInt(dr, s.r) && MinInt(dg, s.g) <= p.g <= MaxInt(dg, s.g)
      && MinInt(db, s.b) <= p.b <= MaxInt(db, s.b) && MinInt(da, s.a) <= p.a <= MaxInt(da, s.a)
  {
    var e := Expand(s);
    assert e.a == MAXC;
    BurstChannelBetween(Wide(dr), e.r, alpha);
    BurstChannelBetween(Wide(dg), e.g, alpha);
    BurstChannelBetween(Wide(db), e.b, alpha);
    BurstChannelBetween(Wide(da), e.a, alpha);
    HighBetween(BurstChannel(Wide(dr), e.r, e.a, alpha), dr, s.r);
    HighBetween(BurstChannel(Wide(dg), e.g, e.a, alpha), dg, s.g);
    HighBetween(BurstChannel(Wide(db), e.b, e.a, alpha), db, s.b);
    HighBetween(BurstChannel(Wide(da), e.a, e.a, alpha), da, s.a);
  }

  // ----- ColorBoost -----

  /** ColorBoost's weight `na = MAXC - a*r/MAXC`, always taken from red and
      alpha whichever channel is boosted; the product never wraps. */
  function BoostWeight(a: u16, r: u16): (na: nat)
    ensures na <= MAXC
    ensures a == MAXC ==> na == MAXC - r
  {
    MulBound(a, r, MAXC, MAXC);
    assert U32(a * r) == a * r;
    assert (a * r) / MAXC <= MAXC by {
      MulBound(a, r, MAXC, r);
      assert MAXC * r / MAXC == r;
    }
    MAXC - U32(a * r) / MAXC
  }

  /** `(v*na + v*a) / MAXC` in `uint32` arithmetic, truncated to `uint16`. */
  function BoostChannel(v: u16, na: nat, a: u16): u16
  {
    U16(U32(U32(v * na) + U32(v * a)) / MAXC)
  }

  /** The pixel ColorBoost writes for the channel name `boost`. */
  function BoostPixel(c: Color, boost: string): (p: Color)
    ensures boost != "red" && boost != "green" && boost != "blue" ==> p == c
    ensures p.a == c.a
    ensures boost != "red" ==> p.r == c.r
    ensures boost != "green" ==> p.g == c.g
    ensures boost != "blue" ==> p.b == c.b
  {
    var e := Expand(c);
    var na := BoostWeight(e.a, e.r);
    Store64(Color64(if boost == "red" then BoostChannel(e.r, na, e.a) else e.r,
                    if boost == "green" then BoostChannel(e.g, na, e.a) else e.g,
                    if boost == "blue" then BoostChannel(e.b, na, e.a) else e.b,
                    e.a))
  }

  /** `r*(2m - r)` lies between `r*m` and `m*m` for `0 <= r <= m`. */
  lemma {:induction false} SquareGap(r: nat, m: nat)
    requires r <= m
    ensures r * m <= r * (2 * m - r) <= m * m
  {
    assert r * (2 * m - r) - r * m == r * (m - r);
    assert m * m - r * (2 * m - r) == (m - r) * (m - r);
    MulBound(0, 0, r, m - r);
    MulBound(0, 0, m - r, m - r);
  }

  /** The red boost of an opaque pixel in 16 bits: `r*(2*MAXC - r)/MAXC`,
      with nothing wrapping, between `r` and `MAXC`. */
  lemma {:induction false} BoostOpaqueRedChannel(r: u16)
    ensures BoostChannel(r, MAXC - r, MAXC) == r * (2 * MAXC - r) / MAXC
    ensures r <= r * (2 * MAXC - r) / MAXC <= MAXC
  {
    var na := MAXC - r;
    var sum := r * (2 * MAXC - r);
    assert r * na + r * MAXC == sum;
    SquareGap(r, MAXC);
    MulBound(r, na, MAXC, MAXC);
    MulBound(r, MAXC, MAXC, MAXC);
    assert U32(r * na) == r * na && U32(r * MAXC) == r * MAXC;
    assert U32(sum) == sum;
    DivBetween(sum, MAXC, r, MAXC);
    assert U16(sum / MAXC) == sum / MAXC;
  }

  /** Boosting red on an opaque pixel never lowers the stored red. */
  lemma {:induction false} BoostRedOpaque(c: Color)
    requires c.a == 0xFF
    ensures c.r <= BoostPixel(c, "red").r
  {
    var e := Expand(c);
    assert e.a == MAXC;
    assert BoostWeight(e.a, e.r) == MAXC - e.r;
    BoostOpaqueRedChannel(e.r);
    assert BoostPixel(c, "red").r == High8(BoostChannel(e.r, MAXC - e.r, MAXC));
  }

  /** Boosting green can wrap: on opaque (0, 200, 0) the sum `g*na + g*a`
      passes 2^32 and the stored green falls to 145. */
  lemma BoostGreenWraps()
    ensures BoostPixel(Color(0, 200, 0, 0xFF), "green") == Color(0, 145, 0, 0xFF)
  {
    var e := Expand(Color(0, 200, 0, 0xFF));
    assert e == Color64(0, 51400, 0, MAXC);
    assert BoostWeight(MAXC, 0) == MAXC;
    assert BoostChannel(51400, MAXC, MAXC) == 37262;
  }

  // ----- CopyChannel -----

  function ChannelOf(c: Color, ch: Channel): byte
  {
    match ch
    case Red => c.r
    case Green => c.g
    case Blue => c.b
    case Alpha => c.a
  }

  /** `CopyChannel`'s new pixel: `dst` with the channel `ch` taken from `src`,
      each channel read through `RGBA()` and cut back with `uint8`. */
  function CopyChannelColor(src: Color, dst: Color, ch: Channel): (p: Color)
    ensures ChannelOf(p, ch) == ChannelOf(src, ch)
    ensures forall o: Channel :: o != ch ==> ChannelOf(p, o) == ChannelOf(dst, o)
  {
    var s, d := Expand(src), Expand(dst);
    Color(Low8(if ch == Red then s.r else d.r), Low8(if ch == Green then s.g else d.g),
          Low8(if ch == Blue then s.b else d.b), Low8(if ch == Alpha then s.a else d.a))
  }

  /** A second copy into the same channel replaces the first. */
  lemma CopyChannelTwice(a: Color, b: Color, d: Color, ch: Channel)
    ensures CopyChannelColor(a, CopyChannelColor(b, d, ch), ch) == CopyChannelColor(a, d, ch)
  {
  }

  // ----- Sampling and bands -----

  /** The two wrap tests of the band copies: `t >= max` and `t > max`. */
  datatype Wrap = AtMax | PastMax

  /** A sampling coordinate after the wrap test: `t - max` when the test fires. */
  function WrapCoord(t: int, max: int, rule: Wrap): (u: int)
    ensures u == t || u == t - max
    ensures rule == AtMax && 0 <= t < 2 * max ==> 0 <= u < max
    ensures rule == PastMax && 0 <= t < 2 * max ==> (0 <= u < max <==> t != max)
  {
    if (rule == AtMax && t >= max) || (rule == PastMax && t > max) then t - max else t
  }

  /** Whether the row (or column) `pos` lies in a band that a Split copies:
      bands of `size` alternate between copy and skip, the first one a copy
      band exactly when `split` holds, and the walk stops at the first copy
      band that would run past `extent`. */
  predicate InCopyBand(pos: int, size: int, split: bool, extent: int)
    requires size > 0
  {
    0 <= pos && ((pos / size) % 2 == 0) == split && (pos / size + 1) * size <= extent
  }

  /** A position in `[k*size, (k+1)*size)` is in band `k`. */
  lemma BandIndex(pos: int, size: int, k: int)
    requires size > 0 && k >= 0 && k * size <= pos < (k + 1) * size
    ensures pos / size == k
  {
    var q := pos / size;
    assert q * size <= pos < q * size + size;
    MulMono(q + 1, k, size);
    MulMono(k + 1, q, size);
  }

  /** With `split == false` the first band is skipped. */
  lemma FirstBandSkipped(pos: int, size: int, extent: int)
    requires size > 0 && 0 <= pos < size
    ensures !InCopyBand(pos, size, false, extent)
  {
    BandIndex(pos, size, 0);
  }

  /** Bands alternate: moving one band down flips copy and skip, as long as
      the later band still fits. */
  lemma {:induction false} BandsAlternate(pos: int, size: int, split: bool, extent: int)
    requires size > 0 && 0 <= pos && (pos / size + 2) * size <= extent
    ensures InCopyBand(pos + size, size, split, extent) == !InCopyBand(pos, size, split, extent)
  {
    var k := pos / size;
    NextBand(pos, size);
    MulMono(k + 1, k + 2, size);
    assert (k + 1) % 2 == 0 <==> k % 2 != 0;
  }

  /** One band further down is the next band index. */
  lemma NextBand(pos: int, size: int)
    requires size > 0 && 0 <= pos
    ensures (pos + size) / size == pos / size + 1
  {
    var k := pos / size;
    assert (k + 1) * size == k * size + size && (k + 2) * size == k * size + 2 * size;
    BandIndex(pos + size, size, k + 1);
  }

  /** The last of the positions `0 .. n-1` that the map `f` sends to `t`:
      which write a pixel keeps when a row walk writes it more than once. */
  function LastWriter(t: int, n: nat, f: nat -> int): (w: Option<nat>)
    ensures w.Some? ==> w.value < n && f(w.value) == t
    ensures w.Some? ==> forall x: nat :: w.value < x < n ==> f(x) != t
    ensures w.None? ==> forall x: nat :: x < n ==> f(x) != t
  {
    if n == 0 then None else if f(n - 1) == t then Some(n - 1) else LastWriter(t, n - 1, f)
  }

  /** The write `x` is the last to hit `t` when no later position does. */
  lemma {:induction false} LastWriterIs(t: int, n: nat, f: nat -> int, x: nat)
    requires x < n && f(x) == t
    requires forall y: nat :: x < y < n ==> f(y) != t
    ensures LastWriter(t, n, f) == Some(x)
  {
    if x < n - 1 {
      LastWriterIs(t, n - 1, f, x);
    }
  }

  /** The column a band copy writes source column `x` to, for a horizontal
      offset `s`: `x + s`, less `width` once if that reaches `width`. */
  function ShiftMap(s: nat, width: nat): nat -> int
  {
    x => WrapCoord(x + s, width, AtMax)
  }

  /** A row walk over columns `0 .. width` (inclusive) with offset `s < width`
      is a rotation, except that the extra column `width` lands on column `s`
      last: so column `s` keeps what the read past the right edge gave. */
  lemma {:induction false} ShiftMapWriters(s: nat, width: nat, t: int)
    requires s < width && 0 <= t < width
    ensures LastWriter(t, width + 1, ShiftMap(s, width)) ==
      Some(if t == s then width else if t > s then t - s else t + width - s)
  {
    var f := ShiftMap(s, width);
    var x: nat := if t == s then width else if t > s then t - s else t + width - s;
    assert f(x) == WrapCoord(x + s, width, AtMax) == t;
    forall y: nat | x < y < width + 1
      ensures f(y) != t
    {
      assert f(y) == WrapCoord(y + s, width, AtMax);
    }
    LastWriterIs(t, width + 1, f, x);
  }
}
