/**
 * The effect library's `Img`: a read-only source image `In` and the output
 * `image.RGBA` `Out` that every effect rewrites in place. Both have their
 * origin at (0, 0) and the extent `Bounds.Max` = (W, H).
 */
module Soryu {
  import opened Pixel
  import opened Helpers
  import opened Effects
  import opened Random

  /** A band of rows `first .. last` (inclusive) that a BigLines walk copied
      on loop round `counter`, its first row's draws beginning at `pos`, or
      that a CopyChannelBigLines walk copied channel `ch` of; either way the
      columns move `shift` to the right (a BigLines column then adds its own
      jitter). */
  datatype Band =
    | LineBand(first: int, last: int, counter: int, pos: nat, shift: nat)
    | ChannelBand(first: int, last: int, ch: Channel, shift: nat)

  /** Row `y` lies in none of the bands. */
  predicate Outside(y: int, bands: seq<Band>)
  {
    forall i :: 0 <= i < |bands| ==> y < bands[i].first || bands[i].last < y
  }

  /** No band is empty, and each starts `step` rows past the end of the one
      before it. */
  ghost predicate Chained(bands: seq<Band>, step: int)
  {
    && (forall i :: 0 <= i < |bands| ==> bands[i].first <= bands[i].last)
    && forall i, j :: 0 <= i && j == i + 1 && j < |bands| ==> bands[j].first == bands[i].last + step
  }

  /** With a positive step every band lies wholly above the later ones. */
  lemma {:induction false} ChainedOrdered(bands: seq<Band>, step: int, i: int, j: int)
    requires Chained(bands, step) && step > 0 && 0 <= i < j < |bands|
    ensures bands[i].last < bands[j].first
    decreases j - i
  {
    if j > i + 1 {
      ChainedOrdered(bands, step, i, j - 1);
    }
  }

  /** With a positive step a row lies in at most one band. */
  lemma ChainedCoverOnce(bands: seq<Band>, step: int, i: int, y: int)
    requires Chained(bands, step) && step > 0 && 0 <= i < |bands| && bands[i].first <= y <= bands[i].last
    ensures forall j :: 0 <= j < |bands| && j != i ==> y < bands[j].first || bands[j].last < y
  {
    forall j | 0 <= j < |bands| && j != i
      ensures y < bands[j].first || bands[j].last < y
    {
      if j < i {
        ChainedOrdered(bands, step, j, i);
      } else {
        ChainedOrdered(bands, step, i, j);
      }
    }
  }

  /** The half-open rectangle `image.Rect(x0, y0, x1, y1)`. */
  datatype Rect = Rect(x0: int, y0: int, x1: int, y1: int)

  /** Pixel (x, y) lies inside `r`. */
  predicate Covers(r: Rect, x: int, y: int)
  {
    r.x0 <= x < r.x1 && r.y0 <= y < r.y1
  }

  class Img {
    /** The source image, row by row: `In[y][x]`. */
    const In: seq<seq<Color>>
    /** `Bounds.Max.X` and `Bounds.Max.Y`. */
    const W: nat
    const H: nat
    /** The output image, `Out[x, y]`. */
    const Out: array2<Color>

    ghost predicate Valid()
    {
      Out.Length0 == W && Out.Length1 == H && |In| == H && forall y :: 0 <= y < H ==> |In[y]| == W
    }

    /** A fresh output of the source's extent, all zero, as `image.NewRGBA` makes it. */
    constructor (src: seq<seq<Color>>, w: nat, h: nat)
      requires |src| == h && forall y :: 0 <= y < h ==> |src[y]| == w
      ensures Valid() && In == src && W == w && H == h && fresh(Out)
      ensures forall x, y :: 0 <= x < w && 0 <= y < h ==> Out[x, y] == Transparent
    {
      In, W, H := src, w, h;
      Out := new Color[w, h]((x, y) => Transparent);
    }

    /** `In.At(x, y)`: the zero colour outside the bounds. */
    function InAt(x: int, y: int): Color
      requires Valid()
    {
      if 0 <= x < W && 0 <= y < H then In[y][x] else Transparent
    }

    /** `Out.At(x, y)`: the zero colour outside the bounds. */
    function OutAt(x: int, y: int): Color
      requires Valid()
      reads Out
    {
      if 0 <= x < W && 0 <= y < H then Out[x, y] else Transparent
    }

    /** `Copy`: the output becomes a copy of the source. */
    method Copy()
      requires Valid()
      modifies Out
      ensures forall x, y :: 0 <= x < W && 0 <= y < H ==> Out[x, y] == In[y][x]
    {
      var y := 0;
      while y < H
        invariant 0 <= y <= H
        invariant forall i, j :: 0 <= i < W && 0 <= j < y ==> Out[i, j] == In[j][i]
      {
        var x := 0;
        while x < W
          invariant 0 <= x <= W
          invariant forall i, j :: 0 <= i < W && 0 <= j < y ==> Out[i, j] == In[j][i]
          invariant forall i :: 0 <= i < x ==> Out[i, y] == In[y][i]
        {
          Out[x, y] := In[y][x];
          x := x + 1;
        }
        y := y + 1;
      }
    }

    /** The raster walk of ShiftChannel and ColorBoost: every pixel is read,
        recoloured by `f` and written back in place. */
    method MapPixels(f: Color -> Color)
      requires Valid()
      modifies Out
      ensures forall x, y :: 0 <= x < W && 0 <= y < H ==> Out[x, y] == f(old(Out[x, y]))
    {
      var y := 0;
      while y < H
        invariant 0 <= y <= H
        invariant forall i, j :: 0 <= i < W && 0 <= j < H ==>
          Out[i, j] == if j < y then f(old(Out[i, j])) else old(Out[i, j])
      {
        var x := 0;
        while x < W
          invariant 0 <= x <= W
          invariant forall i, j :: 0 <= i < W && 0 <= j < H ==>
            Out[i, j] == if j < y || (j == y && i < x) then f(old(Out[i, j])) else old(Out[i, j])
        {
          Out[x, y] := f(Out[x, y]);
          x := x + 1;
        }
        y := y + 1;
      }
    }

    /** `ShiftChannel`: every pixel's red, green and blue rotate (to g, b, r
        when `left`, to b, r, g otherwise); alpha is kept. */
    method ShiftChannel(left: bool)
      requires Valid()
      modifies Out
      ensures forall x, y :: 0 <= x < W && 0 <= y < H ==>
        Out[x, y] == ShiftColor(old(Out[x, y]), if left then 1 else 0)
      ensures forall x, y :: 0 <= x < W && 0 <= y < H ==> Out[x, y].a == old(Out[x, y]).a
    {
      var leftInt := if left then 1 else 0;
      MapPixels(c => ShiftColor(c, leftInt));
    }

    /** A right shift followed by a left shift leaves the output as it was. */
    method ShiftChannelRoundTrip()
      requires Valid()
      modifies Out
      ensures forall x, y :: 0 <= x < W && 0 <= y < H ==> Out[x, y] == old(Out[x, y])
    {
      ShiftChannel(false);
      ShiftChannel(true);
    }

    /** `ColorBoost`: every pixel becomes `BoostPixel` of itself, which changes
        only the channel named "red", "green" or "blue" and nothing for any
        other name. */
    method ColorBoost(boost: string)
      requires Valid()
      modifies Out
      ensures forall x, y :: 0 <= x < W && 0 <= y < H ==> Out[x, y] == BoostPixel(old(Out[x, y]), boost)
      ensures boost != "red" && boost != "green" && boost != "blue" ==>
        forall x, y :: 0 <= x < W && 0 <= y < H ==> Out[x, y] == old(Out[x, y])
    {
      MapPixels(c => BoostPixel(c, boost));
    }

    // ----- Split and VerticalSplit -----

    /** One row of a horizontal split: column `x` of row `y` takes the source
        pixel `width` columns further right, wrapped by `rule`. */
    method CopyRow(y: int, width: int, rule: Wrap)
      requires Valid() && 0 <= y < H
      modifies Out
      ensures forall i, j :: 0 <= i < W && 0 <= j < H ==>
        Out[i, j] == if j == y then InAt(WrapCoord(i + width, W, rule), y) else old(Out[i, j])
    {
      var x := 0;
      while x < W
        invariant 0 <= x <= W
        invariant forall i, j :: 0 <= i < W && 0 <= j < H ==>
          Out[i, j] == if j == y && i < x then InAt(WrapCoord(i + width, W, rule), y) else old(Out[i, j])
      {
        var tx := WrapCoord(x + width, W, rule);
        Out[x, y] := InAt(tx, y);
        x := x + 1;
      }
    }

    /** The band walk shared by both packages' `Split`, which differ only in
        the wrap test: bands of `height` rows alternate between copy and skip
        (the first a copy band exactly when `split`), the walk returns at the
        first copy band that would run past `Max.Y`, and every row of a copy
        band is filled from the source row shifted by `width`. Only `In` is read. */
    method SplitBands(height: int, width: int, split: bool, rule: Wrap)
      requires Valid() && (height > 0 || H == 0)
      modifies Out
      ensures forall x, y :: 0 <= x < W && 0 <= y < H ==>
        Out[x, y] == if InCopyBand(y, height, split, H) then InAt(WrapCoord(x + width, W, rule), y) else old(Out[x, y])
    {
      var cursor := 0;
      var copying := split;
      ghost var k := 0;
      while cursor < H
        invariant 0 <= k && cursor == k * height
        invariant copying == ((k % 2 == 0) == split)
        invariant forall x, y :: 0 <= x < W && 0 <= y < H ==>
          Out[x, y] == if y < cursor && InCopyBand(y, height, split, H) then InAt(WrapCoord(x + width, W, rule), y) else old(Out[x, y])
        decreases H - cursor
      {
        var next := cursor + height;
        assert next == (k + 1) * height;
        forall y | cursor <= y < next
          ensures InCopyBand(y, height, split, H) <==> copying && next <= H
        {
          BandIndex(y, height, k);
        }
        if copying {
          if next > H {
            return;
          }
          while cursor < next
            invariant k * height <= cursor <= next
            invariant forall x, y :: 0 <= x < W && 0 <= y < H ==>
              Out[x, y] == if y < cursor && InCopyBand(y, height, split, H) then InAt(WrapCoord(x + width, W, rule), y) else old(Out[x, y])
          {
            CopyRow(cursor, width, rule);
            cursor := cursor + 1;
          }
          cursor := next;
        } else {
          cursor := cursor + height;
        }
        copying := !copying;
        k := k + 1;
      }
    }

    /** `Split` of the effect library: the wrap fires when `x + width >= Max.X`. */
    method Split(height: int, width: int, split: bool)
      requires Valid() && (height > 0 || H == 0)
      modifies Out
      ensures forall x, y :: 0 <= x < W && 0 <= y < H ==>
        Out[x, y] == if InCopyBand(y, height, split, H) then InAt(WrapCoord(x + width, W, AtMax), y) else old(Out[x, y])
    {
      SplitBands(height, width, split, AtMax);
    }

    /** One column of a vertical split: row `y` of column `x` takes the source
        pixel `height` rows further down, wrapped only when past `Max.Y`. */
    method CopyColumn(x: int, height: int)
      requires Valid() && 0 <= x < W
      modifies Out
      ensures forall i, j :: 0 <= i < W && 0 <= j < H ==>
        Out[i, j] == if i == x then InAt(x, WrapCoord(j + height, H, PastMax)) else old(Out[i, j])
    {
      var y := 0;
      while y < H
        invariant 0 <= y <= H
        invariant forall i, j :: 0 <= i < W && 0 <= j < H ==>
          Out[i, j] == if i == x && j < y then InAt(x, WrapCoord(j + height, H, PastMax)) else old(Out[i, j])
      {
        var ty := WrapCoord(y + height, H, PastMax);
        Out[x, y] := InAt(x, ty);
        y := y + 1;
      }
    }

    /** `VerticalSplit`: the band walk of Split over columns of `width`,
        sampling `height` rows down; a sample row equal to `Max.Y` is not
        wrapped and reads the zero colour. */
    method VerticalSplit(width: int, height: int, split: bool)
      requires Valid() && (width > 0 || W == 0)
      modifies Out
      ensures forall x, y :: 0 <= x < W && 0 <= y < H ==>
        Out[x, y] == if InCopyBand(x, width, split, W) then InAt(x, WrapCoord(y + height, H, PastMax)) else old(Out[x, y])
    {
      var cursor := 0;
      var copying := split;
      ghost var k := 0;
      while cursor < W
        invariant 0 <= k && cursor == k * width
        invariant copying == ((k % 2 == 0) == split)
        invariant forall x, y :: 0 <= x < W && 0 <= y < H ==>
          Out[x, y] == if x < cursor && InCopyBand(x, width, split, W) then InAt(x, WrapCoord(y + height, H, PastMax)) else old(Out[x, y])
        decreases W - cursor
      {
        var next := cursor + width;
        assert next == (k + 1) * width;
        forall x | cursor <= x < next
          ensures InCopyBand(x, width, split, W) <==> copying && next <= W
        {
          BandIndex(x, width, k);
        }
        if copying {
          if next > W {
            return;
          }
          while cursor < next
            invariant k * width <= cursor <= next
            invariant forall x, y :: 0 <= x < W && 0 <= y < H ==>
              Out[x, y] == if x < cursor && InCopyBand(x, width, split, W) then InAt(x, WrapCoord(y + height, H, PastMax)) else old(Out[x, y])
          {
            CopyColumn(cursor, height);
            cursor := cursor + 1;
          }
          cursor := next;
        } else {
          cursor := cursor + width;
        }
        copying := !copying;
        k := k + 1;
      }
    }

    // ----- Burst -----

    /** The pixel Burst leaves at (x, y), in terms of the output before Burst
        ran. The walk is in raster order and reads `Out` as it goes, so the
        neighbours `offset` rows below are still the old pixels while those
        `offset` rows above already hold their new values. */
    function BurstAt(x: int, y: int, offset: int, alpha: int): Color
      requires Valid() && 0 <= x < W && 0 <= y < H && offset > 0 && 0 <= alpha < MAXC
      reads Out
      decreases y
    {
      var db := if 0 <= x + offset < W && 0 <= y - offset then BurstAt(x + offset, y - offset, offset, alpha).b else 0;
      var da := if 0 <= x - offset < W && 0 <= y - offset then BurstAt(x - offset, y - offset, offset, alpha).a else 0;
      BurstPixel(Out[x, y], OutAt(x + offset, y + offset).r, OutAt(x - offset, y + offset).g, db, da, alpha)
    }

    /** `Burst`: two draws, an offset in `[25, 25 + Max.Y/10)` and a global
        alpha in `[0, MAXC)`, then every pixel is blended with its diagonal
        neighbours. `rand.Intn` panics unless `Max.Y >= 10`. */
    method Burst(rng: Rand)
      requires Valid() && H >= 10
      modifies Out, rng
      ensures rng.Pos == old(rng.Pos) + 2
      ensures var offset := Draw(rng.Stream(old(rng.Pos)), H / 10) + 25;
              var alpha := Draw(rng.Stream(old(rng.Pos) + 1), MAXC);
              && 25 <= offset < 25 + H / 10
              && forall x, y :: 0 <= x < W && 0 <= y < H ==> Out[x, y] == old(BurstAt(x, y, offset, alpha))
    {
      var offset := rng.Intn(H / 10);
      offset := offset + 25;
      var alpha := rng.Intn(MAXC);
      var y := 0;
      while y < H
        modifies Out
        invariant 0 <= y <= H
        invariant forall i, j :: 0 <= i < W && 0 <= j < H ==>
          Out[i, j] == if j < y then old(BurstAt(i, j, offset, alpha)) else old(Out[i, j])
      {
        var x := 0;
        while x < W
          invariant 0 <= x <= W
          invariant forall i, j :: 0 <= i < W && 0 <= j < H ==>
            Out[i, j] == if j < y || (j == y && i < x) then old(BurstAt(i, j, offset, alpha)) else old(Out[i, j])
        {
          var dr := OutAt(x + offset, y + offset).r;
          var dg := OutAt(x - offset, y + offset).g;
          var db := OutAt(x + offset, y - offset).b;
          var da := OutAt(x - offset, y - offset).a;
          assert dr == old(OutAt(x + offset, y + offset)).r;
          assert dg == old(OutAt(x - offset, y + offset)).g;
          assert db == if 0 <= x + offset < W && 0 <= y - offset then old(BurstAt(x + offset, y - offset, offset, alpha)).b else 0;
          assert da == if 0 <= x - offset < W && 0 <= y - offset then old(BurstAt(x - offset, y - offset, offset, alpha)).a else 0;
          assert old(BurstAt(x, y, offset, alpha)) == BurstPixel(Out[x, y], dr, dg, db, da, alpha);
          Out[x, y] := BurstPixel(Out[x, y], dr, dg, db, da, alpha);
          x := x + 1;
        }
        y := y + 1;
      }
    }

    // ----- Streak -----

    /** The start column of streak `k` when the draws begin at `p`. */
    function StreakCol(stream: nat -> nat, p: nat, k: nat): int
      requires W > 0
    {
      Draw(stream(p + 2 * k), W)
    }

    /** The row of streak `k` when the draws begin at `p`. */
    function StreakRow(stream: nat -> nat, p: nat, k: nat): int
      requires H > 0
    {
      Draw(stream(p + 2 * k + 1), H)
    }

    /** Whether one of the first `n` streaks starts in row `y` at or right of column `x`. */
    ghost predicate StreakReaches(stream: nat -> nat, p: nat, n: nat, x: int, y: int)
    {
      W > 0 && H > 0 && exists k :: 0 <= k < n && StreakRow(stream, p, k) == y && x <= StreakCol(stream, p, k)
    }

    /** The output after the first `n` leftward streaks whose draws begin at
        `p`, over the picture `snap` (rows of pixels): each streak replaces
        its row by that row streaked from its start column. */
    ghost function StreakPic(snap: seq<seq<Color>>, stream: nat -> nat, p: nat, n: nat, conv: nat -> byte): (pic: seq<seq<Color>>)
      requires |snap| == H && forall y :: 0 <= y < H ==> |snap[y]| == W
      requires n > 0 ==> W > 0 && H > 0
      ensures |pic| == H && forall y :: 0 <= y < H ==> |pic[y]| == W
      decreases n
    {
      if n == 0 then snap
      else
        var prev := StreakPic(snap, stream, p, n - 1, conv);
        var y := StreakRow(stream, p, n - 1);
        prev[y := StreakOnce(prev[y], StreakCol(stream, p, n - 1), conv)]
    }

    /** A pixel no streak reaches, in a drawn row at or left of its start
        column, keeps its colour. */
    lemma {:induction false} StreakUntouched(snap: seq<seq<Color>>, stream: nat -> nat, p: nat, n: nat, conv: nat -> byte, x: int, y: int)
      requires |snap| == H && forall y :: 0 <= y < H ==> |snap[y]| == W
      requires n > 0 ==> W > 0 && H > 0
      requires 0 <= x < W && 0 <= y < H && !StreakReaches(stream, p, n, x, y)
      ensures StreakPic(snap, stream, p, n, conv)[y][x] == snap[y][x]
      decreases n
    {
      if n > 0 {
        assert !StreakReaches(stream, p, n - 1, x, y);
        StreakUntouched(snap, stream, p, n - 1, conv, x, y);
        assert !(StreakRow(stream, p, n - 1) == y && x <= StreakCol(stream, p, n - 1));
      }
    }

    /** Row `y` of the output. */
    ghost function Row(y: int): (row: seq<Color>)
      requires Valid() && 0 <= y < H
      reads Out
      ensures |row| == W && forall x :: 0 <= x < W ==> row[x] == Out[x, y]
    {
      seq(W, (x: int) requires 0 <= x < W reads Out => Out[x, y])
    }

    /** A leftward streak from (x, y) over the row `row` has walked the
        columns right of `cx`: those up to `x` hold the colours it left
        there, the rest of the row is `row`, and every other row is as in
        `snap`. */
    ghost predicate StreakWalked(x: int, y: int, cx: int, row: seq<Color>, conv: nat -> byte, snap: seq<seq<Color>>)
      requires Valid() && 0 <= x < W && 0 <= y < H && |row| == W
      requires |snap| == H && forall j :: 0 <= j < H ==> |snap[j]| == W
      reads Out
    {
      && (forall i, j :: 0 <= i < W && 0 <= j < H && j != y ==> Out[i, j] == snap[j][i])
      && (forall i :: 0 <= i < W && cx < i <= x ==> Out[i, y] == StreakCarry(row, x, i, conv))
      && (forall i :: 0 <= i < W && !(cx < i <= x) ==> Out[i, y] == row[i])
    }

    /** One step of a streak at column `cx`: the carried colour `k` is mixed
        with the pixel there, which takes the mix (nothing is written past
        the edge). Walking leftward, the columns from `cx` on are then
        walked. */
    method StreakStep(cx: int, y: int, k: Color, conv: nat -> byte,
                      ghost x: int, ghost row: seq<Color>, ghost snap: seq<seq<Color>>) returns (mixed: Color)
      requires Valid() && 0 <= x < W && 0 <= y < H && |row| == W && cx <= x
      requires |snap| == H && forall j :: 0 <= j < H ==> |snap[j]| == W
      requires StreakWalked(x, y, cx, row, conv, snap)
      requires cx >= 0 ==> k == if cx == x then row[x] else StreakCarry(row, x, cx + 1, conv)
      modifies Out
      ensures mixed == StreakMix(k, old(OutAt(cx, y)), conv)
      ensures forall i, j :: 0 <= i < W && 0 <= j < H ==> Out[i, j] == if i == cx && j == y then mixed else old(Out[i, j])
      ensures StreakWalked(x, y, cx - 1, row, conv, snap)
      ensures cx >= 0 ==> mixed == StreakCarry(row, x, cx, conv)
    {
      mixed := StreakMix(k, OutAt(cx, y), conv);
      if 0 <= cx < W {
        Out[cx, y] := mixed;
      }
    }

    /** One streak from (x, y): the carried colour starts as the pixel there
        and walks to `streakEnd`, mixed into each pixel it passes, which
        takes the mix. Leftward the walk covers every column from `x` down
        to 0 and goes on past the edge, where it reads the zero colour and
        writes nothing; rightward it ends before its first step. */
    method StreakWalk(x: int, y: int, length: int, left: bool, conv: nat -> byte, ghost row: seq<Color>)
      requires Valid() && 0 <= x < W && 0 <= y < H && (left || length != 0)
      requires |row| == W && forall i :: 0 <= i < W ==> Out[i, y] == row[i]
      modifies Out
      ensures left ==> forall i, j :: 0 <= i < W && 0 <= j < H ==>
        Out[i, j] == if j == y && i <= x then StreakCarry(row, x, i, conv) else old(Out[i, j])
      ensures !left ==> forall i, j :: 0 <= i < W && 0 <= j < H ==> Out[i, j] == old(Out[i, j])
    {
      ghost var snap := Snapshot();
      var k := OutAt(x, y);
      var streakEnd := StreakEnd(x, length, left, W);
      var cx := x;
      while cx >= streakEnd
        modifies Out
        invariant left ==> streakEnd - 1 <= cx <= x
        invariant !left ==> cx == x && cx < streakEnd
        invariant StreakWalked(x, y, cx, row, conv, snap)
        invariant cx >= 0 ==> k == if cx == x then row[x] else StreakCarry(row, x, cx + 1, conv)
        decreases if left then cx - streakEnd + 1 else 0
      {
        k := StreakStep(cx, y, k, conv, x, row, snap);
        if left {
          cx := cx - 1;
        } else {
          cx := cx + 1;
        }
      }
    }

    /** One streak of `Streak`, the one numbered `done` of those whose draws
        begin at `p0`: a start column and a row, then the walk. */
    method StreakRound(length: int, left: bool, rng: Rand, conv: nat -> byte,
                       ghost snap: seq<seq<Color>>, ghost p0: nat, ghost done: nat)
      requires Valid() && |snap| == H && forall y :: 0 <= y < H ==> |snap[y]| == W
      requires W > 0 && H > 0 && (left || length != 0) && rng.Pos == p0 + 2 * done
      requires left ==> forall i, j :: 0 <= i < W && 0 <= j < H ==> Out[i, j] == StreakPic(snap, rng.Stream, p0, done, conv)[j][i]
      modifies Out, rng
      ensures rng.Pos == p0 + 2 * (done + 1)
      ensures left ==> forall i, j :: 0 <= i < W && 0 <= j < H ==> Out[i, j] == StreakPic(snap, rng.Stream, p0, done + 1, conv)[j][i]
      ensures !left ==> forall i, j :: 0 <= i < W && 0 <= j < H ==> Out[i, j] == old(Out[i, j])
    {
      var x := rng.Intn(W);
      var y := rng.Intn(H);
      assert x == StreakCol(rng.Stream, p0, done) && y == StreakRow(rng.Stream, p0, done);
      ghost var pic := StreakPic(snap, rng.Stream, p0, done, conv);
      ghost var row := Row(y);
      assert left ==> row == pic[y];
      StreakWalk(x, y, length, left, conv, row);
      if left {
        ghost var pic' := StreakPic(snap, rng.Stream, p0, done + 1, conv);
        assert pic' == pic[y := StreakOnce(row, x, conv)];
        forall i, j | 0 <= i < W && 0 <= j < H
          ensures Out[i, j] == pic'[j][i]
        {
        }
      }
    }

    /** `Streak`: each of `streaks` streaks draws a start column and a row and
        walks from there, mixing the carried colour into each pixel it passes.
        Leftward the walk reaches column 0 whatever the length, and the
        output is the old one streaked by every drawn streak in turn;
        rightward it stops before its first step (a length of 0 would walk
        right forever). The mixed values depend on the float conversion
        `conv`. */
    method Streak(streaks: int, length: int, left: bool, rng: Rand, conv: nat -> byte)
      requires Valid()
      requires streaks > 0 ==> W > 0 && H > 0
      requires left || length != 0 || streaks <= 0
      modifies Out, rng
      ensures rng.Pos == old(rng.Pos) + 2 * MaxInt(streaks, 0)
      ensures left ==> forall x, y :: 0 <= x < W && 0 <= y < H ==>
        Out[x, y] == StreakPic(old(Snapshot()), rng.Stream, old(rng.Pos), MaxInt(streaks, 0), conv)[y][x]
      ensures forall x, y :: 0 <= x < W && 0 <= y < H && !StreakReaches(rng.Stream, old(rng.Pos), MaxInt(streaks, 0), x, y) ==>
        Out[x, y] == old(Out[x, y])
      ensures !left ==> forall x, y :: 0 <= x < W && 0 <= y < H ==> Out[x, y] == old(Out[x, y])
    {
      ghost var snap := Snapshot();
      ghost var p0 := rng.Pos;
      var remaining := streaks;
      ghost var done: nat := 0;
      while remaining > 0
        invariant remaining == streaks - done && done <= MaxInt(streaks, 0)
        invariant rng.Pos == p0 + 2 * done
        invariant left ==> forall i, j :: 0 <= i < W && 0 <= j < H ==>
          Out[i, j] == StreakPic(snap, rng.Stream, p0, done, conv)[j][i]
        invariant !left ==> forall x, y :: 0 <= x < W && 0 <= y < H ==> Out[x, y] == old(Out[x, y])
      {
        StreakRound(length, left, rng, conv, snap, p0, done);
        remaining := remaining - 1;
        done := done + 1;
      }
      if left {
        forall x, y | 0 <= x < W && 0 <= y < H && !StreakReaches(rng.Stream, p0, MaxInt(streaks, 0), x, y)
          ensures Out[x, y] == old(Out[x, y])
        {
          StreakUntouched(snap, rng.Stream, p0, MaxInt(streaks, 0), conv, x, y);
        }
      }
    }

    // ----- CopyChannel -----

    /** `CopyChannel`: the output pixel at (outX, outY) takes channel `ch`
        from the source pixel at (inX, inY) and keeps its other channels; a
        target outside the bounds is left alone. */
    method CopyChannel(inX: int, inY: int, outX: int, outY: int, ch: Channel)
      requires Valid()
      modifies Out
      ensures forall i, j :: 0 <= i < W && 0 <= j < H ==>
        Out[i, j] == if i == outX && j == outY then CopyChannelColor(InAt(inX, inY), old(Out[i, j]), ch) else old(Out[i, j])
    {
      var p := CopyChannelColor(InAt(inX, inY), OutAt(outX, outY), ch);
      if 0 <= outX < W && 0 <= outY < H {
        Out[outX, outY] := p;
      }
    }

    // ----- CopyChannelBigLines -----

    /** The pixel a CopyChannelBigLines row walk leaves at column `t` of row
        `row`, given the pixel `before` it: the last source column that the
        walk over `0 .. W` sent to `t` donates channel `ch`. */
    function ChannelRowAt(t: int, row: int, shift: nat, ch: Channel, before: Color): (c: Color)
      requires Valid()
      ensures forall o: Channel :: o != ch ==> ChannelOf(c, o) == ChannelOf(before, o)
    {
      ChannelRowUpTo(t, row, W + 1, shift, ch, before)
    }

    /** The pixel at column `t` once a CopyChannelBigLines row walk has
        visited the source columns below `n`. */
    function ChannelRowUpTo(t: int, row: int, n: nat, shift: nat, ch: Channel, before: Color): (c: Color)
      requires Valid()
      ensures forall o: Channel :: o != ch ==> ChannelOf(c, o) == ChannelOf(before, o)
    {
      match LastWriter(t, n, ShiftMap(shift, W))
      case None => before
      case Some(x) => CopyChannelColor(InAt(x, row), before, ch)
    }

    /** Visiting source column `n` copies its channel into the column it is
        sent to and leaves every other column as it was. */
    lemma ChannelRowNext(t: int, row: int, n: nat, shift: nat, ch: Channel, before: Color)
      requires Valid()
      ensures ChannelRowUpTo(t, row, n + 1, shift, ch, before) ==
        if t == WrapCoord(n + shift, W, AtMax) then CopyChannelColor(InAt(n, row), ChannelRowUpTo(t, row, n, shift, ch, before), ch)
        else ChannelRowUpTo(t, row, n, shift, ch, before)
    {
      var f := ShiftMap(shift, W);
      assert f(n) == WrapCoord(n + shift, W, AtMax);
      if t == f(n) {
        match LastWriter(t, n, f)
        case None =>
        case Some(x') => CopyChannelTwice(InAt(n, row), InAt(x', row), before, ch);
      }
    }

    /** One row of a CopyChannelBigLines band: for each column `x` of
        `0 .. W` (one past the last), channel `ch` of the source pixel goes to
        column `x + shift`, wrapped once. */
    method CopyChannelRow(row: int, shift: nat, ch: Channel)
      requires Valid() && 0 <= row < H
      modifies Out
      ensures forall t, y :: 0 <= t < W && 0 <= y < H ==>
        Out[t, y] == if y == row then ChannelRowAt(t, row, shift, ch, old(Out[t, y])) else old(Out[t, y])
    {
      var x := 0;
      while x <= W
        invariant 0 <= x <= W + 1
        invariant forall t, y :: 0 <= t < W && 0 <= y < H ==>
          Out[t, y] == if y == row then ChannelRowUpTo(t, row, x, shift, ch, old(Out[t, y])) else old(Out[t, y])
      {
        var tx := x + shift;
        if tx >= W {
          tx := tx - W;
        }
        CopyChannel(x, row, tx, row, ch);
        forall t | 0 <= t < W
          ensures ChannelRowUpTo(t, row, x + 1, shift, ch, old(Out[t, row])) ==
            if t == tx then CopyChannelColor(InAt(x, row), ChannelRowUpTo(t, row, x, shift, ch, old(Out[t, row])), ch)
            else ChannelRowUpTo(t, row, x, shift, ch, old(Out[t, row]))
        {
          ChannelRowNext(t, row, x, shift, ch, old(Out[t, row]));
        }
        x := x + 1;
      }
    }

    /** The rows `first .. last` of one copied band, walked top to bottom. */
    method CopyChannelBand(first: int, last: int, shift: nat, ch: Channel)
      requires Valid() && 0 <= first && last < H
      modifies Out
      ensures forall x, y :: 0 <= x < W && 0 <= y < H ==>
        Out[x, y] == if first <= y <= last then ChannelRowAt(x, y, shift, ch, old(Out[x, y])) else old(Out[x, y])
    {
      var cursor := first;
      while cursor <= last
        invariant first <= cursor <= MaxInt(first, last + 1)
        invariant forall x, y :: 0 <= x < W && 0 <= y < H ==>
          Out[x, y] == if first <= y < cursor then ChannelRowAt(x, y, shift, ch, old(Out[x, y])) else old(Out[x, y])
      {
        CopyChannelRow(cursor, shift, ch);
        cursor := cursor + 1;
      }
    }

    /** The bands a CopyChannelBigLines walk has copied: the first starts
        `step` rows past row 0 and each later one `step` rows past the end of
        the one before; each ends before `Max.Y`, copies a colour channel and
        is shifted by `width` plus less than 30 columns. */
    ghost predicate ChannelShape(bands: seq<Band>, step: int, width: int)
    {
      && (|bands| > 0 ==> bands[0].first == step)
      && Chained(bands, step)
      && forall i :: 0 <= i < |bands| ==>
        && bands[i].ChannelBand?
        && bands[i].last < H
        && bands[i].ch != Alpha
        && width <= bands[i].shift < width + 30
    }

    /** The row a CopyChannelBigLines walk whose draws begin at `p` has
        reached before copied band `k`: the end of band `k - 1`, or row 0.
        Each skip moves `step` rows and each copy `height` rows plus its own
        jitter `Intn(200)`; a skip-and-copy pair of rounds takes four draws
        (a channel draw per round, then the copy's jitter and its column
        jitter). */
    function ChannelWalkFrom(stream: nat -> nat, p: nat, height: int, step: int, k: nat): int
      decreases k
    {
      if k == 0 then 0
      else ChannelWalkFrom(stream, p, height, step, k - 1) + step + height + ChannelJitter(stream, p, k - 1)
    }

    /** The jitter `Intn(200)` of copy round `j` of a CopyChannelBigLines
        walk whose draws begin at `p`. */
    function ChannelJitter(stream: nat -> nat, p: nat, j: nat): int
    {
      Draw(stream(p + 4 * j + 2), 200)
    }

    /** The draws a CopyChannelBigLines walk takes when it copies `n` bands:
        four per skip-and-copy pair, then the channel draw of the skip round
        that reaches `Max.Y`, or the four draws of the copy round whose band
        would reach it; nothing when the image has no rows. */
    function ChannelWalkDraws(stream: nat -> nat, p: nat, height: int, step: int, n: nat): nat
    {
      4 * n + (if H == 0 then 0 else if ChannelWalkFrom(stream, p, height, step, n) + step >= H then 1 else 4)
    }

    /** The CopyChannelBigLines walk ends: some copied band would reach `Max.Y`. */
    ghost predicate ChannelWalkEnds(stream: nat -> nat, p: nat, height: int, step: int)
    {
      exists k: nat :: ChannelWalkFrom(stream, p, height, step, k) >= H
    }

    /** A CopyChannelBigLines walk reaches at least `height` rows further
        with each copied band. */
    lemma {:induction false} ChannelWalkGrows(stream: nat -> nat, p: nat, height: int, step: int, k: nat)
      requires height >= 0 && step >= 0
      ensures ChannelWalkFrom(stream, p, height, step, k) >= height * k
      decreases k
    {
      if k > 0 {
        ChannelWalkGrows(stream, p, height, step, k - 1);
        assert height * k == height * (k - 1) + height;
      }
    }

    /** With a positive band height the CopyChannelBigLines walk ends. */
    lemma ChannelPositiveEnds(stream: nat -> nat, p: nat, height: int, step: int)
      requires height > 0 && step >= 0
      ensures ChannelWalkEnds(stream, p, height, step)
    {
      ChannelWalkGrows(stream, p, height, step, H);
      assert height * H >= H;
      assert ChannelWalkFrom(stream, p, height, step, H) >= H;
    }

    /** A positive drawn height `Max.Y*Intn(25)/100` meets the precondition
        of CopyChannelBigLines, whatever the other draws. */
    lemma CopyChannelBigLinesEnds(stream: nat -> nat, p: nat)
      requires Percent(H, Draw(stream(p), 25)) > 0
      ensures var height := Percent(H, Draw(stream(p), 25));
              ChannelWalkEnds(stream, p + 3, height, height + Draw(stream(p + 2), 100))
    {
      var height := Percent(H, Draw(stream(p), 25));
      ChannelPositiveEnds(stream, p + 3, height, height + Draw(stream(p + 2), 100));
    }

    /** Band `j` of a CopyChannelBigLines walk whose draws begin at `p`
        starts `step` rows past where the walk had reached, ends where
        `ChannelWalkFrom` says and before `Max.Y`, copies the channel of its
        round's `RandomChannel` draw and is shifted by `width` plus its
        column jitter. */
    ghost predicate ChannelDrawn(band: Band, j: nat, stream: nat -> nat, p: nat, height: int, step: int, width: int)
    {
      && band.ChannelBand?
      && band.first == ChannelWalkFrom(stream, p, height, step, j) + step <= band.last
      && band.last == ChannelWalkFrom(stream, p, height, step, j + 1) && band.last < H
      && band.ch == RandomChannel(Unit(stream(p + 4 * j + 1)))
      && band.shift == width + Draw(stream(p + 4 * j + 3), 30)
    }

    /** Every band of `bands` is the one its round of the walk draws. */
    ghost predicate ChannelDraws(bands: seq<Band>, stream: nat -> nat, p: nat, height: int, step: int, width: int)
      decreases |bands|
    {
      |bands| == 0 ||
      (ChannelDraws(bands[..|bands| - 1], stream, p, height, step, width) &&
       ChannelDrawn(bands[|bands| - 1], |bands| - 1, stream, p, height, step, width))
    }

    /** Band `j` of walk bands is the one round `j` draws. */
    lemma {:induction false} ChannelDrawsAt(bands: seq<Band>, stream: nat -> nat, p: nat, height: int, step: int, width: int, j: nat)
      requires ChannelDraws(bands, stream, p, height, step, width) && j < |bands|
      ensures ChannelDrawn(bands[j], j, stream, p, height, step, width)
      decreases |bands|
    {
      var n := |bands| - 1;
      if j < n {
        ChannelDrawsAt(bands[..n], stream, p, height, step, width, j);
        assert bands[..n][j] == bands[j];
      }
    }

    /** The band a copy round places keeps the draws of the walk. */
    lemma ChannelDrawsAppend(bands: seq<Band>, band: Band, stream: nat -> nat, p: nat, height: int, step: int, width: int)
      requires ChannelDraws(bands, stream, p, height, step, width)
      requires ChannelDrawn(band, |bands|, stream, p, height, step, width)
      ensures ChannelDraws(bands + [band], stream, p, height, step, width)
    {
      assert (bands + [band])[..|bands|] == bands;
    }

    /** The bands the walk's draws place have the walk's shape. */
    lemma ChannelDrawsShape(bands: seq<Band>, stream: nat -> nat, p: nat, height: int, step: int, width: int)
      requires ChannelDraws(bands, stream, p, height, step, width)
      ensures ChannelShape(bands, step, width)
    {
      forall i | 0 <= i < |bands|
        ensures bands[i].first <= bands[i].last && bands[i].ChannelBand? && bands[i].last < H
        ensures bands[i].ch != Alpha && width <= bands[i].shift < width + 30
      {
        ChannelDrawsAt(bands, stream, p, height, step, width, i);
      }
      forall i, j | 0 <= i && j == i + 1 && j < |bands|
        ensures bands[j].first == bands[i].last + step
      {
        ChannelDrawsAt(bands, stream, p, height, step, width, i);
        ChannelDrawsAt(bands, stream, p, height, step, width, j);
      }
      if |bands| > 0 {
        ChannelDrawsAt(bands, stream, p, height, step, width, 0);
      }
    }

    /** The pixel (x, y) after the row walk of band `b`, which covers row
        `y`, over the pixel `c`. A BigLines row takes `Max.X + 1` draws, so
        row `y` of the band draws from `pos` plus that many per row above. */
    function BandRowAt(b: Band, x: int, y: int, stream: nat -> nat, c: Color): Color
      requires Valid() && b.first <= y
    {
      match b
      case ChannelBand(_, _, ch, shift) => ChannelRowAt(x, y, shift, ch, c)
      case LineBand(first, _, counter, pos, shift) =>
        LineRowAt(x, y, W + 1, stream, LineRowPos(pos, y - first), shift, counter % 3 == 0, c)
    }

    /** The draw position of row `k` of a BigLines band whose draws begin at `p`. */
    function LineRowPos(p: nat, k: nat): nat
    {
      p + Times(W + 1, k)
    }

    /** The pixel (x, y) after the bands `bands` ran in order over the pixel
        `c`: each band covering row `y` applies its row walk to what the
        bands before it left. */
    function BandsAt(bands: seq<Band>, x: int, y: int, stream: nat -> nat, c: Color): Color
      requires Valid()
      decreases |bands|
    {
      if |bands| == 0 then c
      else
        var b := bands[|bands| - 1];
        var prior := BandsAt(bands[..|bands| - 1], x, y, stream, c);
        if b.first <= y <= b.last then BandRowAt(b, x, y, stream, prior) else prior
    }

    /** A row outside all bands keeps its pixels. */
    lemma {:induction false} BandsOutside(bands: seq<Band>, x: int, y: int, stream: nat -> nat, c: Color)
      requires Valid() && Outside(y, bands)
      ensures BandsAt(bands, x, y, stream, c) == c
      decreases |bands|
    {
      if |bands| > 0 {
        var n := |bands| - 1;
        assert Outside(y, bands[..n]) by {
          forall i | 0 <= i < n ensures y < bands[..n][i].first || bands[..n][i].last < y {
            assert bands[..n][i] == bands[i];
          }
        }
        BandsOutside(bands[..n], x, y, stream, c);
      }
    }

    /** A row that exactly one band covers holds that band's row walk over
        its old pixels. */
    lemma {:induction false} BandsOnly(bands: seq<Band>, i: int, x: int, y: int, stream: nat -> nat, c: Color)
      requires Valid() && 0 <= i < |bands| && bands[i].first <= y <= bands[i].last
      requires forall j :: 0 <= j < |bands| && j != i ==> y < bands[j].first || bands[j].last < y
      ensures BandsAt(bands, x, y, stream, c) == BandRowAt(bands[i], x, y, stream, c)
      decreases |bands|
    {
      var n := |bands| - 1;
      var prefix := bands[..n];
      if i == n {
        assert Outside(y, prefix) by {
          forall j | 0 <= j < n ensures y < prefix[j].first || prefix[j].last < y {
            assert prefix[j] == bands[j];
          }
        }
        BandsOutside(prefix, x, y, stream, c);
      } else {
        assert prefix[i] == bands[i];
        forall j | 0 <= j < n && j != i ensures y < prefix[j].first || prefix[j].last < y {
          assert prefix[j] == bands[j];
        }
        BandsOnly(prefix, i, x, y, stream, c);
      }
    }

    /** When every band starts a positive number of rows past the end of the
        one before, a row of band `i` holds that band's row walk alone. */
    lemma BandsChained(bands: seq<Band>, step: int, i: int, x: int, y: int, stream: nat -> nat, c: Color)
      requires Valid() && Chained(bands, step) && step > 0
      requires 0 <= i < |bands| && bands[i].first <= y <= bands[i].last
      ensures BandsAt(bands, x, y, stream, c) == BandRowAt(bands[i], x, y, stream, c)
    {
      ChainedCoverOnce(bands, step, i, y);
      BandsOnly(bands, i, x, y, stream, c);
    }

    /** A copy of the output taken before a walk began, row by row. */
    ghost function Snapshot(): (snap: seq<seq<Color>>)
      requires Valid()
      reads Out
      ensures |snap| == H && forall y :: 0 <= y < H ==> |snap[y]| == W
      ensures forall x, y :: 0 <= x < W && 0 <= y < H ==> snap[y][x] == Out[x, y]
    {
      seq(H, (y: int) requires 0 <= y < H reads Out => seq(W, (x: int) requires 0 <= x < W reads Out => Out[x, y]))
    }

    /** Every pixel holds what the bands made of the pixel of `snap`. */
    ghost predicate BandsHold(bands: seq<Band>, stream: nat -> nat, snap: seq<seq<Color>>)
      requires Valid() && |snap| == H && forall y :: 0 <= y < H ==> |snap[y]| == W
      reads Out
    {
      forall x, y :: 0 <= x < W && 0 <= y < H ==> Out[x, y] == BandsAt(bands, x, y, stream, snap[y][x])
    }

    /** Under bands that hold over `snap`, a row outside every band keeps
        its pixels. */
    lemma HeldOutside(bands: seq<Band>, stream: nat -> nat, snap: seq<seq<Color>>)
      requires Valid() && |snap| == H && forall y :: 0 <= y < H ==> |snap[y]| == W
      requires BandsHold(bands, stream, snap)
      ensures forall x, y :: 0 <= x < W && 0 <= y < H && Outside(y, bands) ==> Out[x, y] == snap[y][x]
    {
      forall x, y | 0 <= x < W && 0 <= y < H && Outside(y, bands)
        ensures Out[x, y] == snap[y][x]
      {
        BandsOutside(bands, x, y, stream, snap[y][x]);
      }
    }

    /** Under chained bands with a positive step that hold over `snap`, a
        row of band `i` holds that band's row walk over its old pixels. */
    lemma HeldChained(bands: seq<Band>, step: int, stream: nat -> nat, snap: seq<seq<Color>>)
      requires Valid() && |snap| == H && forall y :: 0 <= y < H ==> |snap[y]| == W
      requires BandsHold(bands, stream, snap) && Chained(bands, step) && step > 0
      ensures forall i, x, y :: 0 <= i < |bands| && bands[i].first <= y <= bands[i].last && 0 <= x < W && 0 <= y < H ==>
        Out[x, y] == BandRowAt(bands[i], x, y, stream, snap[y][x])
    {
      forall i, x, y | 0 <= i < |bands| && bands[i].first <= y <= bands[i].last && 0 <= x < W && 0 <= y < H
        ensures Out[x, y] == BandRowAt(bands[i], x, y, stream, snap[y][x])
      {
        BandsChained(bands, step, i, x, y, stream, snap[y][x]);
      }
    }

    /** `CopyChannelBigLines`: three draws give the band height
        `Max.Y*Intn(25)/100`, the offset `Max.X*Intn(10)/100` and a skip
        jitter `Intn(100)`, and the band walk follows. The walk ends exactly
        when some copied band would reach `Max.Y`, which the precondition
        states. Every pixel ends as the bands, applied in order, made of the
        pixel before the call (`BandsOutside` and `BandsChained` read that
        off for a row outside every band and for a row of one band). */
    method CopyChannelBigLines(rng: Rand) returns (ghost bands: seq<Band>)
      requires Valid()
      requires var height := Percent(H, Draw(rng.Stream(rng.Pos), 25));
               ChannelWalkEnds(rng.Stream, rng.Pos + 3, height, height + Draw(rng.Stream(rng.Pos + 2), 100))
      modifies Out, rng
      ensures var p := old(rng.Pos);
              var height := Percent(H, Draw(rng.Stream(p), 25));
              var step := height + Draw(rng.Stream(p + 2), 100);
              var width := Percent(W, Draw(rng.Stream(p + 1), 10));
              && ChannelShape(bands, step, width)
              && ChannelDraws(bands, rng.Stream, p + 3, height, step, width)
              && ChannelWalkFrom(rng.Stream, p + 3, height, step, |bands| + 1) >= H
              && rng.Pos == p + 3 + ChannelWalkDraws(rng.Stream, p + 3, height, step, |bands|)
      ensures BandsHold(bands, rng.Stream, old(Snapshot()))
      ensures forall x, y :: 0 <= x < W && 0 <= y < H && Outside(y, bands) ==> Out[x, y] == old(Out[x, y])
      ensures Percent(H, Draw(rng.Stream(old(rng.Pos)), 25)) + Draw(rng.Stream(old(rng.Pos) + 2), 100) > 0 ==>
        forall i, x, y :: 0 <= i < |bands| && bands[i].first <= y <= bands[i].last && 0 <= x < W && 0 <= y < H ==>
          Out[x, y] == BandRowAt(bands[i], x, y, rng.Stream, old(Out[x, y]))
    {
      ghost var snap := Snapshot();
      var hd := rng.Intn(25);
      var height := Percent(H, hd);
      var wd := rng.Intn(10);
      var width := Percent(W, wd);
      var jitter := rng.Intn(100);
      assert rng.Pos == old(rng.Pos) + 3 && jitter == Draw(rng.Stream(old(rng.Pos) + 2), 100);
      assert width == Percent(W, Draw(rng.Stream(old(rng.Pos) + 1), 10));
      bands := ChannelWalk(height, width, jitter, rng);
      HeldOutside(bands, rng.Stream, snap);
      if height + jitter > 0 {
        HeldChained(bands, height + jitter, rng.Stream, snap);
      }
    }

    /** One copied band of the CopyChannelBigLines walk, over what the
        earlier bands left. */
    method ChannelRound(band: Band, ghost stream: nat -> nat, ghost bands: seq<Band>, ghost snap: seq<seq<Color>>)
      requires Valid() && |snap| == H && forall y :: 0 <= y < H ==> |snap[y]| == W
      requires band.ChannelBand? && 0 <= band.first <= band.last < H && BandsHold(bands, stream, snap)
      modifies Out
      ensures BandsHold(bands + [band], stream, snap)
    {
      var after := bands + [band];
      CopyChannelBand(band.first, band.last, band.shift, band.ch);
      assert after[..|bands|] == bands && after[|bands|] == band;
      forall x, y | 0 <= x < W && 0 <= y < H
        ensures Out[x, y] == BandsAt(after, x, y, stream, snap[y][x])
      {
        assert old(Out[x, y]) == BandsAt(bands, x, y, stream, snap[y][x]);
      }
    }

    /** What a CopyChannelBigLines walk whose draws begin at `p` keeps true
        between its rounds: the bands placed so far follow the walk's layout
        and draws, and every pixel holds what they made of the pixel of
        `snap`. */
    ghost predicate ChannelWalkState(bands: seq<Band>, stream: nat -> nat, p: nat, height: int, step: int, width: int, snap: seq<seq<Color>>)
      requires Valid() && |snap| == H && forall y :: 0 <= y < H ==> |snap[y]| == W
      reads Out
    {
      ChannelDraws(bands, stream, p, height, step, width) && BandsHold(bands, stream, snap)
    }

    /** A copy round of the CopyChannelBigLines walk after its channel draw:
        the jitter and column jitter draws, then, unless the band would reach
        `Max.Y`, the band. */
    method ChannelCopyRound(cursor: int, height: int, width: nat, ch: Channel, rng: Rand,
                            ghost p: nat, ghost step: int, ghost bands: seq<Band>, ghost snap: seq<seq<Color>>)
      returns (next: int, ghost after: seq<Band>)
      requires Valid() && |snap| == H && forall y :: 0 <= y < H ==> |snap[y]| == W
      requires 0 <= cursor < H && height >= 0
      requires cursor == ChannelWalkFrom(rng.Stream, p, height, step, |bands|) + step
      requires rng.Pos == p + 4 * |bands| + 2 && ch == RandomChannel(Unit(rng.Stream(p + 4 * |bands| + 1)))
      requires ChannelWalkState(bands, rng.Stream, p, height, step, width, snap)
      modifies Out, rng
      ensures next >= H ==>
        && after == bands
        && rng.Pos == p + 4 * |bands| + 4
        && ChannelWalkFrom(rng.Stream, p, height, step, |bands| + 1) >= H
        && ChannelWalkState(bands, rng.Stream, p, height, step, width, snap)
      ensures next < H ==>
        && |after| == |bands| + 1
        && ChannelLoop(next, false, after, rng.Pos, rng.Stream, p, height, step, width, snap)
    {
      var jitter' := rng.Intn(200);
      assert jitter' == ChannelJitter(rng.Stream, p, |bands|);
      assert rng.Pos == p + 4 * |bands| + 3;
      var jitterWidth := rng.Intn(30);
      next := cursor + height + jitter';
      after := bands;
      if next >= H {
        return;
      }
      var band := ChannelBand(cursor, next, ch, width + jitterWidth);
      ChannelRound(band, rng.Stream, bands, snap);
      ChannelDrawsAppend(bands, band, rng.Stream, p, height, step, width);
      after := bands + [band];
    }

    /** What holds at the head of each round of a CopyChannelBigLines walk
        whose draws begin at `p`: the cursor is where the last copied band
        ended, plus `step` after a skip round, and each skip-and-copy pair of
        rounds has taken four draws. */
    ghost predicate ChannelLoop(cursor: int, split: bool, bands: seq<Band>, pos: nat, stream: nat -> nat,
                                p: nat, height: int, step: int, width: int, snap: seq<seq<Color>>)
      requires Valid() && |snap| == H && forall y :: 0 <= y < H ==> |snap[y]| == W
      reads Out
    {
      && 0 <= cursor == ChannelWalkFrom(stream, p, height, step, |bands|) + (if split then step else 0)
      && (split ==> H > 0)
      && pos == p + 4 * |bands| + (if split then 1 else 0)
      && ChannelWalkState(bands, stream, p, height, step, width, snap)
    }

    /** One round of the CopyChannelBigLines walk: the channel draw, then a
        skip of `height + jitter` rows or a copy round. `done` is the return
        at a copied band that would reach `Max.Y`. */
    method ChannelWalkRound(cursor: int, split: bool, height: int, width: nat, jitter: int, rng: Rand,
                            ghost p: nat, ghost last: nat, ghost bands: seq<Band>, ghost snap: seq<seq<Color>>)
      returns (cursor': int, split': bool, ghost bands': seq<Band>, done: bool)
      requires Valid() && |snap| == H && forall y :: 0 <= y < H ==> |snap[y]| == W
      requires height >= 0 && jitter >= 0 && cursor < H
      requires ChannelLoop(cursor, split, bands, rng.Pos, rng.Stream, p, height, height + jitter, width, snap)
      requires ChannelWalkFrom(rng.Stream, p, height, height + jitter, last) >= H && |bands| < last
      modifies Out, rng
      ensures var step := height + jitter;
              done ==>
                && rng.Pos == p + 4 * |bands'| + 4
                && ChannelWalkFrom(rng.Stream, p, height, step, |bands'|) + step < H
                && ChannelWalkFrom(rng.Stream, p, height, step, |bands'| + 1) >= H
                && ChannelWalkState(bands', rng.Stream, p, height, step, width, snap)
      ensures !done ==> ChannelLoop(cursor', split', bands', rng.Pos, rng.Stream, p, height, height + jitter, width, snap)
      ensures !done ==> split' == !split && |bands'| < last
      ensures !done ==> |bands'| == |bands| + (if split then 1 else 0)
    {
      var f := rng.Float32();
      var rC := RandomChannel(f);
      bands' := bands;
      done := false;
      if split {
        var next;
        next, bands' := ChannelCopyRound(cursor, height, width, rC, rng, p, height + jitter, bands, snap);
        cursor', split' := next, false;
        if next >= H {
          done := true;
          return;
        }
        assert ChannelWalkFrom(rng.Stream, p, height, height + jitter, |bands'|) == next < H;
        assert |bands'| == |bands| + 1;
        assert |bands'| != last;
      } else {
        cursor', split' := cursor + height + jitter, true;
      }
    }

    /** The band walk of CopyChannelBigLines: bands alternate between skipped
        (the first, `height + jitter` rows) and copied, each round choosing a
        channel with `RandomChannel`; a copied band draws its own jitter
        `Intn(200)` and `Intn(30)` more columns of offset, and the walk
        returns at the first one that would end at or past `Max.Y`. Every row
        of a copied band moves one channel of the source row right by the
        band's offset; the extra read at column `Max.X` is the zero colour.
        The bands are exactly those `ChannelWalkFrom` places before `Max.Y`,
        and every draw taken is counted. */
    method ChannelWalk(height: int, width: nat, jitter: int, rng: Rand) returns (ghost bands: seq<Band>)
      requires Valid() && height >= 0 && jitter >= 0
      requires ChannelWalkEnds(rng.Stream, rng.Pos, height, height + jitter)
      modifies Out, rng
      ensures var p, step := old(rng.Pos), height + jitter;
              && ChannelShape(bands, step, width)
              && ChannelDraws(bands, rng.Stream, p, height, step, width)
              && ChannelWalkFrom(rng.Stream, p, height, step, |bands| + 1) >= H
              && rng.Pos == p + ChannelWalkDraws(rng.Stream, p, height, step, |bands|)
      ensures BandsHold(bands, rng.Stream, old(Snapshot()))
    {
      ghost var snap := Snapshot();
      ghost var p, step := rng.Pos, height + jitter;
      ghost var last: nat :| ChannelWalkFrom(rng.Stream, p, height, step, last) >= H;
      var cursor := 0;
      var split := false;
      bands := [];
      while cursor < H
        modifies Out, rng
        invariant ChannelLoop(cursor, split, bands, rng.Pos, rng.Stream, p, height, step, width, snap)
        invariant H > 0 ==> |bands| < last
        decreases 2 * (last - |bands|) + (if split then 0 else 1)
      {
        var done;
        cursor, split, bands, done := ChannelWalkRound(cursor, split, height, width, jitter, rng, p, last, bands, snap);
        if done {
          ChannelDrawsShape(bands, rng.Stream, p, height, step, width);
          return;
        }
      }
      if |bands| > 0 {
        assert bands[|bands| - 1].last < H;
      }
      ChannelDrawsShape(bands, rng.Stream, p, height, step, width);
    }

    // ----- BigLines -----

    /** The column BigLines writes source column `x` of a row to, when the
        row's draws begin at `p`: `x + width` plus that column's own jitter
        `Intn(30)`, wrapped once. */
    function LineTarget(stream: nat -> nat, p: nat, width: nat): nat -> int
    {
      (x: nat) => WrapCoord(x + width + Draw(stream(p + x), 30), W, AtMax)
    }

    /** The colour BigLines copies from column `x` of row `row`: the source
        pixel, channel-shifted on every third round. */
    function LineColor(x: int, row: int, shifted: bool): Color
      requires Valid()
    {
      if shifted then ShiftColor(InAt(x, row), 1) else InAt(x, row)
    }

    /** The pixel at column `t` of row `row` after the first `n` columns of
        a BigLines row walk, given the pixel `before` it: the colour of the
        last of those columns the walk sent to `t`. */
    function LineRowAt(t: int, row: int, n: nat, stream: nat -> nat, p: nat, width: nat, shifted: bool, before: Color): Color
      requires Valid()
    {
      match LastWriter(t, n, LineTarget(stream, p, width))
      case None => before
      case Some(x) => LineColor(x, row, shifted)
    }

    /** `c` is a colour some column of row `row` (the one past the right edge
        included) gives. */
    ghost predicate RowSourced(c: Color, row: int, shifted: bool)
      requires Valid()
    {
      exists x :: 0 <= x <= W && c == LineColor(x, row, shifted)
    }

    /** One row of a BigLines band: for each column `x` of `0 .. W` (one past
        the last) a jitter draw, then the colour of `x` goes to its target. */
    method LineRow(row: int, width: nat, shifted: bool, rng: Rand)
      requires Valid() && 0 <= row < H
      modifies Out, rng
      ensures rng.Pos == old(rng.Pos) + W + 1
      ensures forall t, y :: 0 <= t < W && 0 <= y < H ==>
        Out[t, y] == if y == row then LineRowAt(t, row, W + 1, rng.Stream, old(rng.Pos), width, shifted, old(Out[t, y])) else old(Out[t, y])
    {
      ghost var p := rng.Pos;
      var x := 0;
      while x <= W
        modifies Out, rng
        invariant 0 <= x <= W + 1 && rng.Pos == p + x
        invariant forall t, y :: 0 <= t < W && 0 <= y < H && y != row ==> Out[t, y] == old(Out[t, y])
        invariant forall t :: 0 <= t < W ==>
          Out[t, row] == LineRowAt(t, row, x, rng.Stream, p, width, shifted, old(Out[t, row]))
      {
        label before:
        LineColumn(x, row, width, shifted, rng);
        forall t | 0 <= t < W
          ensures Out[t, row] == LineRowAt(t, row, x + 1, rng.Stream, p, width, shifted, old(Out[t, row]))
        {
          LineRowStep(t, row, x, rng.Stream, p, width, shifted, old(Out[t, row]));
        }
        x := x + 1;
      }
    }

    /** One column of a BigLines row: a jitter draw, then the colour of
        source column `x` goes to column `x + width + jitter`, wrapped once. */
    method LineColumn(x: int, row: int, width: nat, shifted: bool, rng: Rand)
      requires Valid() && 0 <= row < H
      modifies Out, rng
      ensures rng.Pos == old(rng.Pos) + 1
      ensures var tx := WrapCoord(x + width + Draw(rng.Stream(old(rng.Pos)), 30), W, AtMax);
        forall t, y :: 0 <= t < W && 0 <= y < H ==>
          Out[t, y] == if t == tx && y == row then LineColor(x, row, shifted) else old(Out[t, y])
    {
      var jitterWidth := rng.Intn(30);
      var tx := x + width + jitterWidth;
      if tx >= W {
        tx := tx - W;
      }
      var clr := InAt(x, row);
      if shifted {
        clr := ShiftColor(InAt(x, row), 1);
      }
      if 0 <= tx < W {
        Out[tx, row] := clr;
      }
    }

    /** One more column of a BigLines row walk overwrites its target only. */
    lemma LineRowStep(t: int, row: int, n: nat, stream: nat -> nat, p: nat, width: nat, shifted: bool, before: Color)
      requires Valid()
      ensures LineRowAt(t, row, n + 1, stream, p, width, shifted, before) ==
        if WrapCoord(n + width + Draw(stream(p + n), 30), W, AtMax) == t then LineColor(n, row, shifted)
        else LineRowAt(t, row, n, stream, p, width, shifted, before)
    {
      assert LineTarget(stream, p, width)(n) == WrapCoord(n + width + Draw(stream(p + n), 30), W, AtMax);
    }

    /** A BigLines row walk leaves at each column the old pixel or a colour
        of its own source row. */
    lemma LineRowSourced(t: int, row: int, stream: nat -> nat, p: nat, width: nat, shifted: bool, before: Color)
      requires Valid()
      ensures var c := LineRowAt(t, row, W + 1, stream, p, width, shifted, before);
        c == before || RowSourced(c, row, shifted)
    {
      match LastWriter(t, W + 1, LineTarget(stream, p, width))
      case None =>
      case Some(x) => assert LineRowAt(t, row, W + 1, stream, p, width, shifted, before) == LineColor(x, row, shifted);
    }

    /** A BigLines row takes `Max.X + 1` draws, so one row more moves the
        draw position that far. */
    lemma LineRowPosNext(p: nat, k: nat)
      ensures LineRowPos(p, k + 1) == LineRowPos(p, k) + W + 1
    {
    }

    /** The rows `first .. last` of one BigLines band, walked top to bottom;
        row `y` draws its column jitters from `LineRowPos(p, y - first)`. */
    method LineBandRows(first: int, last: int, width: nat, shifted: bool, rng: Rand)
      requires Valid() && 0 <= first <= last < H
      modifies Out, rng
      ensures rng.Pos == LineRowPos(old(rng.Pos), last - first + 1)
      ensures forall x, y :: 0 <= x < W && 0 <= y < H ==>
        Out[x, y] == if first <= y <= last
          then LineRowAt(x, y, W + 1, rng.Stream, LineRowPos(old(rng.Pos), y - first), width, shifted, old(Out[x, y]))
          else old(Out[x, y])
    {
      ghost var p := rng.Pos;
      var cursor := first;
      while cursor <= last
        modifies Out, rng
        invariant first <= cursor <= last + 1
        invariant rng.Pos == LineRowPos(p, cursor - first)
        invariant forall x, y :: 0 <= x < W && 0 <= y < H ==>
          Out[x, y] == if first <= y < cursor
            then LineRowAt(x, y, W + 1, rng.Stream, LineRowPos(p, y - first), width, shifted, old(Out[x, y]))
            else old(Out[x, y])
      {
        LineRowPosNext(p, cursor - first);
        LineRow(cursor, width, shifted, rng);
        cursor := cursor + 1;
      }
    }

    /** The bands a BigLines walk has copied: band `i` was copied on round
        `2i + 1`; the first starts `height` rows past row 0 and each later
        one `height` rows past the end of the one before; each ends before
        `Max.Y`. */
    ghost predicate LineShape(bands: seq<Band>, height: int)
    {
      && (|bands| > 0 ==> bands[0].first == height)
      && Chained(bands, height)
      && forall i :: 0 <= i < |bands| ==>
        bands[i].LineBand? && bands[i].counter == 2 * i + 1 && bands[i].last < H
    }

    /** The draw position at which a BigLines walk whose draws begin at `p`
        takes the jitter of copied band `k`. A skip round takes no draw; a
        copy round takes its jitter `Intn(200)`, then `Max.X + 1` draws for
        each of its `height + jitter + 1` rows. */
    function LineWalkPos(stream: nat -> nat, p: nat, height: nat, k: nat): nat
      decreases k
    {
      if k == 0 then p
      else
        var pos := LineWalkPos(stream, p, height, k - 1);
        LineRowPos(pos + 1, height + Draw(stream(pos), 200) + 1)
    }

    /** The jitter `Intn(200)` of copied band `j` of a BigLines walk whose
        draws begin at `p`. */
    function LineJitter(stream: nat -> nat, p: nat, height: nat, j: nat): nat
    {
      Draw(stream(LineWalkPos(stream, p, height, j)), 200)
    }

    /** The row a BigLines walk whose draws begin at `p` has reached before
        copied band `k`: the end of band `k - 1`, or row 0. Each skip moves
        `height` rows and each copy `height` rows plus its own jitter. */
    function LineWalkFrom(stream: nat -> nat, p: nat, height: nat, k: nat): int
      decreases k
    {
      if k == 0 then 0
      else LineWalkFrom(stream, p, height, k - 1) + height + height + LineJitter(stream, p, height, k - 1)
    }

    /** The BigLines walk ends: some copied band would reach `Max.Y`. */
    ghost predicate LineWalkEnds(stream: nat -> nat, p: nat, height: nat)
    {
      exists k: nat :: LineWalkFrom(stream, p, height, k) >= H
    }

    /** A BigLines walk reaches at least `2 * height` rows further with each
        copied band: one skipped and one copied band of `height` rows. */
    lemma {:induction false} LineWalkGrows(stream: nat -> nat, p: nat, height: nat, k: nat)
      ensures LineWalkFrom(stream, p, height, k) >= 2 * height * k
      decreases k
    {
      if k > 0 {
        LineWalkGrows(stream, p, height, k - 1);
        assert 2 * height * k == 2 * height * (k - 1) + 2 * height;
      }
    }

    /** With a positive band height the BigLines walk ends. */
    lemma LinePositiveEnds(stream: nat -> nat, p: nat, height: nat)
      requires height > 0
      ensures LineWalkEnds(stream, p, height)
    {
      LineWalkGrows(stream, p, height, H);
      assert 2 * height * H >= H;
      assert LineWalkFrom(stream, p, height, H) >= H;
    }

    /** A positive drawn height `Max.Y*Intn(25)/100` meets the precondition
        of BigLines, whatever the other draws. */
    lemma BigLinesEnds(stream: nat -> nat, p: nat)
      requires Percent(H, Draw(stream(p), 25)) > 0
      ensures LineWalkEnds(stream, p + 2, Percent(H, Draw(stream(p), 25)))
    {
      LinePositiveEnds(stream, p + 2, Percent(H, Draw(stream(p), 25)));
    }

    /** Band `j` of a BigLines walk whose draws begin at `p` starts `height`
        rows past where the walk had reached, ends where `LineWalkFrom` says
        and before `Max.Y`, was copied on round `2j + 1`, draws its rows'
        column jitters from just past its own jitter and moves its columns
        `width` to the right. */
    ghost predicate LineDrawn(band: Band, j: nat, stream: nat -> nat, p: nat, height: nat, width: nat)
    {
      && band.LineBand?
      && band.first == LineWalkFrom(stream, p, height, j) + height <= band.last
      && band.last == LineWalkFrom(stream, p, height, j + 1) && band.last < H
      && band.counter == 2 * j + 1
      && band.pos == LineWalkPos(stream, p, height, j) + 1
      && band.shift == width
    }

    /** Every band of `bands` is the one its round of the walk draws. */
    ghost predicate LineDraws(bands: seq<Band>, stream: nat -> nat, p: nat, height: nat, width: nat)
      decreases |bands|
    {
      |bands| == 0 ||
      (LineDraws(bands[..|bands| - 1], stream, p, height, width) &&
       LineDrawn(bands[|bands| - 1], |bands| - 1, stream, p, height, width))
    }

    /** Band `j` of walk bands is the one round `j` draws. */
    lemma {:induction false} LineDrawsAt(bands: seq<Band>, stream: nat -> nat, p: nat, height: nat, width: nat, j: nat)
      requires LineDraws(bands, stream, p, height, width) && j < |bands|
      ensures LineDrawn(bands[j], j, stream, p, height, width)
      decreases |bands|
    {
      var n := |bands| - 1;
      if j < n {
        LineDrawsAt(bands[..n], stream, p, height, width, j);
        assert bands[..n][j] == bands[j];
      }
    }

    /** The band a copy round places keeps the draws of the walk. */
    lemma LineDrawsAppend(bands: seq<Band>, band: Band, stream: nat -> nat, p: nat, height: nat, width: nat)
      requires LineDraws(bands, stream, p, height, width)
      requires LineDrawn(band, |bands|, stream, p, height, width)
      ensures LineDraws(bands + [band], stream, p, height, width)
    {
      assert (bands + [band])[..|bands|] == bands;
    }

    /** The bands the walk's draws place have the walk's shape. */
    lemma LineDrawsShape(bands: seq<Band>, stream: nat -> nat, p: nat, height: nat, width: nat)
      requires LineDraws(bands, stream, p, height, width)
      ensures LineShape(bands, height)
    {
      forall i | 0 <= i < |bands|
        ensures bands[i].first <= bands[i].last && bands[i].LineBand?
        ensures bands[i].counter == 2 * i + 1 && bands[i].last < H
      {
        LineDrawsAt(bands, stream, p, height, width, i);
      }
      forall i, j | 0 <= i && j == i + 1 && j < |bands|
        ensures bands[j].first == bands[i].last + height
      {
        LineDrawsAt(bands, stream, p, height, width, i);
        LineDrawsAt(bands, stream, p, height, width, j);
      }
      if |bands| > 0 {
        LineDrawsAt(bands, stream, p, height, width, 0);
      }
    }

    /** One copied band of the BigLines walk, over what the earlier bands
        left; its rows draw from the current position. */
    method LineRound(band: Band, rng: Rand, ghost bands: seq<Band>, ghost snap: seq<seq<Color>>)
      requires Valid() && |snap| == H && forall y :: 0 <= y < H ==> |snap[y]| == W
      requires band.LineBand? && 0 <= band.first <= band.last < H && band.pos == rng.Pos
      requires BandsHold(bands, rng.Stream, snap)
      modifies Out, rng
      ensures rng.Pos == LineRowPos(old(rng.Pos), band.last - band.first + 1)
      ensures BandsHold(bands + [band], rng.Stream, snap)
    {
      var after := bands + [band];
      LineBandRows(band.first, band.last, band.shift, band.counter % 3 == 0, rng);
      assert after[..|bands|] == bands && after[|bands|] == band;
      forall x, y | 0 <= x < W && 0 <= y < H
        ensures Out[x, y] == BandsAt(after, x, y, rng.Stream, snap[y][x])
      {
        assert old(Out[x, y]) == BandsAt(bands, x, y, rng.Stream, snap[y][x]);
      }
    }

    /** What a BigLines walk whose draws begin at `p` keeps true between its
        rounds: the bands placed so far follow the walk's layout and draws,
        and every pixel holds what they made of the pixel of `snap`. */
    ghost predicate LineWalkState(bands: seq<Band>, stream: nat -> nat, p: nat, height: nat, width: nat, snap: seq<seq<Color>>)
      requires Valid() && |snap| == H && forall y :: 0 <= y < H ==> |snap[y]| == W
      reads Out
    {
      LineDraws(bands, stream, p, height, width) && BandsHold(bands, stream, snap)
    }

    /** What holds at the head of each round of a BigLines walk whose draws
        begin at `p`: the cursor is where the last copied band ended, plus
        `height` after a skip round; the round counter has counted two rounds
        per band, and the draws are those of the bands so far. */
    ghost predicate LineLoop(cursor: int, split: bool, counter: int, bands: seq<Band>, pos: nat, stream: nat -> nat,
                             p: nat, height: nat, width: nat, snap: seq<seq<Color>>)
      requires Valid() && |snap| == H && forall y :: 0 <= y < H ==> |snap[y]| == W
      reads Out
    {
      && 0 <= cursor == LineWalkFrom(stream, p, height, |bands|) + (if split then height else 0)
      && counter == 2 * |bands| + (if split then 1 else 0)
      && pos == LineWalkPos(stream, p, height, |bands|)
      && LineWalkState(bands, stream, p, height, width, snap)
    }

    /** A copy round of the BigLines walk: the jitter draw, then, unless the
        band would reach `Max.Y`, the band. */
    method LineCopyRound(cursor: int, height: nat, width: nat, counter: int, rng: Rand,
                         ghost p: nat, ghost bands: seq<Band>, ghost snap: seq<seq<Color>>)
      returns (next: int, ghost after: seq<Band>)
      requires Valid() && |snap| == H && forall y :: 0 <= y < H ==> |snap[y]| == W
      requires 0 <= cursor < H && cursor == LineWalkFrom(rng.Stream, p, height, |bands|) + height
      requires counter == 2 * |bands| + 1 && rng.Pos == LineWalkPos(rng.Stream, p, height, |bands|)
      requires LineWalkState(bands, rng.Stream, p, height, width, snap)
      modifies Out, rng
      ensures next >= H ==>
        && after == bands
        && rng.Pos == LineWalkPos(rng.Stream, p, height, |bands|) + 1
        && LineWalkFrom(rng.Stream, p, height, |bands| + 1) >= H
        && LineWalkState(bands, rng.Stream, p, height, width, snap)
      ensures next < H ==>
        && |after| == |bands| + 1
        && LineLoop(next, false, counter + 1, after, rng.Pos, rng.Stream, p, height, width, snap)
    {
      var jitter := rng.Intn(200);
      assert jitter == LineJitter(rng.Stream, p, height, |bands|);
      next := cursor + height + jitter;
      after := bands;
      if next >= H {
        return;
      }
      var band := LineBand(cursor, next, counter, rng.Pos, width);
      LineRound(band, rng, bands, snap);
      assert rng.Pos == LineWalkPos(rng.Stream, p, height, |bands| + 1);
      LineDrawsAppend(bands, band, rng.Stream, p, height, width);
      after := bands + [band];
    }

    /** One round of the BigLines walk: a skip of `height` rows or a copy
        round. `done` is the return at a copied band that would reach
        `Max.Y`. */
    method LineWalkRound(cursor: int, split: bool, counter: int, height: nat, width: nat, rng: Rand,
                         ghost p: nat, ghost last: nat, ghost bands: seq<Band>, ghost snap: seq<seq<Color>>)
      returns (cursor': int, split': bool, counter': int, ghost bands': seq<Band>, done: bool)
      requires Valid() && |snap| == H && forall y :: 0 <= y < H ==> |snap[y]| == W
      requires cursor < H && LineLoop(cursor, split, counter, bands, rng.Pos, rng.Stream, p, height, width, snap)
      requires LineWalkFrom(rng.Stream, p, height, last) >= H && |bands| < last
      modifies Out, rng
      ensures done ==>
        && rng.Pos == LineWalkPos(rng.Stream, p, height, |bands'|) + 1
        && LineWalkFrom(rng.Stream, p, height, |bands'|) + height < H
        && LineWalkFrom(rng.Stream, p, height, |bands'| + 1) >= H
        && LineWalkState(bands', rng.Stream, p, height, width, snap)
      ensures !done ==> LineLoop(cursor', split', counter', bands', rng.Pos, rng.Stream, p, height, width, snap)
      ensures !done ==> split' == !split && |bands'| < last
      ensures !done ==> |bands'| == |bands| + (if split then 1 else 0)
    {
      bands' := bands;
      done := false;
      if split {
        var next;
        next, bands' := LineCopyRound(cursor, height, width, counter, rng, p, bands, snap);
        cursor', split', counter' := next, false, counter + 1;
        if next >= H {
          done := true;
          return;
        }
        assert LineWalkFrom(rng.Stream, p, height, |bands'|) == next < H;
        assert |bands'| == |bands| + 1;
        assert |bands'| != last;
      } else {
        cursor', split', counter' := cursor + height, true, counter + 1;
      }
    }

    /** `BigLines`: two draws give the band height `Max.Y*Intn(25)/100` and
        the offset `Max.X*Intn(10)/100`, and the band walk follows. The walk
        ends exactly when some copied band would reach `Max.Y`, which the
        precondition states. Every pixel ends as the bands, applied in
        order, made of the pixel before the call (`BandsOutside` and
        `BandsChained` read that off for a row outside every band and, when
        the height is positive, for a row of one band). */
    method BigLines(rng: Rand) returns (ghost bands: seq<Band>)
      requires Valid()
      requires LineWalkEnds(rng.Stream, rng.Pos + 2, Percent(H, Draw(rng.Stream(rng.Pos), 25)))
      modifies Out, rng
      ensures var p := old(rng.Pos);
              var height := Percent(H, Draw(rng.Stream(p), 25));
              var width := Percent(W, Draw(rng.Stream(p + 1), 10));
              && LineShape(bands, height)
              && LineDraws(bands, rng.Stream, p + 2, height, width)
              && LineWalkFrom(rng.Stream, p + 2, height, |bands| + 1) >= H
              && rng.Pos == LineWalkPos(rng.Stream, p + 2, height, |bands|)
                 + (if LineWalkFrom(rng.Stream, p + 2, height, |bands|) + height < H then 1 else 0)
      ensures BandsHold(bands, rng.Stream, old(Snapshot()))
      ensures forall x, y :: 0 <= x < W && 0 <= y < H && Outside(y, bands) ==> Out[x, y] == old(Out[x, y])
      ensures Percent(H, Draw(rng.Stream(old(rng.Pos)), 25)) > 0 ==>
        forall i, x, y :: 0 <= i < |bands| && bands[i].first <= y <= bands[i].last && 0 <= x < W && 0 <= y < H ==>
          Out[x, y] == BandRowAt(bands[i], x, y, rng.Stream, old(Out[x, y]))
    {
      ghost var snap := Snapshot();
      var hd := rng.Intn(25);
      var height := Percent(H, hd);
      var wd := rng.Intn(10);
      var width := Percent(W, wd);
      assert rng.Pos == old(rng.Pos) + 2 && width == Percent(W, Draw(rng.Stream(old(rng.Pos) + 1), 10));
      bands := LineWalk(height, width, rng);
      HeldOutside(bands, rng.Stream, snap);
      if height > 0 {
        HeldChained(bands, height, rng.Stream, snap);
      }
    }

    /** The band walk of BigLines: bands alternate between skipped (the first,
        `height` rows) and copied; a copied band draws a jitter `Intn(200)`,
        its rows run from the cursor to `height + jitter` rows further, and
        the walk returns at the first one that would end at or past `Max.Y`.
        Each row of a copied band sends the colours of its own source row,
        channel-shifted on every third round of the walk, to jittered
        columns. The bands are exactly those `LineWalkFrom` places before
        `Max.Y`, and every draw taken is counted. */
    method LineWalk(height: nat, width: nat, rng: Rand) returns (ghost bands: seq<Band>)
      requires Valid() && LineWalkEnds(rng.Stream, rng.Pos, height)
      modifies Out, rng
      ensures var p := old(rng.Pos);
              && LineShape(bands, height)
              && LineDraws(bands, rng.Stream, p, height, width)
              && LineWalkFrom(rng.Stream, p, height, |bands| + 1) >= H
              && rng.Pos == LineWalkPos(rng.Stream, p, height, |bands|)
                 + (if LineWalkFrom(rng.Stream, p, height, |bands|) + height < H then 1 else 0)
      ensures BandsHold(bands, rng.Stream, old(Snapshot()))
    {
      ghost var snap := Snapshot();
      ghost var p := rng.Pos;
      ghost var last: nat :| LineWalkFrom(rng.Stream, p, height, last) >= H;
      var cursor := 0;
      var split := false;
      var counter := 0;
      bands := [];
      while cursor < H
        modifies Out, rng
        invariant LineLoop(cursor, split, counter, bands, rng.Pos, rng.Stream, p, height, width, snap)
        invariant H > 0 ==> |bands| < last
        decreases 2 * (last - |bands|) + (if split then 0 else 1)
      {
        var done;
        cursor, split, counter, bands, done := LineWalkRound(cursor, split, counter, height, width, rng, p, last, bands, snap);
        if done {
          LineDrawsShape(bands, rng.Stream, p, height, width);
          return;
        }
      }
      if |bands| > 0 {
        assert bands[|bands| - 1].last < H;
      }
      LineDrawsShape(bands, rng.Stream, p, height, width);
    }

    // ----- RandomCorruptions -----

    /** `draw.Draw(Out, r, &image.Uniform{c}, p, draw.Src)`: every output
        pixel inside `r` becomes `c`; the rest of `r` is clipped away. */
    method FillRect(r: Rect, c: Color)
      requires Valid()
      modifies Out
      ensures forall x, y :: 0 <= x < W && 0 <= y < H ==> Out[x, y] == if Covers(r, x, y) then c else old(Out[x, y])
    {
      var y := MaxInt(r.y0, 0);
      var yEnd := MaxInt(y, MinInt(r.y1, H));
      while y < yEnd
        invariant MaxInt(r.y0, 0) <= y <= yEnd
        invariant forall i, j :: 0 <= i < W && 0 <= j < H ==>
          Out[i, j] == if Covers(r, i, j) && j < y then c else old(Out[i, j])
      {
        var x := MaxInt(r.x0, 0);
        var xEnd := MaxInt(x, MinInt(r.x1, W));
        while x < xEnd
          invariant MaxInt(r.x0, 0) <= x <= xEnd
          invariant forall i, j :: 0 <= i < W && 0 <= j < H ==>
            Out[i, j] == if Covers(r, i, j) && (j < y || (j == y && i < x)) then c else old(Out[i, j])
        {
          Out[x, y] := c;
          x := x + 1;
        }
        y := y + 1;
      }
    }

    /** The rectangle of the corruption whose four draws begin at `p`: a
        height below `Max.Y/100`, a width below `Max.X/100`, then a corner
        anywhere in the image. */
    function CorruptRect(stream: nat -> nat, p: nat): (r: Rect)
      requires W >= 100 && H >= 100
      ensures 0 <= r.x0 < W && 0 <= r.y0 < H
      ensures r.x0 <= r.x1 < r.x0 + W / 100 && r.y0 <= r.y1 < r.y0 + H / 100
    {
      var height := Draw(stream(p), H / 100);
      var width := Draw(stream(p + 1), W / 100);
      var x := Draw(stream(p + 2), W);
      var y := Draw(stream(p + 3), H);
      Rect(x, y, x + width, y + height)
    }

    /** The fill colour of a corruption at `r`: a fixed translucent green, or
        with `uniform` the source pixel at the rectangle's corner with its
        channels rotated left. */
    function CorruptColor(r: Rect, uniform: bool): Color
      requires Valid()
    {
      if uniform then ShiftColor(InAt(r.x0, r.y0), 1) else Color(0, 200, 0, 100)
    }

    /** The pixel at (x, y) after the first `n` corruptions drawn from `p`
        on: the fill of the last one that covers it, else `before`. */
    function CorruptAt(x: int, y: int, n: nat, stream: nat -> nat, p: nat, uniform: bool, before: Color): Color
      requires Valid() && W >= 100 && H >= 100
    {
      if n == 0 then before
      else
        var r := CorruptRect(stream, p + 4 * (n - 1));
        if Covers(r, x, y) then CorruptColor(r, uniform) else CorruptAt(x, y, n - 1, stream, p, uniform, before)
    }

    /** `RandomCorruptions`: `iterations + 1` rounds of four draws each, every
        round filling a small rectangle of the output with one colour.
        `rand.Intn` panics unless both extents are at least 100. */
    method RandomCorruptions(uniform: bool, iterations: nat, rng: Rand)
      requires Valid() && W >= 100 && H >= 100
      modifies Out, rng
      ensures rng.Pos == old(rng.Pos) + 4 * (iterations + 1)
      ensures forall x, y :: 0 <= x < W && 0 <= y < H ==>
        Out[x, y] == CorruptAt(x, y, iterations + 1, rng.Stream, old(rng.Pos), uniform, old(Out[x, y]))
    {
      ghost var snap := Snapshot();
      ghost var p0 := rng.Pos;
      var it := 0;
      while it <= iterations
        invariant 0 <= it <= iterations + 1
        invariant rng.Pos == p0 + 4 * it
        invariant forall x, y :: 0 <= x < W && 0 <= y < H ==>
          Out[x, y] == CorruptAt(x, y, it, rng.Stream, p0, uniform, snap[y][x])
      {
        CorruptRound(uniform, rng, p0, it, snap);
        it := it + 1;
      }
    }

    /** Round `n` of RandomCorruptions, the draws of the run beginning at `p`
        and `snap` the output before the run. */
    method CorruptRound(uniform: bool, rng: Rand, ghost p: nat, ghost n: nat, ghost snap: seq<seq<Color>>)
      requires Valid() && W >= 100 && H >= 100 && |snap| == H && forall y :: 0 <= y < H ==> |snap[y]| == W
      requires rng.Pos == p + 4 * n
      requires forall x, y :: 0 <= x < W && 0 <= y < H ==> Out[x, y] == CorruptAt(x, y, n, rng.Stream, p, uniform, snap[y][x])
      modifies Out, rng
      ensures rng.Pos == p + 4 * (n + 1)
      ensures forall x, y :: 0 <= x < W && 0 <= y < H ==> Out[x, y] == CorruptAt(x, y, n + 1, rng.Stream, p, uniform, snap[y][x])
    {
      var height := rng.Intn(H / 100);
      var width := rng.Intn(W / 100);
      var x := rng.Intn(W);
      var y := rng.Intn(H);
      var r := Rect(x, y, x + width, y + height);
      assert r == CorruptRect(rng.Stream, p + 4 * n);
      var color := Color(0, 200, 0, 100);
      if uniform {
        color := ShiftColor(InAt(x, y), 1);
      }
      assert color == CorruptColor(r, uniform);
      FillRect(r, color);
      forall i, j | 0 <= i < W && 0 <= j < H
        ensures Out[i, j] == CorruptAt(i, j, n + 1, rng.Stream, p, uniform, snap[j][i])
      {
        CorruptStep(i, j, n, rng.Stream, p, uniform, snap[j][i]);
      }
    }

    /** One more corruption: it decides the pixels it covers. */
    lemma CorruptStep(x: int, y: int, n: nat, stream: nat -> nat, p: nat, uniform: bool, before: Color)
      requires Valid() && W >= 100 && H >= 100
      ensures var r := CorruptRect(stream, p + 4 * n);
        CorruptAt(x, y, n + 1, stream, p, uniform, before) ==
          if Covers(r, x, y) then CorruptColor(r, uniform) else CorruptAt(x, y, n, stream, p, uniform, before)
    {
    }

    /** A pixel no corruption rectangle covers keeps its colour. */
    lemma {:induction false} CorruptUntouched(x: int, y: int, n: nat, stream: nat -> nat, p: nat, uniform: bool, before: Color)
      requires Valid() && W >= 100 && H >= 100
      requires forall k :: 0 <= k < n ==> !Covers(CorruptRect(stream, p + 4 * k), x, y)
      ensures CorruptAt(x, y, n, stream, p, uniform, before) == before
    {
      if n > 0 {
        assert !Covers(CorruptRect(stream, p + 4 * (n - 1)), x, y);
        CorruptUntouched(x, y, n - 1, stream, p, uniform, before);
      }
    }

    /** Without `uniform` a pixel is either untouched or the fixed green. */
    lemma {:induction false} CorruptGreen(x: int, y: int, n: nat, stream: nat -> nat, p: nat, before: Color)
      requires Valid() && W >= 100 && H >= 100
      ensures CorruptAt(x, y, n, stream, p, false, before) in {before, Color(0, 200, 0, 100)}
    {
      if n > 0 {
        CorruptGreen(x, y, n - 1, stream, p, before);
      }
    }

    /** Colour `c` is the left-rotated source pixel at most `Max.X/100 - 1`
        columns to the left of and `Max.Y/100 - 1` rows above (x, y). */
    ghost predicate NearSource(c: Color, x: int, y: int)
      requires Valid()
    {
      exists sx, sy :: 0 <= sx <= x < sx + W / 100 && 0 <= sy <= y < sy + H / 100 && sy < H && sx < W &&
        c == ShiftColor(In[sy][sx], 1)
    }

    /** With `uniform` a pixel is either untouched or the rotated colour of a
        nearby source pixel. */
    lemma {:induction false} CorruptLocal(x: int, y: int, n: nat, stream: nat -> nat, p: nat, before: Color)
      requires Valid() && W >= 100 && H >= 100
      ensures var c := CorruptAt(x, y, n, stream, p, true, before); c == before || NearSource(c, x, y)
    {
      if n > 0 {
        var r := CorruptRect(stream, p + 4 * (n - 1));
        if Covers(r, x, y) {
          assert CorruptAt(x, y, n, stream, p, true, before) == ShiftColor(In[r.y0][r.x0], 1);
        } else {
          CorruptLocal(x, y, n - 1, stream, p, before);
        }
      }
    }
  }
}
