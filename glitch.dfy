/**
 * The command-line program: the effect list it reads from the `effects`
 * flag, what each named effect does on frame `imgNumber` of a run, the
 * program's own copy of `Split` (whose wrap test differs from the effect
 * library's), and the names of the frame files a GIF run writes and then
 * reads back in sorted order. The program's copies of Streak, Burst,
 * ShiftChannel, ColorBoost, VerticalSplit, ParseHexColor and minInt behave
 * as the effect library's do, and are used from there.
 */
module Glitch {
  import opened Pixel
  import opened Helpers
  import opened Effects
  import opened Random
  import opened Soryu

  // ----- The program's own Split -----

  /** The program's `Split`: the band walk of the effect library, but the
      wrap fires only when `x + width > Max.X`, so a sample column equal to
      `Max.X` reads the zero colour. */
  method Split(img: Img, height: int, width: int, split: bool)
    requires img.Valid() && (height > 0 || img.H == 0)
    modifies img.Out
    ensures forall x, y :: 0 <= x < img.W && 0 <= y < img.H ==>
      img.Out[x, y] == if InCopyBand(y, height, split, img.H) then img.InAt(WrapCoord(x + width, img.W, PastMax), y) else old(img.Out[x, y])
  {
    img.SplitBands(height, width, split, PastMax);
  }

  /** The two `Split`s sample different columns exactly when the shifted
      column lands on `Max.X` of a non-empty image. */
  lemma SplitWrapDiffers(t: int, max: int)
    ensures WrapCoord(t, max, AtMax) != WrapCoord(t, max, PastMax) <==> t == max && max != 0
  {
  }

  // ----- The effect list -----

  /** One step of `SplitOn`: the character `c` in front of the parts `rest`
      of what follows it. */
  function PushChar(c: char, sep: char, rest: seq<string>): seq<string>
    requires |rest| >= 1
  {
    if c == sep then [""] + rest else [[c] + rest[0]] + rest[1..]
  }

  /** `strings.Split(s, sep)` for a one-character separator: the pieces
      between separators, an empty string giving one empty piece. */
  function SplitOn(s: string, sep: char): (parts: seq<string>)
    ensures |parts| >= 1
    ensures forall i :: 0 <= i < |parts| ==> sep !in parts[i]
    decreases |s|
  {
    if |s| == 0 then [""] else PushChar(s[0], sep, SplitOn(s[1..], sep))
  }

  /** `strings.Join(parts, sep)`. */
  function JoinWith(parts: seq<string>, sep: char): string
    requires |parts| >= 1
    decreases |parts|
  {
    if |parts| == 1 then parts[0] else parts[0] + [sep] + JoinWith(parts[1..], sep)
  }

  /** Gluing a character to the first piece glues it to the joined string. */
  lemma {:induction false} JoinCons(c: char, parts: seq<string>, sep: char)
    requires |parts| >= 1
    ensures JoinWith([[c] + parts[0]] + parts[1..], sep) == [c] + JoinWith(parts, sep)
  {
    var glued := [[c] + parts[0]] + parts[1..];
    if |parts| > 1 {
      assert glued[1..] == parts[1..];
    }
  }

  /** Joining the pieces with the separator gives the string back. */
  lemma {:induction false} SplitJoin(s: string, sep: char)
    ensures JoinWith(SplitOn(s, sep), sep) == s
    decreases |s|
  {
    if |s| > 0 {
      var rest := SplitOn(s[1..], sep);
      SplitJoin(s[1..], sep);
      if s[0] == sep {
        assert ([""] + rest)[1..] == rest;
      } else {
        JoinCons(s[0], rest, sep);
      }
      assert s == [s[0]] + s[1..];
    }
  }

  /** A string free of the separator is one piece. */
  lemma {:induction false} SplitPlain(a: string, sep: char)
    requires sep !in a
    ensures SplitOn(a, sep) == [a]
    decreases |a|
  {
    if |a| > 0 {
      SplitPlain(a[1..], sep);
      assert [a[0]] + a[1..] == a;
    }
  }

  /** A separator-free piece followed by a separator splits off as the first piece. */
  lemma {:induction false} SplitHead(a: string, t: string, sep: char)
    requires sep !in a
    ensures SplitOn(a + [sep] + t, sep) == [a] + SplitOn(t, sep)
    decreases |a|
  {
    var s := a + [sep] + t;
    if |a| == 0 {
      assert s[1..] == t;
    } else {
      assert s[1..] == a[1..] + [sep] + t;
      SplitHead(a[1..], t, sep);
      assert [a[0]] + a[1..] == a;
    }
  }

  /** Splitting a join of separator-free pieces gives the pieces back. */
  lemma {:induction false} JoinSplit(parts: seq<string>, sep: char)
    requires |parts| >= 1 && forall i :: 0 <= i < |parts| ==> sep !in parts[i]
    ensures SplitOn(JoinWith(parts, sep), sep) == parts
    decreases |parts|
  {
    if |parts| == 1 {
      SplitPlain(parts[0], sep);
    } else {
      JoinSplit(parts[1..], sep);
      SplitHead(parts[0], JoinWith(parts[1..], sep), sep);
      assert [parts[0]] + parts[1..] == parts;
    }
  }

  // ----- One effect name on one frame -----

  /** What `CreateGlitchedImage` does for one effect name. */
  datatype Step =
    | Skip
    | RunStreak(bump: bool)
    | RunBurst
    | RunShiftChannel
    | RunColorBoost
    | RunSplit(widen: bool)
    | RunVerticalSplit(widen: bool)
    | Unmodelled

  /** The effect names the program's switch knows. */
  predicate Known(token: string)
  {
    token in {"Streak", "Burst", "ShiftChannel", "Ghost", "GhostStretch", "ColorBoost", "Split", "VerticalSplit", "Noise"}
  }

  /** The switch of `CreateGlitchedImage` on frame `frame`: even frames grow
      the streak amount and skip Burst, every fifth frame skips both splits,
      and frames 1 and 3 widen the split bands by a draw. Names the switch
      does not know are skipped. */
  function Plan(token: string, frame: nat): (s: Step)
    ensures s.RunStreak? <==> token == "Streak"
    ensures s.RunStreak? ==> (s.bump <==> frame % 2 == 0)
    ensures s.RunBurst? <==> token == "Burst" && frame % 2 == 1
    ensures s.RunSplit? <==> token == "Split" && frame % 5 != 0
    ensures s.RunVerticalSplit? <==> token == "VerticalSplit" && frame % 5 != 0
    ensures (s.RunSplit? || s.RunVerticalSplit?) ==> (s.widen <==> frame == 1 || frame == 3)
    ensures s == RunShiftChannel <==> token == "ShiftChannel"
    ensures s == RunColorBoost <==> token == "ColorBoost"
    ensures s == Unmodelled <==> token in {"Ghost", "GhostStretch", "Noise"}
    ensures s == Skip <==>
      (!Known(token) || (token == "Burst" && frame % 2 == 0) || ((token == "Split" || token == "VerticalSplit") && frame % 5 == 0))
  {
    match token
    case "Streak" => RunStreak(frame % 2 == 0)
    case "Burst" => if frame % 2 == 0 then Skip else RunBurst
    case "ShiftChannel" => RunShiftChannel
    case "ColorBoost" => RunColorBoost
    case "Split" => if frame % 5 == 0 then Skip else RunSplit(frame == 1 || frame == 3)
    case "VerticalSplit" => if frame % 5 == 0 then Skip else RunVerticalSplit(frame == 1 || frame == 3)
    case "Ghost" => Unmodelled
    case "GhostStretch" => Unmodelled
    case "Noise" => Unmodelled
    case _ => Skip
  }

  /** A name the switch does not know, such as one with a space left over
      from the comma split, changes nothing and takes no draw. */
  lemma UnknownTokenInert(token: string, frame: nat, amount: int, stream: nat -> nat, pos: nat)
    requires !Known(token)
    ensures Plan(token, frame) == Skip
    ensures StepAfter(Plan(token, frame), amount, stream, pos) == (amount, pos)
  {
  }

  /** The plans of a list of effect names, in list order. */
  function Plans(tokens: seq<string>, frame: nat): seq<Step>
  {
    seq(|tokens|, i requires 0 <= i < |tokens| => Plan(tokens[i], frame))
  }

  /** The steps of a comma-separated effect list on frame `frame`. */
  function Steps(effects: string, frame: nat): seq<Step>
  {
    Plans(SplitOn(effects, ','), frame)
  }

  /** Pushing a character only touches the first part. */
  lemma PushAppend(c: char, sep: char, left: seq<string>, right: seq<string>)
    requires |left| >= 1
    ensures PushChar(c, sep, left + right) == PushChar(c, sep, left) + right
  {
    if c != sep {
      assert (left + right)[1..] == left[1..] + right;
    }
  }

  /** Splitting at a separator splits each side on its own. */
  lemma {:induction false} SplitConcat(x: string, y: string, sep: char)
    ensures SplitOn(x + [sep] + y, sep) == SplitOn(x, sep) + SplitOn(y, sep)
    decreases |x|
  {
    var s := x + [sep] + y;
    if |x| == 0 {
      assert s[1..] == y;
    } else {
      assert s[1..] == x[1..] + [sep] + y;
      SplitConcat(x[1..], y, sep);
      var left := SplitOn(x[1..], sep);
      PushAppend(x[0], sep, left, SplitOn(y, sep));
    }
  }

  /** A list joined from names free of commas runs the plans of those names,
      one step per name, in order. */
  lemma StepsOfJoin(tokens: seq<string>, frame: nat)
    requires |tokens| >= 1 && forall i :: 0 <= i < |tokens| ==> ',' !in tokens[i]
    ensures Steps(JoinWith(tokens, ','), frame) == Plans(tokens, frame)
  {
    JoinSplit(tokens, ',');
  }

  /** Two lists joined by a comma run the steps of the first, then those of
      the second. */
  lemma StepsConcat(x: string, y: string, frame: nat)
    ensures Steps(x + "," + y, frame) == Steps(x, frame) + Steps(y, frame)
  {
    SplitConcat(x, y, ',');
  }

  /** The steps that do something: the list without its skipped steps. */
  function Active(steps: seq<Step>): seq<Step>
    decreases |steps|
  {
    if |steps| == 0 then []
    else if steps[0] == Skip then Active(steps[1..])
    else [steps[0]] + Active(steps[1..])
  }

  lemma {:induction false} ActiveConcat(a: seq<Step>, b: seq<Step>)
    ensures Active(a + b) == Active(a) + Active(b)
    decreases |a|
  {
    if |a| > 0 {
      assert (a + b)[1..] == a[1..] + b;
      ActiveConcat(a[1..], b);
    } else {
      assert a + b == b;
    }
  }

  /** No step of the list runs an effect the model leaves out. */
  predicate Modelled(steps: seq<Step>)
  {
    forall i :: 0 <= i < |steps| ==> steps[i] != Unmodelled
  }

  /** The streak amount and the number of draws taken after one step, from
      `amount` and draw position `pos`: a bump adds `Intn(100)/5 + 5`, each
      streak takes two draws, Burst two, a widened split one. Ghost,
      GhostStretch and Noise also draw, and are not modelled. */
  function StepAfter(step: Step, amount: int, stream: nat -> nat, pos: nat): (r: (int, nat))
    requires step != Unmodelled
    ensures pos <= r.1
    ensures step == Skip ==> r == (amount, pos)
  {
    match step
    case RunStreak(bump) =>
      var a := if bump then amount + Draw(stream(pos), 100) / 5 + 5 else amount;
      (a, (if bump then pos + 1 else pos) + 2 * MaxInt(a, 0))
    case RunBurst => (amount, pos + 2)
    case RunSplit(widen) => (amount, if widen then pos + 1 else pos)
    case RunVerticalSplit(widen) => (amount, if widen then pos + 1 else pos)
    case RunShiftChannel => (amount, pos)
    case RunColorBoost => (amount, pos)
    case Skip => (amount, pos)
  }

  /** `StepAfter` over a whole list of steps. */
  function After(steps: seq<Step>, amount: int, stream: nat -> nat, pos: nat): (r: (int, nat))
    requires Modelled(steps)
    ensures pos <= r.1
    decreases |steps|
  {
    if |steps| == 0 then (amount, pos)
    else
      var next := StepAfter(steps[0], amount, stream, pos);
      After(steps[1..], next.0, stream, next.1)
  }

  /** Running two lists one after the other is running their concatenation. */
  lemma {:induction false} AfterConcat(a: seq<Step>, b: seq<Step>, amount: int, stream: nat -> nat, pos: nat)
    requires Modelled(a) && Modelled(b)
    ensures Modelled(a + b)
    ensures var mid := After(a, amount, stream, pos);
      After(a + b, amount, stream, pos) == After(b, mid.0, stream, mid.1)
    decreases |a|
  {
    if |a| > 0 {
      assert (a + b)[1..] == a[1..] + b;
      var next := StepAfter(a[0], amount, stream, pos);
      AfterConcat(a[1..], b, next.0, stream, next.1);
    } else {
      assert a + b == b;
    }
  }

  /** Skipped steps take no draws and leave the streak amount: only the
      active steps decide both. */
  lemma {:induction false} AfterActive(steps: seq<Step>, amount: int, stream: nat -> nat, pos: nat)
    requires Modelled(steps)
    ensures Modelled(Active(steps))
    ensures After(steps, amount, stream, pos) == After(Active(steps), amount, stream, pos)
    decreases |steps|
  {
    if |steps| > 0 {
      var next := StepAfter(steps[0], amount, stream, pos);
      AfterActive(steps[1..], next.0, stream, next.1);
      if steps[0] != Skip {
        var act := [steps[0]] + Active(steps[1..]);
        assert act[1..] == Active(steps[1..]);
      }
    }
  }

  /** An unknown name anywhere in the list (first, between two lists, or
      last) leaves the same effects to run in the same order, and the same
      streak amount and draws, as the list without it. */
  lemma UnknownTokenDropped(x: string, token: string, y: string, frame: nat, amount: int, stream: nat -> nat, pos: nat)
    requires !Known(token) && ',' !in token
    requires Modelled(Steps(x, frame)) && Modelled(Steps(y, frame))
    ensures Active(Steps(x + "," + token + "," + y, frame)) == Active(Steps(x + "," + y, frame))
    ensures Active(Steps(token + "," + y, frame)) == Active(Steps(y, frame))
    ensures Active(Steps(x + "," + token, frame)) == Active(Steps(x, frame))
    ensures Modelled(Steps(x + "," + token + "," + y, frame)) && Modelled(Steps(x + "," + y, frame))
    ensures After(Steps(x + "," + token + "," + y, frame), amount, stream, pos) == After(Steps(x + "," + y, frame), amount, stream, pos)
  {
    var sx, sy := Steps(x, frame), Steps(y, frame);
    SplitPlain(token, ',');
    assert Steps(token, frame) == [Skip];
    StepsConcat(token, y, frame);
    StepsConcat(x, token, frame);
    assert x + "," + token + "," + y == x + "," + (token + "," + y);
    StepsConcat(x, token + "," + y, frame);
    StepsConcat(x, y, frame);
    SkipDropped(sx, sy, amount, stream, pos);
  }

  /** A skipped step between, before or after modelled steps changes
      neither the active steps nor the amount and draws. */
  lemma SkipDropped(sx: seq<Step>, sy: seq<Step>, amount: int, stream: nat -> nat, pos: nat)
    requires Modelled(sx) && Modelled(sy)
    ensures Active(sx + ([Skip] + sy)) == Active(sx + sy)
    ensures Active([Skip] + sy) == Active(sy)
    ensures Active(sx + [Skip]) == Active(sx)
    ensures Modelled(sx + ([Skip] + sy)) && Modelled(sx + sy)
    ensures After(sx + ([Skip] + sy), amount, stream, pos) == After(sx + sy, amount, stream, pos)
  {
    var with, without := sx + ([Skip] + sy), sx + sy;
    ActiveConcat([Skip], sy);
    ActiveConcat(sx, [Skip] + sy);
    ActiveConcat(sx, sy);
    ActiveConcat(sx, [Skip]);
    assert Active([Skip]) == [];
    assert Modelled(with) && Modelled(without);
    AfterActive(with, amount, stream, pos);
    AfterActive(without, amount, stream, pos);
  }

  /** How many steps grow the streak amount. */
  function Bumps(steps: seq<Step>): nat
  {
    if |steps| == 0 then 0 else (if steps[0] == RunStreak(true) then 1 else 0) + Bumps(steps[1..])
  }

  /** Every bump grows the streak amount by 5 to 24, and nothing else changes it. */
  lemma {:induction false} AmountGrowth(steps: seq<Step>, amount: int, stream: nat -> nat, pos: nat)
    requires Modelled(steps)
    ensures amount + 5 * Bumps(steps) <= After(steps, amount, stream, pos).0 <= amount + 24 * Bumps(steps)
    decreases |steps|
  {
    if |steps| > 0 {
      var next := StepAfter(steps[0], amount, stream, pos);
      AmountGrowth(steps[1..], next.0, stream, next.1);
    }
  }

  /** Odd frames never bump: the streak amount comes out as it went in. */
  lemma OddFrameKeepsAmount(effects: string, frame: nat, amount: int, stream: nat -> nat, pos: nat)
    requires frame % 2 == 1 && Modelled(Steps(effects, frame))
    ensures After(Steps(effects, frame), amount, stream, pos).0 == amount
  {
    var steps := Steps(effects, frame);
    NoBumps(steps);
    AmountGrowth(steps, amount, stream, pos);
  }

  /** A list without a bumping streak step has no bumps. */
  lemma {:induction false} NoBumps(steps: seq<Step>)
    requires forall i :: 0 <= i < |steps| ==> steps[i] != RunStreak(true)
    ensures Bumps(steps) == 0
    decreases |steps|
  {
    if |steps| > 0 {
      NoBumps(steps[1..]);
    }
  }

  /** The frame indices `Run` passes: frame 1 for a single image, frames
      `0 .. gifFrames - 1` for a GIF. A single image is thus an odd frame
      that no split skips and that widens the splits. */
  function Frames(makegif: bool, gifFrames: int): (r: seq<nat>)
    ensures !makegif ==> |r| == 1 && r[0] % 2 == 1 && r[0] % 5 != 0 && (r[0] == 1 || r[0] == 3)
    ensures makegif ==> |r| == MaxInt(gifFrames, 0) && forall i :: 0 <= i < |r| ==> r[i] == i
  {
    if !makegif then [1] else seq(MaxInt(gifFrames, 0), i => i)
  }

  // ----- The program's settings and CreateGlitchedImage -----

  /** The command-line flags the effects read. `streakAmount` is the one
      the program changes: it keeps growing across the frames of a run. */
  class Settings {
    var streakAmount: int
    const streakWidth: int
    const streakLeft: bool
    const shiftLeft: bool
    const colorBoost: string
    const splitWidth: int
    const splitLength: int
    const effects: string

    constructor (amount: int, width: int, left: bool, shift: bool, boost: string, sWidth: int, sLength: int, list: string)
      ensures streakAmount == amount && streakWidth == width && streakLeft == left && shiftLeft == shift
      ensures colorBoost == boost && splitWidth == sWidth && splitLength == sLength && effects == list
    {
      streakAmount, streakWidth, streakLeft, shiftLeft := amount, width, left, shift;
      colorBoost, splitWidth, splitLength, effects := boost, sWidth, sLength, list;
    }

    /** What a step needs so that the effect it calls ends and does not
        panic on `img`. */
    predicate Runs(img: Img, step: Step)
    {
      match step
      case RunStreak(_) => img.W > 0 && img.H > 0 && (streakLeft || streakWidth != 0)
      case RunBurst => img.H >= 10
      case RunSplit(_) => splitWidth > 0 || img.H == 0
      case RunVerticalSplit(_) => splitWidth > 0 || img.W == 0
      case Unmodelled => false
      case _ => true
    }

    /** The band size of a split step: `splitWidth`, plus `Intn(10)` on a
        frame that widens it. */
    method Widened(widen: bool, rng: Rand) returns (w: int)
      modifies rng
      ensures rng.Pos == old(rng.Pos) + (if widen then 1 else 0)
      ensures w == splitWidth + (if widen then Draw(rng.Stream(old(rng.Pos)), 10) else 0)
    {
      w := splitWidth;
      if widen {
        var d := rng.Intn(10);
        w := splitWidth + d;
      }
    }

    /** A Streak step: on a bumping frame the streak amount first grows by
        `Intn(100)/5 + 5`, then that many streaks run. */
    method ApplyStreak(img: Img, bump: bool, rng: Rand, conv: nat -> byte)
      requires img.Valid() && Runs(img, RunStreak(bump))
      modifies this, img.Out, rng
      ensures (streakAmount, rng.Pos) == StepAfter(RunStreak(bump), old(streakAmount), rng.Stream, old(rng.Pos))
      ensures streakLeft ==>
        var start := if bump then old(rng.Pos) + 1 else old(rng.Pos);
        forall x, y :: 0 <= x < img.W && 0 <= y < img.H ==>
          img.Out[x, y] == img.StreakPic(old(img.Snapshot()), rng.Stream, start, MaxInt(streakAmount, 0), conv)[y][x]
      ensures !streakLeft ==>
        forall x, y :: 0 <= x < img.W && 0 <= y < img.H ==> img.Out[x, y] == old(img.Out[x, y])
    {
      if bump {
        var d := rng.Intn(100);
        streakAmount := streakAmount + d / 5 + 5;
      }
      img.Streak(streakAmount, streakWidth, streakLeft, rng, conv);
    }

    /** One step of `CreateGlitchedImage` on the output of `img`. */
    method Apply(img: Img, step: Step, rng: Rand, conv: nat -> byte)
      requires img.Valid() && Runs(img, step)
      modifies this, img.Out, rng
      ensures (streakAmount, rng.Pos) == StepAfter(step, old(streakAmount), rng.Stream, old(rng.Pos))
      ensures step == Skip ==> forall x, y :: 0 <= x < img.W && 0 <= y < img.H ==> img.Out[x, y] == old(img.Out[x, y])
      ensures step == RunShiftChannel ==> forall x, y :: 0 <= x < img.W && 0 <= y < img.H ==>
        img.Out[x, y] == ShiftColor(old(img.Out[x, y]), if shiftLeft then 1 else 0)
      ensures step == RunColorBoost ==> forall x, y :: 0 <= x < img.W && 0 <= y < img.H ==>
        img.Out[x, y] == BoostPixel(old(img.Out[x, y]), colorBoost)
      ensures step.RunSplit? ==>
        var height := splitWidth + (if step.widen then Draw(rng.Stream(old(rng.Pos)), 10) else 0);
        forall x, y :: 0 <= x < img.W && 0 <= y < img.H ==>
          img.Out[x, y] == if InCopyBand(y, height, false, img.H) then img.InAt(WrapCoord(x + splitLength, img.W, PastMax), y) else old(img.Out[x, y])
      ensures step.RunVerticalSplit? ==>
        var width := splitWidth + (if step.widen then Draw(rng.Stream(old(rng.Pos)), 10) else 0);
        forall x, y :: 0 <= x < img.W && 0 <= y < img.H ==>
          img.Out[x, y] == if InCopyBand(x, width, false, img.W) then img.InAt(x, WrapCoord(y + splitLength, img.H, PastMax)) else old(img.Out[x, y])
      ensures step == RunBurst ==>
        var offset := Draw(rng.Stream(old(rng.Pos)), img.H / 10) + 25;
        var alpha := Draw(rng.Stream(old(rng.Pos) + 1), MAXC);
        forall x, y :: 0 <= x < img.W && 0 <= y < img.H ==> img.Out[x, y] == old(img.BurstAt(x, y, offset, alpha))
      ensures step.RunStreak? && streakLeft ==>
        var start := if step.bump then old(rng.Pos) + 1 else old(rng.Pos);
        forall x, y :: 0 <= x < img.W && 0 <= y < img.H ==>
          img.Out[x, y] == img.StreakPic(old(img.Snapshot()), rng.Stream, start, MaxInt(streakAmount, 0), conv)[y][x]
      ensures step.RunStreak? && !streakLeft ==>
        forall x, y :: 0 <= x < img.W && 0 <= y < img.H ==> img.Out[x, y] == old(img.Out[x, y])
    {
      match step
      case RunStreak(bump) =>
        ApplyStreak(img, bump, rng, conv);
      case RunBurst =>
        img.Burst(rng);
      case RunShiftChannel =>
        img.ShiftChannel(shiftLeft);
      case RunColorBoost =>
        img.ColorBoost(colorBoost);
      case RunSplit(widen) =>
        var newWidth := Widened(widen, rng);
        Split(img, newWidth, splitLength, false);
      case RunVerticalSplit(widen) =>
        var newWidth := Widened(widen, rng);
        img.VerticalSplit(newWidth, splitLength, false);
      case Skip =>
      case Unmodelled =>
        assert false;
    }

    /** `CreateGlitchedImage` on frame `frame`: the output starts as a copy
        of the source and the effects of the list run in order. The streak
        amount and the draws taken follow `After`; a list that runs nothing
        on this frame leaves the plain copy. */
    method CreateGlitchedImage(img: Img, frame: nat, rng: Rand, conv: nat -> byte) returns (result: Img)
      requires img.Valid()
      requires Modelled(Steps(effects, frame))
      requires forall i :: 0 <= i < |Steps(effects, frame)| ==> Runs(img, Steps(effects, frame)[i])
      modifies this, img.Out, rng
      ensures result == img
      ensures (streakAmount, rng.Pos) == After(Steps(effects, frame), old(streakAmount), rng.Stream, old(rng.Pos))
      ensures (forall i :: 0 <= i < |Steps(effects, frame)| ==> Steps(effects, frame)[i] == Skip) ==>
        forall x, y :: 0 <= x < img.W && 0 <= y < img.H ==> img.Out[x, y] == img.In[y][x]
    {
      img.Copy();
      var steps := Steps(effects, frame);
      ghost var a0, p0 := streakAmount, rng.Pos;
      var k := 0;
      while k < |steps|
        invariant 0 <= k <= |steps|
        invariant After(steps, a0, rng.Stream, p0) == After(steps[k..], streakAmount, rng.Stream, rng.Pos)
        invariant (forall i :: 0 <= i < |steps| ==> steps[i] == Skip) ==>
          forall x, y :: 0 <= x < img.W && 0 <= y < img.H ==> img.Out[x, y] == img.In[y][x]
      {
        ghost var before := (streakAmount, rng.Pos);
        Apply(img, steps[k], rng, conv);
        assert steps[k..][1..] == steps[k + 1..];
        assert After(steps[k..], before.0, rng.Stream, before.1) == After(steps[k + 1..], streakAmount, rng.Stream, rng.Pos);
        k := k + 1;
      }
      result := img;
    }
  }

  // ----- Frame files -----

  /** The character of decimal digit `d`. */
  function Digit(d: int): (c: char)
    requires 0 <= d < 10
    ensures '0' <= c <= '9'
  {
    ('0' as int + d) as char
  }

  /** `%d` of a non-negative number. */
  function Decimal(n: nat): (s: string)
    ensures |s| >= 1 && forall i :: 0 <= i < |s| ==> '0' <= s[i] <= '9'
    ensures |s| == 1 <==> n < 10
  {
    if n < 10 then [Digit(n)] else Decimal(n / 10) + [Digit(n % 10)]
  }

  /** The value of a string of decimal digits. */
  function DecimalValue(s: string): nat
    requires forall i :: 0 <= i < |s| ==> '0' <= s[i] <= '9'
  {
    if |s| == 0 then 0 else DecimalValue(s[..|s| - 1]) * 10 + (s[|s| - 1] as int - '0' as int)
  }

  /** Reading the digits back gives the number, so no two frames share a name. */
  lemma {:induction false} DecimalRoundTrip(n: nat)
    ensures DecimalValue(Decimal(n)) == n
    decreases n
  {
    if n >= 10 {
      var s := Decimal(n);
      DecimalRoundTrip(n / 10);
      assert s[..|s| - 1] == Decimal(n / 10);
    }
  }

  /** The file frame `i` of a GIF run is written to, as the glob lists it. */
  function FrameName(i: nat): (name: string)
    ensures |name| == |Decimal(i)| + 8
    ensures name[..4] == "temp" && name[|name| - 4..] == ".png"
  {
    "temp" + Decimal(i) + ".png"
  }

  /** Go's `<` on strings: byte-wise lexicographic order. */
  function StringLess(a: string, b: string): bool
    decreases |a|
  {
    if |a| == 0 then |b| > 0
    else if |b| == 0 then false
    else if a[0] != b[0] then a[0] < b[0]
    else StringLess(a[1..], b[1..])
  }

  /** A shared prefix does not decide the order. */
  lemma {:induction false} LessAfterPrefix(p: string, a: string, b: string)
    ensures StringLess(p + a, p + b) == StringLess(a, b)
    decreases |p|
  {
    if |p| > 0 {
      assert (p + a)[0] == p[0] == (p + b)[0];
      assert (p + a)[1..] == p[1..] + a;
      assert (p + b)[1..] == p[1..] + b;
      LessAfterPrefix(p[1..], a, b);
      assert StringLess(p + a, p + b) == StringLess((p + a)[1..], (p + b)[1..]);
    } else {
      assert p + a == a && p + b == b;
    }
  }

  /** `sort.Strings` puts the frame files in frame order exactly when there
      are at most ten of them: "temp10.png" sorts before "temp2.png". */
  lemma FramesSortInOrder(n: nat)
    ensures (forall i, j :: 0 <= i < j < n ==> StringLess(FrameName(i), FrameName(j))) <==> n <= 10
  {
    if n <= 10 {
      forall i, j | 0 <= i < j < n
        ensures StringLess(FrameName(i), FrameName(j))
      {
        LessAfterPrefix("temp", Decimal(i) + ".png", Decimal(j) + ".png");
        assert "temp" + Decimal(i) + ".png" == "temp" + (Decimal(i) + ".png");
        assert "temp" + Decimal(j) + ".png" == "temp" + (Decimal(j) + ".png");
      }
    } else {
      assert Decimal(10) == "10";
      LessAfterPrefix("temp", "2.png", "10.png");
      assert FrameName(2) == "temp" + "2.png";
      assert FrameName(10) == "temp" + "10.png";
      assert !StringLess(FrameName(2), FrameName(10));
    }
  }
}
