/**
 * The process-wide generator of Go's `math/rand`, which every effect draws
 * from. The stream of raw draws is a parameter: seeding it (from the wall
 * clock in animation mode) is outside the model. `Intn(n)` takes the next raw
 * draw modulo `n`, which reaches every value of `[0, n)`.
 */
module Random {

  /** The value `Intn(n)` returns when the raw draw is `d`. */
  function Draw(d: nat, n: int): (v: int)
    requires n > 0
    ensures 0 <= v < n
    ensures d < n ==> v == d
  {
    d % n
  }

  /** The value `Float32()` returns when the raw draw is `d`: one of the 2^24
      evenly spaced float32 values of `[0, 1)`. */
  function Unit(d: nat): (f: real)
    ensures 0.0 <= f < 1.0
  {
    (d % 0x100_0000) as real / 0x100_0000 as real
  }

  class Rand {
    /** The raw draws, in the order the program takes them. */
    const Stream: nat -> nat
    /** How many draws have been taken. */
    var Pos: nat

    /** `rand.Seed`: a fresh stream, nothing taken yet. */
    constructor (stream: nat -> nat)
      ensures Stream == stream && Pos == 0
    {
      Stream := stream;
      Pos := 0;
    }

    /** `rand.Intn(n)`; Go panics when `n <= 0`. */
    method Intn(n: int) returns (v: int)
      requires n > 0
      modifies this
      ensures Pos == old(Pos) + 1
      ensures v == Draw(Stream(old(Pos)), n)
    {
      v := Draw(Stream(Pos), n);
      Pos := Pos + 1;
    }

    /** `rand.Float32()`. */
    method Float32() returns (f: real)
      modifies this
      ensures Pos == old(Pos) + 1
      ensures f == Unit(Stream(old(Pos)))
    {
      f := Unit(Stream(Pos));
      Pos := Pos + 1;
    }
  }
}
