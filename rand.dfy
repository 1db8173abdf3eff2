/** The bounded chunk sizer of pkg/chunker/rand.go, and the random source every
    sizer draws from. The time-seeded generator is replaced by an oracle stream:
    the k-th call of `Intn(n)` yields `stream(k) % n`. */
module RandSizer {

  /** Smallest chunk size of this generation of the sizer. */
  const MinChunkSize: nat := 96
  /** Largest chunk size of this generation of the sizer. */
  const MaxChunkSize: nat := 1024

  /** A random source: an oracle stream and the number of values consumed so far. */
  class RandSource {
    const stream: nat -> nat
    var pos: nat

    constructor (stream: nat -> nat)
      ensures this.stream == stream && pos == 0
    {
      this.stream := stream;
      pos := 0;
    }

    /** A value in [0, n); like Go's `Intn`, it demands a positive bound. */
    method Intn(n: nat) returns (r: nat)
      requires n > 0
      modifies this
      ensures r < n
      ensures r == stream(old(pos)) % n && pos == old(pos) + 1
    {
      r := stream(pos) % n;
      pos := pos + 1;
    }
  }

  /** The remainder of `a` divided by a positive `n`, by repeated subtraction. */
  function Mod(a: nat, n: nat): (r: nat)
    requires n > 0
    ensures r < n
    decreases a
  {
    if a < n then a else Mod(a - n, n)
  }

  /** `Mod` is the remainder `%` gives on non-negative operands, in Go as in Dafny. */
  lemma {:induction false} ModIsRemainder(a: nat, n: nat)
    requires n > 0
    ensures Mod(a, n) == a % n
    decreases a
  {
    if a >= n {
      ModIsRemainder(a - n, n);
      ModShift(a - n, n);
    }
  }

  /** Adding the divisor leaves the remainder unchanged. */
  lemma ModShift(b: nat, n: nat)
    requires n > 0
    ensures (b + n) % n == b % n
  {
    var q, r := b / n, b % n;
    assert b == q * n + r;
    assert b + n == (q + 1) * n + r;
    ModUnique(b + n, n, q + 1, r);
  }

  /** The remainder is the only r in [0, n) with a == q * n + r for some q. */
  lemma ModUnique(a: int, n: int, q: int, r: int)
    requires n > 0 && 0 <= r < n && a == q * n + r
    ensures a % n == r
  {
    var q0, r0 := a / n, a % n;
    var d := q0 - q;
    assert d * n == q0 * n - q * n;
    assert d * n == r - r0;
    if d >= 1 {
      MulAtLeast(d, n);
    } else if d <= -1 {
      MulAtLeast(-d, n);
    }
  }

  /** A positive multiple of n is at least n. */
  lemma {:induction false} MulAtLeast(x: int, n: int)
    requires x >= 1 && n > 0
    ensures x * n >= n
    decreases x
  {
    if x > 1 {
      MulAtLeast(x - 1, n);
      assert x * n == (x - 1) * n + n;
    }
  }

  /** The size the sizer returns when the stream value at position k is drawn:
      `lo + Intn(hi - lo + 1)`. */
  function Draw(lo: nat, hi: nat, stream: nat -> nat, k: nat): (size: nat)
    requires 0 < lo <= hi
    ensures lo <= size <= hi
  {
    lo + Mod(stream(k), hi - lo + 1)
  }

  /** Every size in [lo, hi] is drawn by some stream value, and exactly as
      `lo + r` for the value `r` the source yields. */
  lemma DrawIsOffsetOfOracle(lo: nat, hi: nat, stream: nat -> nat, k: nat)
    requires 0 < lo <= hi
    requires stream(k) <= hi - lo
    ensures Draw(lo, hi, stream, k) == lo + stream(k)
  {
  }

  /** A sizer whose only state is its random source; the bounds never change. */
  class ChunkSizer {
    const lo: nat
    const hi: nat
    const randSource: RandSource

    constructor (lo: nat, hi: nat, randSource: RandSource)
      requires 0 < lo <= hi
      ensures this.lo == lo && this.hi == hi && this.randSource == randSource
    {
      this.lo := lo;
      this.hi := hi;
      this.randSource := randSource;
    }

    /** A fresh chunk size (`new()` in the source): at least lo, at most hi,
        hence positive; only the random source advances. */
    method New() returns (size: nat)
      requires 0 < lo <= hi
      modifies randSource
      ensures lo <= size <= hi
      ensures size == Draw(lo, hi, randSource.stream, old(randSource.pos))
      ensures randSource.pos == old(randSource.pos) + 1
    {
      ModIsRemainder(randSource.stream(randSource.pos), hi - lo + 1);
      var r := randSource.Intn(hi - lo + 1);
      size := lo + r;
    }
  }

  /** `newChunkSizer()`: a sizer bounded by [96, 1024] over a fresh random source. */
  method NewChunkSizer(stream: nat -> nat) returns (s: ChunkSizer)
    ensures fresh(s) && fresh(s.randSource)
    ensures s.lo == MinChunkSize && s.hi == MaxChunkSize
    ensures s.randSource.stream == stream && s.randSource.pos == 0
  {
    var source := new RandSource(stream);
    s := new ChunkSizer(MinChunkSize, MaxChunkSize, source);
  }
}
