/** The later generation of chunk sizers (pkg/chunker/chunksizer.go): the random
    sizer with a 1 MiB ceiling, the skewed sizer and the slab-table sizer.
    Floating-point draws are replaced by oracle arguments; the integer draws come
    from a random source. */
module ChunkSizers {
  import RandSizer

  /** Smallest chunk size of this generation. */
  const MinChunkSize: nat := 96
  /** Largest chunk size of this generation (1 MiB). */
  const MaxChunkSize: nat := 1048576
  /** First size of the skewed sizer's upper range. */
  const SkewSplit: nat := 251904

  /** `newRandomChunkSizer()`: the same draw as rand.go's sizer, bounded by [96, 1048576]. */
  method NewRandomChunkSizer(stream: nat -> nat) returns (s: RandSizer.ChunkSizer)
    ensures fresh(s) && fresh(s.randSource)
    ensures s.lo == MinChunkSize && s.hi == MaxChunkSize
    ensures s.randSource.stream == stream && s.randSource.pos == 0
  {
    var source := new RandSizer.RandSource(stream);
    s := new RandSizer.ChunkSizer(MinChunkSize, MaxChunkSize, source);
  }

  /** An inclusive range of sizes. */
  datatype Range = Range(min: nat, max: nat)
  {
    predicate Contains(n: nat) { min <= n <= max }
  }

  /** One backend slab class: sizes from start to end. */
  datatype Slab = Slab(start: nat, end: nat)

  /** The fixed slab table of the cumulative sizer. */
  const Slabs: seq<Slab> := [
    Slab(96, 120), Slab(120, 152), Slab(152, 192), Slab(192, 304),
    Slab(304, 480), Slab(480, 752), Slab(752, 944), Slab(944, 1228),
    Slab(1228, 1433), Slab(1433, 1843), Slab(1843, 2355), Slab(2355, 2867),
    Slab(2867, 3584), Slab(3584, 4505), Slab(4505, 5632), Slab(5632, 7065),
    Slab(7065, 8908), Slab(8908, 11059), Slab(11059, 13926), Slab(13926, 17305),
    Slab(17305, 21708), Slab(21708, 27136), Slab(27136, 33894), Slab(33894, 42393),
    Slab(42393, 52940), Slab(52940, 66252), Slab(66252, 82841), Slab(82841, 103526),
    Slab(103526, 129331), Slab(129331, 161689), Slab(161689, 202137), Slab(202137, 252723),
    Slab(252723, 315904), Slab(315904, 394854), Slab(394854, 524288), Slab(524288, 1048576)
  ]

  /** The range the cumulative sizer falls back to when no slab is selected. */
  const Fallback: Range := Range(524288, 1048576)

  /** The slab table has 36 slabs that tile [96, 1048576]: each is non-empty and
      ends where the next one starts. */
  lemma SlabTableShape()
    ensures |Slabs| == 36
    ensures Slabs[0].start == MinChunkSize && Slabs[35].end == MaxChunkSize
    ensures forall i :: 0 <= i < |Slabs| ==> Slabs[i].start < Slabs[i].end
    ensures forall i :: 0 <= i < |Slabs| - 1 ==> Slabs[i].end == Slabs[i + 1].start
  {
  }

  /** randomInRange AS WRITTEN: `Intn(max - min + 1)` for the stream value r,
      without adding min. */
  function InRange(range: Range, r: nat): (size: nat)
    requires range.min <= range.max
    ensures size <= range.max - range.min
  {
    r % (range.max - range.min + 1)
  }

  /** randomInRange as evidently intended: `min + Intn(max - min + 1)`. */
  function InRangeFixed(range: Range, r: nat): (size: nat)
    requires range.min <= range.max
    ensures range.Contains(size)
    ensures size - range.min == InRange(range, r)
  {
    range.min + InRange(range, r)
  }

  /** As written, a draw of 0 yields size 0, below every sizer's minimum; a split
      loop using it would never advance. */
  lemma InRangeDropsMinimum()
    ensures InRange(Range(MinChunkSize, SkewSplit - 1), 0) == 0 < MinChunkSize
  {
  }

  /** The range the skewed sizer draws from: the lower one when the float draw is
      above the ratio 20/80, the upper one otherwise. */
  function SkewedRange(aboveRatio: bool): (range: Range)
    ensures range.min <= range.max
  {
    if aboveRatio then Range(MinChunkSize, SkewSplit - 1) else Range(SkewSplit, MaxChunkSize)
  }

  /** The two skewed ranges split [96, 1048576] into two disjoint parts. */
  lemma SkewedRangesPartition(n: nat)
    ensures MinChunkSize <= n <= MaxChunkSize <==> SkewedRange(true).Contains(n) || SkewedRange(false).Contains(n)
    ensures !(SkewedRange(true).Contains(n) && SkewedRange(false).Contains(n))
  {
  }

  /** The range the cumulative sizer draws from for oracle index `pick`
      (the slab whose cumulative probability first exceeds the float draw). */
  function SlabRange(pick: nat): (range: Range)
    ensures range.min <= range.max
    ensures pick < |Slabs| ==> range == Range(Slabs[pick].start, Slabs[pick].end)
    ensures pick >= |Slabs| ==> range == Fallback
  {
    SlabTableShape();
    if pick < |Slabs| then Range(Slabs[pick].start, Slabs[pick].end) else Fallback
  }

  /** Every range any sizer of this file draws from lies within [96, 1048576], so
      the corrected draw always returns a valid chunk size. */
  lemma SizerRangesWithinBounds(aboveRatio: bool, pick: nat, r: nat)
    ensures MinChunkSize <= InRangeFixed(SkewedRange(aboveRatio), r) <= MaxChunkSize
    ensures MinChunkSize <= InRangeFixed(SlabRange(pick), r) <= MaxChunkSize
  {
  }

  /** The skewed sizer. */
  class SkewedChunkSizer {
    const random: RandSizer.RandSource

    constructor (random: RandSizer.RandSource)
      ensures this.random == random
    {
      this.random := random;
    }

    /** `NextChunkSize`. The source draws twice from its generator: a float, then
        the integer offset. The float comparison `skew > 20/80` is the oracle
        argument `aboveRatio` and takes no value from the stream, so the stream
        advances by one, for the integer draw. */
    method NextChunkSize(aboveRatio: bool) returns (size: nat)
      modifies random
      ensures size == InRange(SkewedRange(aboveRatio), random.stream(old(random.pos)))
      ensures random.pos == old(random.pos) + 1
    {
      if aboveRatio {
        size := RandomInRange(MinChunkSize, SkewSplit - 1, random);
      } else {
        size := RandomInRange(SkewSplit, MaxChunkSize, random);
      }
    }
  }

  /** The slab-table sizer. */
  class CumulativeChunkSizer {
    const random: RandSizer.RandSource

    constructor (random: RandSizer.RandSource)
      ensures this.random == random
    {
      this.random := random;
    }

    /** `NextChunkSize`: walks the slab table adding one slab's share at a time
        until the running total exceeds the draw. The float draw is given as the
        oracle index `pick` (the draw times the slab count, rounded down); a pick
        past the table reaches the fallback range, as float rounding can. The
        float draw takes no value from the stream, so the stream advances by one,
        for the integer draw of `randomInRange`. */
    method NextChunkSize(pick: nat) returns (size: nat)
      modifies random
      ensures size == InRange(SlabRange(pick), random.stream(old(random.pos)))
      ensures random.pos == old(random.pos) + 1
    {
      SlabTableShape();
      // The running probability `cumulativeProb`, counted in units of one slab's
      // share 1/|Slabs|: after i slabs it is i, compared against the oracle `pick`.
      var cumulative := 0;
      for i := 0 to |Slabs|
        invariant cumulative == i && i <= pick
        invariant random.pos == old(random.pos)
      {
        cumulative := cumulative + 1;
        if cumulative > pick {
          size := RandomInRange(Slabs[i].start, Slabs[i].end, random);
          return;
        }
      }
      size := RandomInRange(Fallback.min, Fallback.max, random);
    }
  }

  /** randomInRange, as written: the offset into [min, max], not the size. */
  method RandomInRange(min: nat, max: nat, random: RandSizer.RandSource) returns (size: nat)
    requires min <= max
    modifies random
    ensures size == InRange(Range(min, max), random.stream(old(random.pos)))
    ensures random.pos == old(random.pos) + 1
  {
    size := random.Intn(max - min + 1);
  }
}
