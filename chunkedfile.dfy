/** Splitting a file into chunks and assembling it back (pkg/chunker/chunkedfile.go),
    and the `ChunkedFile` object that caches a file, its chunks and its checksum. */
module ChunkedFiles {
  import opened Bytes
  import opened Results
  import opened Chunks
  import opened RandSizer

  // ---------------------------------------------------------------- specification

  /** The bytes of the chunks, in order. */
  function Concat(parts: seq<Chunk>): (file: seq<byte>)
    ensures |file| == TotalLength(parts)
  {
    if parts == [] then [] else parts[0].bytes + Concat(parts[1..])
  }

  /** Assembling two runs of chunks is assembling each and joining the results. */
  lemma {:induction false} ConcatAppend(a: seq<Chunk>, b: seq<Chunk>)
    ensures Concat(a + b) == Concat(a) + Concat(b)
  {
    if a == [] {
      assert a + b == b;
    } else {
      assert (a + b)[1..] == a[1..] + b;
      ConcatAppend(a[1..], b);
    }
  }

  /** The number of bytes before chunk i. */
  function Offset(parts: seq<Chunk>, i: nat): (offset: nat)
    requires i <= |parts|
  {
    |Concat(parts[..i])|
  }

  /** Offsets past the first chunk are that chunk's length plus the offsets in the rest. */
  lemma OffsetAfterFirst(parts: seq<Chunk>, i: nat)
    requires 0 < i <= |parts|
    ensures Offset(parts, i) == |parts[0].bytes| + Offset(parts[1..], i - 1)
  {
    assert parts[..i] == [parts[0]] + parts[1..][..i - 1];
    ConcatAppend([parts[0]], parts[1..][..i - 1]);
    assert Concat([parts[0]]) == parts[0].bytes + Concat([]);
  }

  /** Chunk i sits exactly at [Offset(i), Offset(i + 1)) of the assembled bytes,
      and the next chunk starts where it ends. */
  lemma {:induction false} ChunkAt(parts: seq<Chunk>, i: nat)
    requires i < |parts|
    ensures Offset(parts, i + 1) == Offset(parts, i) + |parts[i].bytes| <= |Concat(parts)|
    ensures parts[i].bytes == Concat(parts)[Offset(parts, i)..Offset(parts, i + 1)]
  {
    assert parts[..i + 1] == parts[..i] + [parts[i]];
    ConcatAppend(parts[..i], [parts[i]]);
    assert Concat([parts[i]]) == parts[i].bytes + Concat([]);
    assert parts == parts[..i + 1] + parts[i + 1..];
    ConcatAppend(parts[..i + 1], parts[i + 1..]);
  }

  /** The size of the next chunk: the size drawn, cut down to the bytes left. */
  function Clamp(drawn: nat, bytesLeft: nat): (size: nat)
    ensures size <= drawn && size <= bytesLeft
    ensures size == drawn || size == bytesLeft
  {
    if drawn > bytesLeft then bytesLeft else drawn
  }

  /** The chunks the split loop cuts from `file` with a sizer bounded by [lo, hi]
      whose random source is at position k. */
  function SplitFile(file: seq<byte>, lo: nat, hi: nat, stream: nat -> nat, k: nat): (parts: seq<Chunk>)
    requires 0 < lo <= hi
    decreases |file|
  {
    if |file| == 0 then []
    else
      var size := Clamp(Draw(lo, hi, stream, k), |file|);
      [Chunk(file[..size])] + SplitFile(file[size..], lo, hi, stream, k + 1)
  }

  /** Assembling the chunks of a split gives back the file, byte for byte. */
  lemma {:induction false} SplitThenAssemble(file: seq<byte>, lo: nat, hi: nat, stream: nat -> nat, k: nat)
    requires 0 < lo <= hi
    ensures Concat(SplitFile(file, lo, hi, stream, k)) == file
    decreases |file|
  {
    if |file| > 0 {
      var size := Clamp(Draw(lo, hi, stream, k), |file|);
      var rest := SplitFile(file[size..], lo, hi, stream, k + 1);
      SplitThenAssemble(file[size..], lo, hi, stream, k + 1);
      assert ([Chunk(file[..size])] + rest)[1..] == rest;
      assert file[..size] + file[size..] == file;
    }
  }

  /** An empty file has no chunks and any other file has at least one; there are
      never more chunks than bytes. */
  lemma {:induction false} SplitCount(file: seq<byte>, lo: nat, hi: nat, stream: nat -> nat, k: nat)
    requires 0 < lo <= hi
    ensures SplitFile(file, lo, hi, stream, k) == [] <==> file == []
    ensures |SplitFile(file, lo, hi, stream, k)| <= |file|
    decreases |file|
  {
    if |file| > 0 {
      var size := Clamp(Draw(lo, hi, stream, k), |file|);
      SplitCount(file[size..], lo, hi, stream, k + 1);
    }
  }

  /** Every chunk holds between 1 and hi bytes, and every chunk but the last at
      least lo bytes. */
  lemma {:induction false} SplitBounds(file: seq<byte>, lo: nat, hi: nat, stream: nat -> nat, k: nat)
    requires 0 < lo <= hi
    ensures var parts := SplitFile(file, lo, hi, stream, k);
      (forall i :: 0 <= i < |parts| ==> 0 < |parts[i].bytes| <= hi) &&
      (forall i :: 0 <= i < |parts| - 1 ==> lo <= |parts[i].bytes|)
    decreases |file|
  {
    if |file| > 0 {
      var size := Clamp(Draw(lo, hi, stream, k), |file|);
      var parts := SplitFile(file, lo, hi, stream, k);
      var rest := SplitFile(file[size..], lo, hi, stream, k + 1);
      SplitBounds(file[size..], lo, hi, stream, k + 1);
      SplitCount(file[size..], lo, hi, stream, k + 1);
      assert parts == [Chunk(file[..size])] + rest;
      forall i | 0 <= i < |parts|
        ensures 0 < |parts[i].bytes| <= hi
        ensures i < |parts| - 1 ==> lo <= |parts[i].bytes|
      {
        if i > 0 {
          assert parts[i] == rest[i - 1];
        }
      }
    }
  }

  /** Chunk i is the slice of the file at its offset whose length is the i-th
      size drawn, clamped to the bytes left: the chunks cover the file without
      gap or overlap. */
  lemma SplitSlices(file: seq<byte>, lo: nat, hi: nat, stream: nat -> nat, k: nat, i: nat)
    requires 0 < lo <= hi
    requires i < |SplitFile(file, lo, hi, stream, k)|
    ensures var parts := SplitFile(file, lo, hi, stream, k);
      Offset(parts, i) < |file| &&
      |parts[i].bytes| == Clamp(Draw(lo, hi, stream, k + i), |file| - Offset(parts, i)) &&
      parts[i].bytes == file[Offset(parts, i)..Offset(parts, i) + |parts[i].bytes|]
  {
    var parts := SplitFile(file, lo, hi, stream, k);
    SplitThenAssemble(file, lo, hi, stream, k);
    SplitBounds(file, lo, hi, stream, k);
    ChunkAt(parts, i);
    SplitSizes(file, lo, hi, stream, k, i);
  }

  /** The length of chunk i is the i-th size drawn, clamped to the bytes left after
      the chunks before it. */
  lemma {:induction false} SplitSizes(file: seq<byte>, lo: nat, hi: nat, stream: nat -> nat, k: nat, i: nat)
    requires 0 < lo <= hi
    requires i < |SplitFile(file, lo, hi, stream, k)|
    ensures var parts := SplitFile(file, lo, hi, stream, k);
      Offset(parts, i) <= |file| &&
      |parts[i].bytes| == Clamp(Draw(lo, hi, stream, k + i), |file| - Offset(parts, i))
    decreases |file|
  {
    var parts := SplitFile(file, lo, hi, stream, k);
    var size := Clamp(Draw(lo, hi, stream, k), |file|);
    var rest := SplitFile(file[size..], lo, hi, stream, k + 1);
    assert parts == [Chunk(file[..size])] + rest;
    if i == 0 {
      assert parts[..0] == [];
    } else {
      SplitSizes(file[size..], lo, hi, stream, k + 1, i - 1);
      OffsetAfterFirst(parts, i);
      assert parts[1..] == rest && parts[i] == rest[i - 1];
      assert |parts[0].bytes| == size;
      assert Offset(parts, i) == size + Offset(rest, i - 1);
      assert |file| - Offset(parts, i) == |file[size..]| - Offset(rest, i - 1);
      assert (k + 1) + (i - 1) == k + i;
    }
  }

  /** The lengths of the chunks add up to the file's length. */
  lemma {:induction false} SplitLengthsSum(file: seq<byte>, lo: nat, hi: nat, stream: nat -> nat, k: nat)
    requires 0 < lo <= hi
    ensures TotalLength(SplitFile(file, lo, hi, stream, k)) == |file|
  {
    var parts := SplitFile(file, lo, hi, stream, k);
    SplitThenAssemble(file, lo, hi, stream, k);
  }

  /** The sum of the chunk lengths. */
  function TotalLength(parts: seq<Chunk>): nat
  {
    if parts == [] then 0 else |parts[0].bytes| + TotalLength(parts[1..])
  }

  /** A file longer than the largest chunk yields at least two chunks; with the
      sizer bounded by [96, 1024], a 1,329-byte file is one such. */
  lemma {:induction false} LongFileHasSeveralChunks(file: seq<byte>, lo: nat, hi: nat, stream: nat -> nat, k: nat)
    requires 0 < lo <= hi < |file|
    ensures |SplitFile(file, lo, hi, stream, k)| >= 2
  {
    var size := Clamp(Draw(lo, hi, stream, k), |file|);
    SplitCount(file[size..], lo, hi, stream, k + 1);
  }

  // ---------------------------------------------------------------- the split loop

  /** `newChunk`: the chunk at [offset, offset + size) of the file. */
  function NewChunkAt(file: seq<byte>, offset: nat, size: nat): (c: Chunk)
    requires offset + size <= |file|
    ensures |c.bytes| == size
    ensures forall j :: 0 <= j < size ==> c.bytes[j] == file[offset + j]
  {
    Chunk(file[offset..offset + size])
  }

  /** `nextChunkSize`: a fresh size from the sizer, clamped to the bytes left. */
  method NextChunkSize(fileSize: nat, offset: nat, sizer: ChunkSizer) returns (size: nat)
    requires 0 < sizer.lo <= sizer.hi && offset <= fileSize
    modifies sizer.randSource
    ensures size <= fileSize - offset
    ensures size == Clamp(Draw(sizer.lo, sizer.hi, sizer.randSource.stream, old(sizer.randSource.pos)), fileSize - offset)
    ensures sizer.randSource.pos == old(sizer.randSource.pos) + 1
  {
    var bytesLeft := fileSize - offset;
    size := sizer.New();
    if size > bytesLeft {
      size := bytesLeft;
    }
  }

  /** The split of the file from `offset` on, read in place. */
  function SplitFrom(file: seq<byte>, offset: nat, lo: nat, hi: nat, stream: nat -> nat, k: nat): (parts: seq<Chunk>)
    requires 0 < lo <= hi && offset <= |file|
    decreases |file| - offset
  {
    if offset == |file| then []
    else
      var size := Clamp(Draw(lo, hi, stream, k), |file| - offset);
      [Chunk(file[offset..offset + size])] + SplitFrom(file, offset + size, lo, hi, stream, k + 1)
  }

  /** Splitting from an offset is splitting what is left of the file there. */
  lemma {:induction false} SplitFromIsSplitFile(file: seq<byte>, offset: nat, lo: nat, hi: nat, stream: nat -> nat, k: nat)
    requires 0 < lo <= hi && offset <= |file|
    ensures SplitFrom(file, offset, lo, hi, stream, k) == SplitFile(file[offset..], lo, hi, stream, k)
    decreases |file| - offset
  {
    if offset < |file| {
      var size := Clamp(Draw(lo, hi, stream, k), |file| - offset);
      SplitFromIsSplitFile(file, offset + size, lo, hi, stream, k + 1);
      assert file[offset..][..size] == file[offset..offset + size];
      assert file[offset..][size..] == file[offset + size..];
    }
  }

  /** One turn of the split loop: when the chunks cut so far followed by the split
      from `offset` make up the whole split, so do the chunks with the next one
      added followed by the split from the next offset. */
  lemma SplitFromStep(file: seq<byte>, offset: nat, size: nat, lo: nat, hi: nat, stream: nat -> nat, k: nat,
                      parts: seq<Chunk>, whole: seq<Chunk>)
    requires 0 < lo <= hi && offset < |file|
    requires size == Clamp(Draw(lo, hi, stream, k), |file| - offset)
    requires whole == parts + SplitFrom(file, offset, lo, hi, stream, k)
    ensures 0 < size && offset + size <= |file|
    ensures whole == (parts + [NewChunkAt(file, offset, size)]) + SplitFrom(file, offset + size, lo, hi, stream, k + 1)
  {
    var c, rest := NewChunkAt(file, offset, size), SplitFrom(file, offset + size, lo, hi, stream, k + 1);
    assert SplitFrom(file, offset, lo, hi, stream, k) == [c] + rest;
    AppendAssoc(parts, [c], rest);
  }

  /** The loop of `split`: walks an offset cursor through the file, cutting one
      chunk per size drawn. */
  method SplitLoop(file: seq<byte>, sizer: ChunkSizer) returns (parts: seq<Chunk>)
    requires 0 < sizer.lo <= sizer.hi
    modifies sizer.randSource
    ensures parts == SplitFile(file, sizer.lo, sizer.hi, sizer.randSource.stream, old(sizer.randSource.pos))
    ensures sizer.randSource.pos == old(sizer.randSource.pos) + |parts|
  {
    var lo, hi, stream := sizer.lo, sizer.hi, sizer.randSource.stream;
    ghost var start := sizer.randSource.pos;
    ghost var whole := SplitFrom(file, 0, lo, hi, stream, start);
    parts := [];
    var offset := 0;
    ghost var k := start;
    while offset < |file|
      invariant offset <= |file|
      invariant sizer.randSource.pos == k == start + |parts|
      invariant whole == parts + SplitFrom(file, offset, lo, hi, stream, k)
      decreases |file| - offset
    {
      var size := NextChunkSize(|file|, offset, sizer);
      SplitFromStep(file, offset, size, lo, hi, stream, k, parts, whole);
      parts := parts + [NewChunkAt(file, offset, size)];
      offset := offset + size;
      k := k + 1;
    }
    SplitFromIsSplitFile(file, 0, lo, hi, stream, start);
    assert file[0..] == file;
  }

  /** The loop of `Assemble`: appends every chunk's bytes in order. */
  method AssembleLoop(parts: seq<Chunk>) returns (file: seq<byte>)
    ensures file == Concat(parts)
    ensures |file| == TotalLength(parts)
  {
    file := [];
    for i := 0 to |parts|
      invariant file == Concat(parts[..i])
    {
      ConcatAppend(parts[..i], [parts[i]]);
      assert Concat([parts[i]]) == parts[i].bytes + Concat([]);
      assert parts[..i + 1] == parts[..i] + [parts[i]];
      file := file + parts[i].Bytes();
    }
    assert parts[..|parts|] == parts;
  }

  // ---------------------------------------------------------------- the object

  /** Why `Validate` failed: the expected checksum and the one computed. */
  datatype ChecksumMismatch = ChecksumMismatch(expected: Str, actual: Str)

  /** A file together with its chunks and its checksum. The split is done lazily on
      the first call of `Chunks`, which also sets the checksum. The checksum function
      (hexadecimal MD5 in the source) is `digest`; the time-seeded random source of
      each split is the oracle `stream` passed to the call. */
  class ChunkedFile {
    var file: seq<byte>
    var checksum: Str
    var parts: seq<Chunk>
    const digest: seq<byte> -> Str

    /** `NewFromFile`: only the file is known; no chunks, no checksum yet. */
    constructor FromFile(file: seq<byte>, digest: seq<byte> -> Str)
      ensures this.file == file && checksum == [] && parts == [] && this.digest == digest
    {
      this.file := file;
      checksum := [];
      parts := [];
      this.digest := digest;
    }

    /** `NewFromChunks(checksum, parts)`: chunks and their expected checksum, no file yet. */
    constructor FromChunks(checksum: Str, parts: seq<Chunk>, digest: seq<byte> -> Str)
      ensures file == [] && this.checksum == checksum && this.parts == parts && this.digest == digest
    {
      file := [];
      this.checksum := checksum;
      this.parts := parts;
      this.digest := digest;
    }

    /** The one-argument `NewFromChunks(chunks)` that pkg/filecache/filecache.go calls:
        the chunks only. */
    constructor FromParts(parts: seq<Chunk>, digest: seq<byte> -> Str)
      ensures file == [] && checksum == [] && this.parts == parts && this.digest == digest
    {
      file := [];
      checksum := [];
      this.parts := parts;
      this.digest := digest;
    }

    /** `Checksum`: the checksum held, which is "" until the file is split. */
    function Checksum(): (c: Str)
      reads this
      ensures c == checksum
    {
      checksum
    }

    /** `split`: cuts the file with a fresh [96, 1024] sizer and sets the checksum
        to the digest of the whole file. */
    method Split(stream: nat -> nat)
      modifies this
      ensures file == old(file)
      ensures parts == SplitFile(file, MinChunkSize, MaxChunkSize, stream, 0)
      ensures checksum == digest(file)
    {
      var sizer := NewChunkSizer(stream);
      parts := SplitLoop(file, sizer);
      checksum := digest(file);
    }

    /** `Chunks`: splits only when there are no chunks yet. */
    method Chunks(stream: nat -> nat) returns (ps: seq<Chunk>)
      modifies this
      ensures file == old(file) && ps == parts
      ensures old(parts) == [] ==> parts == SplitFile(file, MinChunkSize, MaxChunkSize, stream, 0) && checksum == digest(file)
      ensures old(parts) != [] ==> parts == old(parts) && checksum == old(checksum)
      ensures ps == [] ==> file == []
    {
      if |parts| == 0 {
        Split(stream);
        SplitCount(file, MinChunkSize, MaxChunkSize, stream, 0);
      }
      ps := parts;
    }

    /** `Assemble` AS WRITTEN: the file is cleared before `Chunks` runs, so an object
        that has not been split yet splits the cleared file and loses its bytes. */
    method AssembleAsWritten(stream: nat -> nat) returns (f: seq<byte>)
      modifies this
      ensures file == f
      ensures old(parts) != [] ==> f == Concat(old(parts)) && parts == old(parts) && checksum == old(checksum)
      ensures old(parts) == [] ==> f == [] && parts == [] && checksum == digest([])
    {
      file := [];
      var ps := Chunks(stream);
      f := AssembleLoop(ps);
      file := f;
    }

    /** `Assemble` as intended: sets the file to the in-order concatenation of
        `Chunks()` and returns it; on an unsplit object it gives back the file. */
    method Assemble(stream: nat -> nat) returns (f: seq<byte>)
      modifies this
      ensures file == f
      ensures old(parts) != [] ==> f == Concat(old(parts)) && parts == old(parts) && checksum == old(checksum)
      ensures old(parts) == [] ==>
        f == old(file) && parts == SplitFile(old(file), MinChunkSize, MaxChunkSize, stream, 0) && checksum == digest(f)
    {
      var ps := Chunks(stream);
      f := AssembleLoop(ps);
      SplitThenAssemble(file, MinChunkSize, MaxChunkSize, stream, 0);
      file := f;
    }

    /** `Validate`: succeeds exactly when the digest of the file equals the checksum held. */
    method Validate() returns (r: Outcome<ChecksumMismatch>)
      ensures r.Pass? <==> digest(file) == checksum
      ensures r.Fail? ==> r.error == ChecksumMismatch(checksum, digest(file))
    {
      var fileChecksum := digest(file);
      if fileChecksum != checksum {
        return Fail(ChecksumMismatch(checksum, fileChecksum));
      }
      return Pass;
    }

    /** `File()` as pkg/filecache/filecache.go uses it: the chunks assembled in order. */
    method File() returns (f: seq<byte>)
      modifies this`file
      ensures f == file == Concat(parts)
    {
      f := AssembleLoop(parts);
      file := f;
    }

    /** `Validate(expected)` as pkg/filecache/filecache.go uses it: compares the digest
        of the assembled chunks with the expected checksum. */
    method ValidateAgainst(expected: Str) returns (r: Outcome<ChecksumMismatch>)
      modifies this`file
      ensures file == Concat(parts)
      ensures r.Pass? <==> digest(Concat(parts)) == expected
      ensures r.Fail? ==> r.error == ChecksumMismatch(expected, digest(Concat(parts)))
    {
      var f := File();
      if digest(f) != expected {
        return Fail(ChecksumMismatch(expected, digest(f)));
      }
      return Pass;
    }
  }

  /** Splitting a file and assembling its chunks on a new object gives the file back,
      and validating it against the first object's checksum succeeds. */
  method SplitThenRebuild(file: seq<byte>, digest: seq<byte> -> Str, stream: nat -> nat)
    returns (assembled: seq<byte>, valid: Outcome<ChecksumMismatch>)
    ensures assembled == file && valid == Pass
  {
    var whole := new ChunkedFile.FromFile(file, digest);
    var chunks := whole.Chunks(stream);
    SplitThenAssemble(file, MinChunkSize, MaxChunkSize, stream, 0);
    var rebuilt := new ChunkedFile.FromParts(chunks, digest);
    valid := rebuilt.ValidateAgainst(whole.Checksum());
    assembled := rebuilt.File();
  }

  /** `Assemble` as written on a freshly built one-byte file returns no bytes,
      where the intended `Assemble` returns the byte. */
  method AssembleOfUnsplitFile(digest: seq<byte> -> Str, stream: nat -> nat)
    returns (asWritten: seq<byte>, intended: seq<byte>)
    ensures asWritten == [] && intended == [7]
  {
    var a := new ChunkedFile.FromFile([7], digest);
    asWritten := a.AssembleAsWritten(stream);
    var b := new ChunkedFile.FromFile([7], digest);
    intended := b.Assemble(stream);
  }
}
