/** The older splitter of pkg/chunker/chunker.go: `Split` returns the chunks with
    the checksum of the whole input, `Assemble` joins them again. It runs the same
    cursor loop as `ChunkedFile`, so it reuses that loop. */
module Chunker {
  import opened Bytes
  import opened Chunks
  import opened RandSizer
  import opened ChunkedFiles

  /** The result of a split: the checksum of the whole input and its chunks. */
  datatype Chunked = Chunked(checksum: Str, parts: seq<Chunk>)
  {
    /** The checksum of the input the chunks were cut from. */
    function Checksum(): (c: Str)
      ensures Chunked(c, parts) == this
    {
      checksum
    }

    /** The chunks, in file order. */
    function Chunks(): (ps: seq<Chunk>)
      ensures Chunked(checksum, ps) == this
    {
      parts
    }
  }

  /** `Split`: the chunks cut by a fresh [96, 1024] sizer, whose lengths add up to
      the input's length, and the digest of the whole input (not of any chunk). */
  method Split(file: seq<byte>, digest: seq<byte> -> Str, stream: nat -> nat) returns (c: Chunked)
    ensures c.parts == SplitFile(file, MinChunkSize, MaxChunkSize, stream, 0)
    ensures c.checksum == digest(file)
    ensures TotalLength(c.parts) == |file|
    ensures c.parts == [] <==> file == []
  {
    var sizer := NewChunkSizer(stream);
    var parts := SplitLoop(file, sizer);
    SplitLengthsSum(file, MinChunkSize, MaxChunkSize, stream, 0);
    SplitCount(file, MinChunkSize, MaxChunkSize, stream, 0);
    c := Chunked(digest(file), parts);
  }

  /** `Assemble`: the chunks' bytes in order; no chunks give no bytes. */
  method Assemble(chunked: Chunked) returns (file: seq<byte>)
    ensures file == Concat(chunked.Chunks())
    ensures chunked.parts == [] ==> file == []
  {
    file := AssembleLoop(chunked.Chunks());
  }

  /** `Assemble(Split(file))` is the file, and its checksum is the file's digest. */
  method SplitThenAssembleFile(file: seq<byte>, digest: seq<byte> -> Str, stream: nat -> nat)
    returns (assembled: seq<byte>)
    ensures assembled == file
  {
    var chunked := Split(file, digest, stream);
    assembled := Assemble(chunked);
    SplitThenAssemble(file, MinChunkSize, MaxChunkSize, stream, 0);
  }
}
