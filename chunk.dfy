/** A chunk: one contiguous piece of a file (pkg/chunker/chunk.go). */
module Chunks {
  import opened Bytes

  /** A chunk's entire state is one byte sequence; it is never changed after creation. */
  datatype Chunk = Chunk(bytes: seq<byte>)
  {
    /** The chunk's bytes. Reading them has no effect, and they determine the chunk. */
    function Bytes(): (b: seq<byte>)
      ensures Chunk(b) == this
    {
      bytes
    }
  }

  /** Wraps any byte sequence, the empty one included, with no length check. */
  function NewChunk(b: seq<byte>): (c: Chunk)
    ensures c.Bytes() == b
  {
    Chunk(b)
  }

  /** Two chunks are equal exactly when their bytes are: wrapping loses nothing. */
  lemma NewChunkInjective(a: seq<byte>, b: seq<byte>)
    ensures NewChunk(a) == NewChunk(b) <==> a == b
  {
  }
}
