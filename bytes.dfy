/** Bytes and Go strings. A Go string is an immutable sequence of bytes, so it is
    modelled as one; string literals of the source are written with `Ascii`. */
module Bytes {

  newtype byte = x: int | 0 <= x < 256

  /** A Go `string`: a sequence of bytes. */
  type Str = seq<byte>

  /** The byte of ','. */
  const Comma: byte := 44

  predicate IsAscii(s: string)
  {
    forall i :: 0 <= i < |s| ==> s[i] as int < 128
  }

  /** The bytes of an ASCII string literal, one byte per character. */
  function Ascii(s: string): (b: Str)
    requires IsAscii(s)
    ensures |b| == |s|
    ensures forall i :: 0 <= i < |s| ==> b[i] as int == s[i] as int
  {
    if s == [] then [] else [s[0] as int as byte] + Ascii(s[1..])
  }

  /** Concatenation is associative. */
  lemma AppendAssoc<T>(a: seq<T>, b: seq<T>, c: seq<T>)
    ensures a + (b + c) == (a + b) + c
  {
  }
}
