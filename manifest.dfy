/** Chunk keys and the manifest (pkg/filecache/filecache.go): the key of chunk i of n
    is `checksum-part-i-of-n`, and the manifest stored under the checksum is the
    chunk keys joined by commas. */
module Manifest {
  import opened Bytes

  // ---------------------------------------------------------------- decimal numbers

  predicate IsDigit(b: byte)
  {
    48 <= b <= 57
  }

  function Digit(d: nat): (b: byte)
    requires d < 10
    ensures IsDigit(b)
  {
    (48 + d) as byte
  }

  /** `%d` of a non-negative integer: its decimal digits. */
  function Decimal(n: nat): (s: Str)
    ensures |s| >= 1
    ensures forall i :: 0 <= i < |s| ==> IsDigit(s[i])
  {
    if n < 10 then [Digit(n)] else Decimal(n / 10) + [Digit(n % 10)]
  }

  /** The number a string of decimal digits denotes. */
  function DecimalValue(s: Str): nat
    requires forall i :: 0 <= i < |s| ==> IsDigit(s[i])
  {
    if s == [] then 0
    else
      assert IsDigit(s[|s| - 1]);
      DecimalValue(s[..|s| - 1]) * 10 + (s[|s| - 1] - 48) as int
  }

  /** Reading back the digits of n gives n. */
  lemma {:induction false} DecimalRoundTrip(n: nat)
    ensures DecimalValue(Decimal(n)) == n
  {
    if n >= 10 {
      DecimalRoundTrip(n / 10);
      var s := Decimal(n);
      assert s[..|s| - 1] == Decimal(n / 10);
    }
  }

  /** Different numbers have different decimal forms. */
  lemma DecimalInjective(m: nat, n: nat)
    ensures Decimal(m) == Decimal(n) <==> m == n
  {
    if Decimal(m) == Decimal(n) {
      DecimalRoundTrip(m);
      DecimalRoundTrip(n);
    }
  }

  // ---------------------------------------------------------------- chunk keys

  const PartInfix: Str := Ascii("-part-")
  const OfInfix: Str := Ascii("-of-")

  /** The key of chunk `index` (from 0) of the `total` chunks of the file `checksum`. */
  function ChunkKey(checksum: Str, index: nat, total: nat): (key: Str)
  {
    checksum + PartInfix + Decimal(index) + OfInfix + Decimal(total)
  }

  /** The keys of all chunks of a file, in chunk order. */
  function ChunkKeys(checksum: Str, total: nat): (keys: seq<Str>)
    ensures |keys| == total
    ensures forall i :: 0 <= i < total ==> keys[i] == ChunkKey(checksum, i, total)
  {
    seq(total, i requires 0 <= i => ChunkKey(checksum, i, total))
  }

  /** Chunk keys of one file are pairwise distinct, differ from the checksum (the
      manifest's own key), are never empty, and have no comma when the checksum has
      none. */
  lemma ChunkKeyFacts(checksum: Str, i: nat, j: nat, total: nat)
    ensures ChunkKey(checksum, i, total) == ChunkKey(checksum, j, total) <==> i == j
    ensures ChunkKey(checksum, i, total) != checksum && ChunkKey(checksum, i, total) != []
    ensures Comma !in checksum ==> Comma !in ChunkKey(checksum, i, total)
  {
    ChunkKeyIndex(checksum, i, j, total);
    if Comma !in checksum {
      var di := Decimal(i);
      assert ChunkKey(checksum, i, total) == checksum + PartInfix + di + OfInfix + Decimal(total);
      assert forall b :: b in PartInfix ==> b != Comma;
      assert forall b :: b in OfInfix ==> b != Comma;
      assert Comma !in di && Comma !in Decimal(total);
    }
  }

  /** The number of decimal digits a string begins with. */
  function LeadingDigits(s: Str): (n: nat)
    ensures n <= |s|
  {
    if s == [] || !IsDigit(s[0]) then 0 else 1 + LeadingDigits(s[1..])
  }

  /** Digits followed by a non-digit: the digits are exactly the leading ones. */
  lemma {:induction false} LeadingDigitsOf(d: Str, r: Str)
    requires forall i :: 0 <= i < |d| ==> IsDigit(d[i])
    requires r != [] && !IsDigit(r[0])
    ensures LeadingDigits(d + r) == |d|
  {
    if d != [] {
      assert (d + r)[1..] == d[1..] + r;
      LeadingDigitsOf(d[1..], r);
    }
  }

  /** Two chunk keys of one file are equal only for equal indices. */
  lemma ChunkKeyIndex(checksum: Str, i: nat, j: nat, total: nat)
    ensures ChunkKey(checksum, i, total) == ChunkKey(checksum, j, total) ==> i == j
  {
    var p := checksum + PartInfix;
    var r := OfInfix + Decimal(total);
    var di, dj := Decimal(i), Decimal(j);
    var ki, kj := ChunkKey(checksum, i, total), ChunkKey(checksum, j, total);
    AppendAssoc(p + di, OfInfix, Decimal(total));
    AppendAssoc(p, di, r);
    AppendAssoc(p + dj, OfInfix, Decimal(total));
    AppendAssoc(p, dj, r);
    if ki == kj {
      assert di + r == ki[|p|..] == dj + r;
      assert r[0] as int == 45;
      LeadingDigitsOf(di, r);
      LeadingDigitsOf(dj, r);
      assert di == (di + r)[..|di|];
      assert dj == (dj + r)[..|dj|];
      DecimalInjective(i, j);
    }
  }

  /** A chunk key begins with its file's checksum and is longer than it. */
  lemma ChunkKeyExtendsChecksum(checksum: Str, index: nat, total: nat)
    ensures checksum < ChunkKey(checksum, index, total)
  {
    var di, dt := Decimal(index), Decimal(total);
    AppendAssoc(checksum + PartInfix + di, OfInfix, dt);
    AppendAssoc(checksum + PartInfix, di, OfInfix + dt);
    AppendAssoc(checksum, PartInfix, di + (OfInfix + dt));
    var rest := PartInfix + (di + (OfInfix + dt));
    assert ChunkKey(checksum, index, total) == checksum + rest;
  }

  /** The chunk keys for a comma-free checksum are all non-empty and comma-free. */
  lemma ChunkKeysAreFields(checksum: Str, total: nat)
    requires Comma !in checksum
    ensures forall k :: k in ChunkKeys(checksum, total) ==> IsField(k)
  {
    forall k | k in ChunkKeys(checksum, total)
      ensures IsField(k)
    {
      var i :| 0 <= i < total && ChunkKeys(checksum, total)[i] == k;
      ChunkKeyFacts(checksum, i, i, total);
    }
  }

  // ---------------------------------------------------------------- join and split

  /** A key that can be listed in a manifest: non-empty, without a comma. */
  predicate IsField(k: Str)
  {
    k != [] && Comma !in k
  }

  /** The keys joined by commas, with no trailing comma; no keys give "". */
  function Join(keys: seq<Str>): (s: Str)
    ensures keys == [] ==> s == []
    ensures keys != [] ==> |keys[0]| <= |s| && s[..|keys[0]|] == keys[0]
    ensures forall i :: 0 <= i < |keys| ==> |keys[i]| <= |s|
  {
    if |keys| == 0 then []
    else if |keys| == 1 then keys[0]
    else keys[0] + [Comma] + Join(keys[1..])
  }

  /** Go's `strings.Split(s, ",")`: the pieces between commas; "" gives [""]. */
  function SplitOn(s: Str): (fields: seq<Str>)
    ensures |fields| >= 1
  {
    if s == [] then [[]]
    else
      var rest := SplitOn(s[1..]);
      if s[0] == Comma then [[]] + rest else [[s[0]] + rest[0]] + rest[1..]
  }

  /** The manifest read back (`getFileChunksKeys`): "" means no keys, anything else
      is split on commas. */
  function ParseManifest(value: Str): (keys: seq<Str>)
    ensures keys == [] <==> value == []
  {
    if value == [] then [] else SplitOn(value)
  }

  lemma {:induction false} SplitOnField(a: Str)
    requires Comma !in a
    ensures SplitOn(a) == [a]
  {
    if a != [] {
      SplitOnField(a[1..]);
      assert [a[0]] + a[1..] == a;
    }
  }

  lemma {:induction false} SplitOnFirstField(a: Str, b: Str)
    requires Comma !in a
    ensures SplitOn(a + [Comma] + b) == [a] + SplitOn(b)
  {
    var s := a + [Comma] + b;
    if a == [] {
      assert s[1..] == b;
    } else {
      assert s[1..] == a[1..] + [Comma] + b;
      SplitOnFirstField(a[1..], b);
      assert [a[0]] + a[1..] == a;
    }
  }

  /** Splitting the joined keys gives the keys back, when none holds a comma. */
  lemma {:induction false} SplitOfJoin(keys: seq<Str>)
    requires |keys| >= 1
    requires forall k :: k in keys ==> Comma !in k
    ensures SplitOn(Join(keys)) == keys
  {
    if |keys| == 1 {
      SplitOnField(keys[0]);
    } else {
      SplitOfJoin(keys[1..]);
      SplitOnFirstField(keys[0], Join(keys[1..]));
      assert [keys[0]] + keys[1..] == keys;
    }
  }

  /** Joining the split pieces gives the string back, for every string. */
  lemma {:induction false} JoinOfSplit(s: Str)
    ensures Join(SplitOn(s)) == s
  {
    if s != [] {
      var rest := SplitOn(s[1..]);
      JoinOfSplit(s[1..]);
      if s[0] == Comma {
        assert ([[]] + rest)[1..] == rest;
      } else {
        var fields := [[s[0]] + rest[0]] + rest[1..];
        assert fields[1..] == rest[1..];
      }
    }
  }

  lemma JoinNonEmpty(keys: seq<Str>)
    requires |keys| >= 1 && keys[0] != []
    ensures Join(keys) != []
  {
  }

  /** Reading back a written manifest gives the keys in order. */
  lemma ParseOfJoin(keys: seq<Str>)
    requires forall k :: k in keys ==> IsField(k)
    ensures ParseManifest(Join(keys)) == keys
  {
    if keys != [] {
      assert keys[0] in keys;
      JoinNonEmpty(keys);
      SplitOfJoin(keys);
    }
  }

  /** Writing back a parsed manifest gives the same value, for every value. */
  lemma JoinOfParse(value: Str)
    ensures Join(ParseManifest(value)) == value
  {
    if value != [] {
      JoinOfSplit(value);
    }
  }

  // ---------------------------------------------------------------- the string builder

  /** What the builder holds after writing each key followed by a comma. */
  function Terminated(keys: seq<Str>): Str
  {
    if keys == [] then [] else keys[0] + [Comma] + Terminated(keys[1..])
  }

  lemma {:induction false} TerminatedAppend(keys: seq<Str>, k: Str)
    ensures Terminated(keys + [k]) == Terminated(keys) + k + [Comma]
  {
    if keys == [] {
      assert [k][1..] == [];
    } else {
      assert (keys + [k])[1..] == keys[1..] + [k];
      TerminatedAppend(keys[1..], k);
    }
  }

  /** Go's `strings.TrimSuffix`. */
  function TrimSuffix(s: Str, suffix: Str): (r: Str)
    ensures r == s || r + suffix == s
    ensures (|suffix| <= |s| && s[|s| - |suffix|..] == suffix) <==> r + suffix == s
  {
    if |suffix| <= |s| && s[|s| - |suffix|..] == suffix then s[..|s| - |suffix|] else s
  }

  /** Trimming the last comma from the builder's contents gives the joined keys. */
  lemma {:induction false} TrimmedIsJoin(keys: seq<Str>)
    ensures TrimSuffix(Terminated(keys), [Comma]) == Join(keys)
  {
    if keys != [] {
      TerminatedIsJoinComma(keys);
    }
  }

  lemma {:induction false} TerminatedIsJoinComma(keys: seq<Str>)
    requires keys != []
    ensures Terminated(keys) == Join(keys) + [Comma]
  {
    if |keys| > 1 {
      TerminatedIsJoinComma(keys[1..]);
    } else {
      assert keys[1..] == [];
    }
  }
}
