/** The file cache (pkg/filecache/filecache.go): stores a file as a manifest under
    its checksum plus one item per chunk, and reads it back. */
module FileCaches {
  import opened Bytes
  import opened Results
  import opened Chunks
  import opened Memcache
  import opened Manifest
  import ChunkedFiles
  import RandSizer

  /** The largest file accepted: 50 MiB. */
  const MaxFileSize: nat := 52428800

  /** Why a Put or a Get failed, by phase. */
  datatype Failure =
    | FileTooLarge(size: nat, excess: nat)
    | ManifestWriteFailed(cause: BackendError)
    | ChunkWriteFailed(cause: BackendError)
    | ManifestReadFailed(cause: BackendError)
    | ChunkReadFailed(cause: BackendError)
    | ValidationFailed(expected: Str, actual: Str)

  /** `checkFileSize`: fails exactly when the file exceeds the limit, reporting its
      size and the excess. */
  function CheckFileSize(file: seq<byte>): (r: Outcome<Failure>)
    ensures r.Pass? <==> |file| <= MaxFileSize
    ensures r.Fail? ==> r.error == FileTooLarge(|file|, |file| - MaxFileSize)
  {
    if |file| > MaxFileSize then Fail(FileTooLarge(|file|, |file| - MaxFileSize)) else Pass
  }

  /** The chunk items map produced for a file's chunks: key i holds chunk i. */
  function Written(chunksByKey: map<Str, Chunk>, keys: set<Str>): (m: map<Str, seq<byte>>)
    ensures m.Keys == keys * chunksByKey.Keys
    ensures forall k :: k in m ==> m[k] == chunksByKey[k].bytes
  {
    map k | k in keys && k in chunksByKey :: chunksByKey[k].bytes
  }

  /** The chunks stored under the given keys, in order. */
  function ChunksIn(items: map<Str, seq<byte>>, keys: seq<Str>): (chunks: seq<Chunk>)
    requires forall k :: k in keys ==> k in items
    ensures |chunks| == |keys|
    ensures forall i :: 0 <= i < |keys| ==> chunks[i] == Chunk(items[keys[i]])
  {
    if keys == [] then [] else [Chunk(items[keys[0]])] + ChunksIn(items, keys[1..])
  }

  /** A store holds `file` under `checksum`: the manifest can be read, every key it
      lists can be read, and the items under those keys assemble into the file. */
  ghost predicate StoredIn(items: map<Str, seq<byte>>, unreachable: set<Str>, checksum: Str, file: seq<byte>)
  {
    && checksum !in unreachable && checksum in items
    && var keys := ParseManifest(items[checksum]);
    && (forall k :: k in keys ==> k !in unreachable && k in items)
    && ChunkedFiles.Concat(ChunksIn(items, keys)) == file
  }

  /** Writing the manifest of a file's chunks under its checksum and every chunk
      under its key leaves the file stored, whatever else the store held, provided
      the keys can be listed in a manifest and differ from the checksum. */
  lemma PutStoresFile(items: map<Str, seq<byte>>, unreachable: set<Str>, checksum: Str,
                      keys: seq<Str>, parts: seq<Chunk>, file: seq<byte>, chunksByKey: map<Str, Chunk>)
    requires checksum !in unreachable
    requires |keys| == |parts| && ChunkedFiles.Concat(parts) == file
    requires forall k :: k in keys ==> IsField(k) && k != checksum
    requires forall k :: k in chunksByKey <==> k in keys
    requires forall i :: 0 <= i < |parts| ==> chunksByKey[keys[i]] == parts[i]
    requires forall k :: k in chunksByKey ==> k !in unreachable
    ensures StoredIn(items[checksum := Join(keys)] + Written(chunksByKey, chunksByKey.Keys),
                     unreachable, checksum, file)
  {
    var after := items[checksum := Join(keys)] + Written(chunksByKey, chunksByKey.Keys);
    assert checksum !in chunksByKey;
    assert after[checksum] == Join(keys);
    ParseOfJoin(keys);
    assert forall k :: k in keys ==> k in after && after[k] == chunksByKey[k].bytes;
    var chunks := ChunksIn(after, keys);
    forall i | 0 <= i < |keys|
      ensures chunks[i] == parts[i]
    {
      assert after[keys[i]] == parts[i].bytes;
    }
    assert chunks == parts;
  }

  /** The chunk keys of a file can be listed in its manifest and never collide with
      the manifest's own key. */
  lemma ChunkKeysListable(checksum: Str, total: nat)
    requires Comma !in checksum
    ensures forall k :: k in ChunkKeys(checksum, total) ==> IsField(k) && k != checksum
  {
    ChunkKeysAreFields(checksum, total);
    forall k | k in ChunkKeys(checksum, total)
      ensures k != checksum
    {
      var i :| 0 <= i < total && ChunkKeys(checksum, total)[i] == k;
      ChunkKeyFacts(checksum, i, i, total);
    }
  }

  /** The chunks Put cuts a file into with the random stream `stream`. */
  function PutParts(file: seq<byte>, stream: nat -> nat): seq<Chunk>
  {
    ChunkedFiles.SplitFile(file, RandSizer.MinChunkSize, RandSizer.MaxChunkSize, stream, 0)
  }

  /** The keys Put stores those chunks under. */
  function PutKeys(checksum: Str, file: seq<byte>, stream: nat -> nat): seq<Str>
  {
    ChunkKeys(checksum, |PutParts(file, stream)|)
  }

  /** The chunk items of a file: key i holds the bytes of chunk i. */
  function ChunkItems(keys: seq<Str>, parts: seq<Chunk>): (m: map<Str, seq<byte>>)
    requires |keys| == |parts|
    ensures forall k :: k in m <==> k in keys
    ensures Distinct(keys) ==> forall i :: 0 <= i < |keys| ==> m[keys[i]] == parts[i].bytes
  {
    if keys == [] then map[]
    else
      var rest := ChunkItems(keys[1..], parts[1..]);
      assert forall i :: 1 <= i < |keys| ==> keys[i] == keys[1..][i - 1];
      rest[keys[0] := parts[0].bytes]
  }

  /** The two stores hold the same items under every key other than `checksum`
      and the `keys`. */
  ghost predicate SameOutside(a: map<Str, seq<byte>>, b: map<Str, seq<byte>>, checksum: Str, keys: seq<Str>)
  {
    forall k :: k != checksum && k !in keys ==> (k in a <==> k in b) && (k in a ==> k in b && a[k] == b[k])
  }

  /** Writing every chunk of the map writes exactly the chunk items of the file. */
  lemma WrittenIsChunkItems(chunksByKey: map<Str, Chunk>, keys: seq<Str>, parts: seq<Chunk>)
    requires |keys| == |parts| && Distinct(keys)
    requires forall k :: k in chunksByKey <==> k in keys
    requires forall i :: 0 <= i < |parts| ==> chunksByKey[keys[i]] == parts[i]
    ensures Written(chunksByKey, chunksByKey.Keys) == ChunkItems(keys, parts)
  {
    var w, c := Written(chunksByKey, chunksByKey.Keys), ChunkItems(keys, parts);
    SameKeys(w, c, chunksByKey.Keys, keys);
    forall k | k in w
      ensures w[k] == c[k]
    {
      var i :| 0 <= i < |keys| && keys[i] == k;
      assert w[k] == chunksByKey[keys[i]].bytes == parts[i].bytes;
      assert c[keys[i]] == parts[i].bytes;
    }
    MapExtensional(w, c);
  }

  /** Maps with the same keys and the same value under each key are equal. */
  lemma MapExtensional<K, V>(a: map<K, V>, b: map<K, V>)
    requires a.Keys == b.Keys
    requires forall k :: k in a ==> a[k] == b[k]
    ensures a == b
  {
  }

  /** Two maps whose keys are both exactly the keys listed have the same keys. */
  lemma SameKeys(w: map<Str, seq<byte>>, c: map<Str, seq<byte>>, ks: set<Str>, keys: seq<Str>)
    requires w.Keys == ks * ks
    requires forall k :: k in ks <==> k in keys
    requires forall k :: k in c <==> k in keys
    ensures w.Keys == c.Keys
  {
  }

  /** A list without repeats has as many distinct elements as entries. */
  lemma {:induction false} DistinctCount(keys: seq<Str>)
    requires Distinct(keys)
    ensures |set k | k in keys| == |keys|
  {
    if keys != [] {
      var rest := keys[1..];
      assert Distinct(rest) by {
        forall i, j | 0 <= i < j < |rest|
          ensures rest[i] != rest[j]
        {
          assert rest[i] == keys[i + 1] && rest[j] == keys[j + 1];
        }
      }
      DistinctCount(rest);
      assert keys[0] !in rest by {
        forall i | 0 <= i < |rest|
          ensures rest[i] != keys[0]
        {
          assert rest[i] == keys[i + 1];
        }
      }
      assert (set k | k in keys) == (set k | k in rest) + {keys[0]} by {
        assert keys == [keys[0]] + rest;
      }
    }
  }

  /** Writing one more chunk adds its item, and one more key to the count. */
  lemma WrittenOneMore(chunksByKey: map<Str, Chunk>, done: set<Str>, key: Str)
    requires key in chunksByKey && key !in done
    ensures Written(chunksByKey, done + {key}) == Written(chunksByKey, done)[key := chunksByKey[key].bytes]
  {
  }

  /** Updating a merged map is merging with the updated right-hand map. */
  lemma MergeUpdate<K, V>(a: map<K, V>, b: map<K, V>, k: K, v: V)
    ensures (a + b)[k := v] == a + b[k := v]
  {
  }

  /** The writes logged for keys stored in the given order. */
  function Stores(keys: seq<Str>): (ws: seq<Write>)
    ensures |ws| == |keys|
    ensures forall i :: 0 <= i < |keys| ==> ws[i] == Stored(keys[i])
  {
    seq(|keys|, i requires 0 <= i < |keys| => Stored(keys[i]))
  }

  /** A key not yet in a list of distinct keys keeps it distinct when appended. */
  lemma DistinctOneMore(keys: seq<Str>, key: Str)
    requires Distinct(keys) && key !in keys
    ensures Distinct(keys + [key])
  {
  }

  /** Where `putFileChunks` stands once it has written the keys `done`, in the
      order `order`, to a store that held `items0` and had logged `log0`. */
  ghost predicate ChunksWritten(chunksByKey: map<Str, Chunk>, items0: map<Str, seq<byte>>, log0: seq<Write>,
                                items: map<Str, seq<byte>>, log: seq<Write>, done: set<Str>, order: seq<Str>)
  {
    && done <= chunksByKey.Keys
    && items == items0 + Written(chunksByKey, done)
    && Distinct(order) && done == (set k | k in order)
    && log == log0 + Stores(order)
  }

  /** Writing one more chunk moves `putFileChunks` one key further. */
  lemma ChunkWrittenStep(chunksByKey: map<Str, Chunk>, items0: map<Str, seq<byte>>, log0: seq<Write>,
                         items: map<Str, seq<byte>>, log: seq<Write>, done: set<Str>, order: seq<Str>, key: Str)
    requires ChunksWritten(chunksByKey, items0, log0, items, log, done, order)
    requires key in chunksByKey && key !in done
    ensures ChunksWritten(chunksByKey, items0, log0, items[key := chunksByKey[key].bytes],
                          log + [Stored(key)], done + {key}, order + [key])
  {
    assert items[key := chunksByKey[key].bytes] == items0 + Written(chunksByKey, done + {key}) by {
      WrittenOneMore(chunksByKey, done, key);
      MergeUpdate(items0, Written(chunksByKey, done), key, chunksByKey[key].bytes);
    }
    assert log + [Stored(key)] == log0 + Stores(order + [key]) by {
      StoresOneMore(order, key);
    }
    assert Distinct(order + [key]) by {
      assert key !in order;
      DistinctOneMore(order, key);
    }
    assert done + {key} == set k | k in order + [key];
  }

  /** Storing one more key logs one more write. */
  lemma StoresOneMore(keys: seq<Str>, key: Str)
    ensures Stores(keys + [key]) == Stores(keys) + [Stored(key)]
  {
    assert Stores(keys + [key])[..|keys|] == Stores(keys);
  }

  /** The keys written are among the file's distinct chunk keys, so there are at
      most as many as chunks, and exactly as many once all are written. */
  lemma WrittenKeysBounded(chunksByKey: map<Str, Chunk>, keys: seq<Str>, done: set<Str>, order: seq<Str>)
    requires Distinct(keys) && Distinct(order)
    requires forall k :: k in chunksByKey <==> k in keys
    requires done == (set k | k in order)
    requires done <= chunksByKey.Keys
    ensures |order| <= |keys|
    ensures done == chunksByKey.Keys ==> |order| == |keys|
    ensures done != chunksByKey.Keys ==> |order| < |keys|
  {
    DistinctCount(keys);
    DistinctCount(order);
    assert chunksByKey.Keys == set k | k in keys;
    assert chunksByKey.Keys == done + (chunksByKey.Keys - done);
  }

  /** The log after the manifest and then the chunks in `order` were stored: the
      manifest's write comes first and the last entry is a store. */
  ghost predicate LoggedManifestFirst(log0: seq<Write>, log: seq<Write>, checksum: Str, order: seq<Str>)
  {
    && |log| == |log0| + 1 + |order|
    && log[|log0|] == Stored(checksum)
    && log[|log| - 1].Stored?
  }

  lemma ManifestLoggedFirst(log0: seq<Write>, checksum: Str, order: seq<Str>)
    ensures LoggedManifestFirst(log0, log0 + [Stored(checksum)] + Stores(order), checksum, order)
  {
  }

  /** The store holds under `key` what it held before, or nothing in both. */
  ghost predicate Kept(items0: map<Str, seq<byte>>, items: map<Str, seq<byte>>, key: Str)
  {
    (key in items <==> key in items0) && (key in items0 ==> items[key] == items0[key])
  }

  /** Every chunk key either holds its own chunk's bytes, or is kept as it was:
      the chunks written before a failure are left behind, the others untouched. */
  ghost predicate KeptOrWritten(items0: map<Str, seq<byte>>, items: map<Str, seq<byte>>, keys: seq<Str>, parts: seq<Chunk>)
    requires |keys| == |parts|
  {
    forall i :: 0 <= i < |keys| ==>
      (keys[i] in items && items[keys[i]] == parts[i].bytes) || Kept(items0, items, keys[i])
  }

  /** The chunks written over a store with the manifest just set are each left
      under their own key; an unwritten key keeps its old item. */
  lemma WrittenKeptOrWritten(items0: map<Str, seq<byte>>, manifest: Str, chunksByKey: map<Str, Chunk>, done: set<Str>,
                             checksum: Str, keys: seq<Str>, parts: seq<Chunk>)
    requires |keys| == |parts|
    requires forall k :: k in chunksByKey <==> k in keys
    requires forall i :: 0 <= i < |parts| ==> chunksByKey[keys[i]] == parts[i]
    requires checksum !in keys
    ensures KeptOrWritten(items0, items0[checksum := manifest] + Written(chunksByKey, done), keys, parts)
  {
    var items := items0[checksum := manifest] + Written(chunksByKey, done);
    forall i | 0 <= i < |keys|
      ensures (keys[i] in items && items[keys[i]] == parts[i].bytes) || Kept(items0, items, keys[i])
    {
      assert keys[i] != checksum;
      if keys[i] in done {
        assert items[keys[i]] == chunksByKey[keys[i]].bytes;
      }
    }
  }

  /** The store after a chunk write failed and the manifest's Delete was tried,
      starting from `items0` and `log0`: nothing outside the file's keys changed;
      each chunk key holds its chunk or what it held before; the manifest is
      readable, still listing the keys, exactly when it cannot be deleted; the log
      grew by the manifest, fewer chunks than `parts`, and the Delete exactly when
      it succeeded. */
  ghost predicate RolledBack(items0: map<Str, seq<byte>>, log0: seq<Write>, items: map<Str, seq<byte>>, log: seq<Write>,
                             unreachable: set<Str>, undeletable: set<Str>, checksum: Str, keys: seq<Str>, parts: seq<Chunk>)
    requires |keys| == |parts|
  {
    var readable := checksum !in unreachable && checksum in items;
    && SameOutside(items0, items, checksum, keys)
    && KeptOrWritten(items0, items, keys, parts)
    && (readable <==> checksum in undeletable)
    && (readable ==> items[checksum] == Join(keys))
    && |log0| < |log| <= |log0| + 1 + |parts|
    && (log[|log| - 1] == Deleted(checksum) <==> checksum !in undeletable)
  }

  /** After a rollback, a chunk key that held nothing before and holds an item now
      holds its own chunk's bytes: no other bytes are left behind under it. */
  lemma RolledBackLeavesOwnChunks(items0: map<Str, seq<byte>>, log0: seq<Write>, items: map<Str, seq<byte>>,
                                  log: seq<Write>, unreachable: set<Str>, undeletable: set<Str>,
                                  checksum: Str, keys: seq<Str>, parts: seq<Chunk>, i: nat)
    requires |keys| == |parts| && i < |keys|
    requires RolledBack(items0, log0, items, log, unreachable, undeletable, checksum, keys, parts)
    requires keys[i] !in items0 && keys[i] in items
    ensures items[keys[i]] == parts[i].bytes
  {
    assert !Kept(items0, items, keys[i]);
  }

  /** A Delete of a readable manifest after some, not all, chunks were written
      leaves the store rolled back, with the manifest's write first in the log. */
  lemma RollbackOutcome(items0: map<Str, seq<byte>>, log0: seq<Write>, items1: map<Str, seq<byte>>, log1: seq<Write>,
                        items: map<Str, seq<byte>>, log: seq<Write>, unreachable: set<Str>, undeletable: set<Str>,
                        checksum: Str, keys: seq<Str>, order: seq<Str>, parts: seq<Chunk>)
    requires |keys| == |parts| && checksum !in keys
    requires SameOutside(items0, items1, checksum, keys)
    requires KeptOrWritten(items0, items1, keys, parts)
    requires checksum !in unreachable && checksum in items1 && items1[checksum] == Join(keys)
    requires LoggedManifestFirst(log0, log1, checksum, order) && |order| < |parts|
    requires checksum !in undeletable ==> items == items1 - {checksum} && log == log1 + [Deleted(checksum)]
    requires checksum in undeletable ==> items == items1 && log == log1
    ensures RolledBack(items0, log0, items, log, unreachable, undeletable, checksum, keys, parts)
    ensures log[|log0|] == Stored(checksum)
  {
    forall i | 0 <= i < |keys|
      ensures (keys[i] in items && items[keys[i]] == parts[i].bytes) || Kept(items0, items, keys[i])
    {
      assert keys[i] != checksum;
      assert (keys[i] in items1 && items1[keys[i]] == parts[i].bytes) || Kept(items0, items1, keys[i]);
    }
    if checksum !in undeletable {
      assert log[|log| - 1] == Deleted(checksum);
      assert log[|log0|] == log1[|log0|];
    }
  }

  /** Every chunk of the map is accepted exactly when chunk i is accepted under
      key i for every i. */
  lemma AcceptedByIndex(chunksByKey: map<Str, Chunk>, keys: seq<Str>, parts: seq<Chunk>,
                        unreachable: set<Str>, maxItemSize: nat)
    requires |keys| == |parts|
    requires forall k :: k in chunksByKey <==> k in keys
    requires forall i :: 0 <= i < |parts| ==> chunksByKey[keys[i]] == parts[i]
    ensures (forall k :: k in chunksByKey ==> k !in unreachable && |chunksByKey[k].bytes| <= maxItemSize)
        <==> (forall i :: 0 <= i < |keys| ==> keys[i] !in unreachable && |parts[i].bytes| <= maxItemSize)
  {
    if forall i :: 0 <= i < |keys| ==> keys[i] !in unreachable && |parts[i].bytes| <= maxItemSize {
      forall k | k in chunksByKey
        ensures k !in unreachable && |chunksByKey[k].bytes| <= maxItemSize
      {
        var i :| 0 <= i < |keys| && keys[i] == k;
      }
    }
  }

  /** Writing some of the chunks changes nothing outside the chunk keys. */
  lemma WrittenOutside(chunksByKey: map<Str, Chunk>, done: set<Str>,
                       checksum: Str, keys: seq<Str>)
    requires forall k :: k in chunksByKey <==> k in keys
    ensures forall b :: SameOutside(b, b + Written(chunksByKey, done), checksum, keys)
  {
  }

  class FileCache {
    const memcache: Backend
    /** The checksum function (hexadecimal MD5 in the source). */
    const digest: seq<byte> -> Str

    /** Checksums never contain the manifest's separator. */
    ghost predicate Valid()
    {
      forall b :: Comma !in digest(b)
    }

    /** `New`; the checksum function never produces a comma. */
    constructor (memcache: Backend, digest: seq<byte> -> Str)
      requires forall b :: Comma !in digest(b)
      ensures this.memcache == memcache && this.digest == digest
      ensures Valid()
    {
      this.memcache := memcache;
      this.digest := digest;
    }

    /** The backend holds `file` under `checksum`. */
    ghost predicate Holds(checksum: Str, file: seq<byte>)
      reads memcache
    {
      StoredIn(memcache.items, memcache.unreachable, checksum, file)
    }

    /** `exists`: false when the backend Get errors, true when it returns an item. */
    method Exists(checksum: Str) returns (b: bool)
      ensures b <==> memcache.Readable(checksum)
    {
      var item := memcache.Get(checksum);
      if item.Err? {
        return false;
      }
      return true;
    }

    /** `getChunksByKey`: splits the file on the first call of `Chunks` (which also
        sets its checksum), then names and maps its chunks. */
    method GetChunksByKey(chunkedFile: ChunkedFiles.ChunkedFile, stream: nat -> nat)
      returns (chunksByKey: map<Str, Chunk>, keys: Str)
      modifies chunkedFile
      ensures chunkedFile.file == old(chunkedFile.file)
      ensures old(chunkedFile.parts) == [] ==>
        chunkedFile.parts == ChunkedFiles.SplitFile(chunkedFile.file, RandSizer.MinChunkSize, RandSizer.MaxChunkSize, stream, 0) &&
        chunkedFile.checksum == chunkedFile.digest(chunkedFile.file)
      ensures old(chunkedFile.parts) != [] ==> chunkedFile.parts == old(chunkedFile.parts) && chunkedFile.checksum == old(chunkedFile.checksum)
      ensures var n := |chunkedFile.parts|;
        && keys == Join(ChunkKeys(chunkedFile.checksum, n))
        && (forall k :: k in chunksByKey <==> k in ChunkKeys(chunkedFile.checksum, n))
        && forall i :: 0 <= i < n ==> chunksByKey[ChunkKeys(chunkedFile.checksum, n)[i]] == chunkedFile.parts[i]
    {
      var first := chunkedFile.Chunks(stream);
      var totalChunks := |first|;
      var parts := chunkedFile.Chunks(stream);
      chunksByKey, keys := KeyChunks(chunkedFile.Checksum(), totalChunks, parts);
    }

    /** `putFileKeys`: stores the manifest under the file's key. */
    method PutFileKeys(fileKey: Str, chunksKeys: Str) returns (r: Outcome<Failure>)
      modifies memcache
      ensures r.Pass? <==> memcache.Accepts(fileKey, chunksKeys)
      ensures r.Pass? ==> memcache.items == old(memcache.items)[fileKey := chunksKeys]
                          && memcache.log == old(memcache.log) + [Stored(fileKey)]
      ensures r.Fail? ==> r.error.ManifestWriteFailed? && memcache.items == old(memcache.items) && memcache.log == old(memcache.log)
    {
      var res := memcache.Set(fileKey, chunksKeys);
      if res.Fail? {
        return Fail(ManifestWriteFailed(res.error));
      }
      return Pass;
    }

    /** `putFileChunks`: stores every chunk under its key, in an unspecified order,
        and stops at the first failure. `done` is the set of keys written and
        `order` the order they were written in. */
    method PutFileChunks(chunksByKey: map<Str, Chunk>) returns (r: Outcome<Failure>, ghost done: set<Str>, ghost order: seq<Str>)
      modifies memcache
      ensures done <= chunksByKey.Keys
      ensures r.Pass? <==> forall k :: k in chunksByKey ==> memcache.Accepts(k, chunksByKey[k].bytes)
      ensures r.Pass? ==> done == chunksByKey.Keys
      ensures r.Fail? ==> r.error.ChunkWriteFailed? && done < chunksByKey.Keys
      ensures memcache.items == old(memcache.items) + Written(chunksByKey, done)
      ensures Distinct(order) && done == (set k | k in order)
      ensures memcache.log == old(memcache.log) + Stores(order)
    {
      var left := chunksByKey.Keys;
      done := {};
      order := [];
      while left != {}
        invariant left !! done && left + done == chunksByKey.Keys
        invariant forall k :: k in done ==> memcache.Accepts(k, chunksByKey[k].bytes)
        invariant ChunksWritten(chunksByKey, old(memcache.items), old(memcache.log), memcache.items, memcache.log, done, order)
        decreases left
      {
        var key :| key in left;
        ghost var items, log := memcache.items, memcache.log;
        var res := memcache.Set(key, chunksByKey[key].Bytes());
        if res.Fail? {
          return Fail(ChunkWriteFailed(res.error)), done, order;
        }
        ChunkWrittenStep(chunksByKey, old(memcache.items), old(memcache.log), items, log, done, order, key);
        done := done + {key};
        left := left - {key};
        order := order + [key];
      }
      return Pass, done, order;
    }

    /** `getFileChunksKeys`: reads the manifest; "" gives no keys, anything else is
        split on commas. */
    method GetFileChunksKeys(checksum: Str) returns (r: Result<seq<Str>, Failure>)
      ensures r.Ok? <==> memcache.Readable(checksum)
      ensures r.Ok? ==> r.value == ParseManifest(memcache.items[checksum])
      ensures r.Err? ==> r.error.ManifestReadFailed?
    {
      var keys: seq<Str> := [];
      var fileKeys := memcache.Get(checksum);
      if fileKeys.Err? {
        return Err(ManifestReadFailed(fileKeys.error));
      }
      var chunksKeys := fileKeys.value;
      if chunksKeys != [] {
        keys := SplitOn(chunksKeys);
      }
      return Ok(keys);
    }

    /** `getFileChunks`: fetches every chunk in order, failing on the first that
        cannot be read. */
    method GetFileChunks(chunksKeys: seq<Str>) returns (r: Result<seq<Chunk>, Failure>)
      ensures r.Ok? <==> forall k :: k in chunksKeys ==> memcache.Readable(k)
      ensures r.Ok? ==> r.value == ChunksIn(memcache.items, chunksKeys)
      ensures r.Err? ==> r.error.ChunkReadFailed?
    {
      var parts: seq<Chunk> := [];
      for i := 0 to |chunksKeys|
        invariant |parts| == i
        invariant forall j :: 0 <= j < i ==> memcache.Readable(chunksKeys[j])
        invariant forall j :: 0 <= j < i ==> parts[j] == Chunk(memcache.items[chunksKeys[j]])
      {
        var fileChunk := memcache.Get(chunksKeys[i]);
        if fileChunk.Err? {
          return Err(ChunkReadFailed(fileChunk.error));
        }
        parts := parts + [NewChunk(fileChunk.value)];
      }
      return Ok(parts);
    }

    /** What writing a file's manifest under `checksum` and its `parts` under
        `keys` leaves behind. It succeeds exactly when the backend accepts the
        manifest and every chunk, and fails on the manifest exactly when the backend
        refuses the manifest. On success: the manifest and exactly the chunk items
        are stored, with one log entry per write, and the file can be read back.
        When the manifest write fails: nothing changes. When a chunk write fails:
        only the items under `checksum` and `keys` may differ, and the manifest is
        gone unless the rollback Delete failed, in which case the manifest just
        written is still there. Whenever anything is logged, the manifest is logged
        first. */
    twostate predicate WroteParts(checksum: Str, keys: seq<Str>, parts: seq<Chunk>, file: seq<byte>,
                                  new r: Result<Str, Failure>)
      reads memcache
      requires |keys| == |parts|
    {
      && (r.Ok? ==>
            && r.value == checksum && Holds(checksum, file)
            && memcache.items == old(memcache.items)[checksum := Join(keys)] + ChunkItems(keys, parts)
            && |memcache.log| == |old(memcache.log)| + 1 + |parts|)
      && (r.Ok? <==> AcceptsFile(checksum, keys, parts))
      && (r.Err? ==> r.error.ManifestWriteFailed? || r.error.ChunkWriteFailed?)
      && (r.Err? && r.error.ManifestWriteFailed? <==> !memcache.Accepts(checksum, Join(keys)))
      && (r.Err? && r.error.ManifestWriteFailed? ==>
            memcache.items == old(memcache.items) && memcache.log == old(memcache.log))
      && (r.Err? && r.error.ChunkWriteFailed? ==>
            RolledBack(old(memcache.items), old(memcache.log), memcache.items, memcache.log,
                       memcache.unreachable, memcache.undeletable, checksum, keys, parts))
      && (memcache.log != old(memcache.log) ==>
            |memcache.log| > |old(memcache.log)| && memcache.log[|old(memcache.log)|] == Stored(checksum))
    }

    /** The backend accepts the manifest listing `keys` under `checksum`, and chunk i
        under key i, for every chunk. */
    predicate AcceptsFile(checksum: Str, keys: seq<Str>, parts: seq<Chunk>)
      requires |keys| == |parts|
    {
      && memcache.Accepts(checksum, Join(keys))
      && forall i :: 0 <= i < |keys| ==> memcache.Accepts(keys[i], parts[i].bytes)
    }

    /** `WroteParts` for the digest, chunk keys and chunks a Put of `file` uses. */
    twostate predicate WroteFile(file: seq<byte>, stream: nat -> nat, new r: Result<Str, Failure>)
      reads memcache
    {
      WroteParts(digest(file), PutKeys(digest(file), file, stream), PutParts(file, stream), file, r)
    }

    /** The writing half of `Put`: the manifest first, then the chunks, and on a
        chunk failure a Delete of the manifest whose own failure is only logged. */
    method WriteFileParts(checksum: Str, manifest: Str, chunksByKey: map<Str, Chunk>,
                          ghost keys: seq<Str>, ghost parts: seq<Chunk>, ghost file: seq<byte>)
      returns (r: Result<Str, Failure>)
      requires manifest == Join(keys) && Distinct(keys) && |keys| == |parts|
      requires forall k :: k in keys ==> IsField(k) && k != checksum
      requires forall k :: k in chunksByKey <==> k in keys
      requires forall i :: 0 <= i < |parts| ==> chunksByKey[keys[i]] == parts[i]
      requires ChunkedFiles.Concat(parts) == file
      modifies memcache
      ensures WroteParts(checksum, keys, parts, file, r)
    {
      var stored := PutFileKeys(checksum, manifest);
      if stored.Fail? {
        return Err(stored.error);
      }
      ghost var items, log := memcache.items, memcache.log;
      var written, done, order := PutFileChunks(chunksByKey);
      WrittenKeysBounded(chunksByKey, keys, done, order);
      assert written.Pass? <==> AcceptsFile(checksum, keys, parts) by {
        AcceptedByIndex(chunksByKey, keys, parts, memcache.unreachable, memcache.maxItemSize);
      }
      assert LoggedManifestFirst(old(memcache.log), memcache.log, checksum, order) by {
        ManifestLoggedFirst(old(memcache.log), checksum, order);
      }
      if written.Fail? {
        assert checksum !in chunksByKey;
        assert SameOutside(old(memcache.items), memcache.items, checksum, keys) by {
          WrittenOutside(chunksByKey, done, checksum, keys);
        }
        assert memcache.Readable(checksum) && memcache.items[checksum] == manifest;
        assert checksum !in keys;
        WrittenKeptOrWritten(old(memcache.items), manifest, chunksByKey, done, checksum, keys, parts);
        ghost var items1, log1 := memcache.items, memcache.log;
        var deleted := memcache.Delete(checksum);
        RollbackOutcome(old(memcache.items), old(memcache.log), items1, log1, memcache.items, memcache.log,
                        memcache.unreachable, memcache.undeletable, checksum, keys, order, parts);
        return Err(written.error);
      }
      assert Holds(checksum, file) by {
        PutStoresFile(old(memcache.items), memcache.unreachable, checksum, keys, parts, file, chunksByKey);
      }
      assert memcache.items == items + ChunkItems(keys, parts) by {
        WrittenIsChunkItems(chunksByKey, keys, parts);
      }
      return Ok(checksum);
    }

    /** `Put`, checking for an existing copy under `probe`. The source probes the
        checksum the ChunkedFile holds before it has been split; `Put` probes the
        file's digest and `PutAsWritten` the empty key the source actually probes.
        Rejects an oversized file before any I/O; returns `probe` at once when it
        can be read; otherwise writes the file as `WroteFile` describes. */
    method PutProbing(file: seq<byte>, stream: nat -> nat, probe: Str) returns (r: Result<Str, Failure>)
      requires Valid()
      modifies memcache
      ensures |file| > MaxFileSize ==>
        r == Err(FileTooLarge(|file|, |file| - MaxFileSize)) &&
        memcache.items == old(memcache.items) && memcache.log == old(memcache.log)
      ensures |file| <= MaxFileSize && old(memcache.Readable(probe)) ==>
        r == Ok(probe) && memcache.items == old(memcache.items) && memcache.log == old(memcache.log)
      ensures |file| <= MaxFileSize && !old(memcache.Readable(probe)) ==> WroteFile(file, stream, r)
    {
      var sizeCheck := CheckFileSize(file);
      if sizeCheck.Fail? {
        return Err(sizeCheck.error);
      }
      var chunkedFile := new ChunkedFiles.ChunkedFile.FromFile(file, digest);
      var found := Exists(probe);
      if found {
        return Ok(probe);
      }
      var chunksByKey, manifest := GetChunksByKey(chunkedFile, stream);
      var checksum := chunkedFile.Checksum();
      ghost var parts := chunkedFile.parts;
      ghost var keys := ChunkKeys(checksum, |parts|);
      assert parts == PutParts(file, stream) && keys == PutKeys(digest(file), file, stream);
      ChunkKeysListable(checksum, |parts|);
      ChunkKeysDistinct(checksum, |parts|);
      ChunkedFiles.SplitThenAssemble(file, RandSizer.MinChunkSize, RandSizer.MaxChunkSize, stream, 0);
      r := WriteFileParts(checksum, manifest, chunksByKey, keys, parts, file);
    }

    /** `Put`: the file's checksum, once a manifest can be read under it. An
        oversized file is rejected before any I/O; a file whose manifest can already
        be read is not written again, and that manifest is trusted as it is;
        otherwise the file is written as `WroteFile` describes, so the file itself is
        stored when this Put wrote it, and a failed Put leaves the manifest readable
        only when its rollback Delete failed. */
    method Put(file: seq<byte>, stream: nat -> nat) returns (r: Result<Str, Failure>)
      requires Valid()
      modifies memcache
      ensures |file| > MaxFileSize ==>
        r == Err(FileTooLarge(|file|, |file| - MaxFileSize)) &&
        memcache.items == old(memcache.items) && memcache.log == old(memcache.log)
      ensures |file| <= MaxFileSize && old(memcache.Readable(digest(file))) ==>
        r == Ok(digest(file)) && memcache.items == old(memcache.items) && memcache.log == old(memcache.log)
      ensures |file| <= MaxFileSize && !old(memcache.Readable(digest(file))) ==> WroteFile(file, stream, r)
      ensures r.Ok? ==> r.value == digest(file) && memcache.Readable(digest(file))
      ensures |file| <= MaxFileSize && r.Err? ==>
        !memcache.Readable(digest(file)) ||
        (r.error.ChunkWriteFailed? && digest(file) in memcache.undeletable &&
         memcache.items[digest(file)] == Join(PutKeys(digest(file), file, stream)))
    {
      r := PutProbing(file, stream, digest(file));
    }

    /** `Put` AS WRITTEN: the existence check reads the checksum the ChunkedFile holds
        before it has been split, which is still empty. When the empty key can be
        read, Put answers with the empty key and stores nothing; otherwise it writes
        the file as `WroteFile` describes, even when it is already stored. */
    method PutAsWritten(file: seq<byte>, stream: nat -> nat) returns (r: Result<Str, Failure>)
      requires Valid()
      modifies memcache
      ensures |file| > MaxFileSize ==>
        r == Err(FileTooLarge(|file|, |file| - MaxFileSize)) &&
        memcache.items == old(memcache.items) && memcache.log == old(memcache.log)
      ensures |file| <= MaxFileSize && old(memcache.Readable([])) ==>
        r == Ok([]) && memcache.items == old(memcache.items) && memcache.log == old(memcache.log)
      ensures |file| <= MaxFileSize && !old(memcache.Readable([])) ==> WroteFile(file, stream, r)
    {
      var chunkedFile := new ChunkedFiles.ChunkedFile.FromFile(file, digest);
      r := PutProbing(file, stream, chunkedFile.Checksum());
    }

    /** `Get`: reads the manifest, fetches every chunk it lists in order, assembles
        them and checks the result's digest against the checksum asked for. It never
        returns partial or mismatching bytes. */
    method Get(checksum: Str) returns (r: Result<seq<byte>, Failure>)
      ensures !memcache.Readable(checksum) ==> r.Err? && r.error.ManifestReadFailed?
      ensures memcache.Readable(checksum) &&
              (exists k :: k in ParseManifest(memcache.items[checksum]) && !memcache.Readable(k)) ==>
                r.Err? && r.error.ChunkReadFailed?
      ensures r.Ok? ==> Holds(checksum, r.value) && digest(r.value) == checksum
      ensures forall f :: Holds(checksum, f) && digest(f) == checksum ==> r == Ok(f)
      ensures forall f :: Holds(checksum, f) && digest(f) != checksum ==> r == Err(ValidationFailed(checksum, digest(f)))
    {
      var chunksKeys := GetFileChunksKeys(checksum);
      if chunksKeys.Err? {
        return Err(chunksKeys.error);
      }
      var chunks := GetFileChunks(chunksKeys.value);
      if chunks.Err? {
        return Err(chunks.error);
      }
      var chunkedFile := new ChunkedFiles.ChunkedFile.FromParts(chunks.value, digest);
      var valid := chunkedFile.ValidateAgainst(checksum);
      if valid.Fail? {
        return Err(ValidationFailed(valid.error.expected, valid.error.actual));
      }
      var file := chunkedFile.File();
      return Ok(file);
    }
  }

  /** The loop of `getChunksByKey`: maps `checksum-part-i-of-n` to chunk i and writes
      each key and a comma into a builder, then trims the last comma. */
  method KeyChunks(checksum: Str, totalChunks: nat, parts: seq<Chunk>) returns (chunksByKey: map<Str, Chunk>, keys: Str)
    requires totalChunks == |parts|
    ensures var all := ChunkKeys(checksum, |parts|);
      && keys == Join(all)
      && (forall k :: k in chunksByKey <==> k in all)
      && forall i :: 0 <= i < |parts| ==> chunksByKey[all[i]] == parts[i]
  {
    ChunkKeysDistinct(checksum, totalChunks);
    chunksByKey, keys := IndexByKey(ChunkKeys(checksum, totalChunks), parts);
  }

  /** No two keys of the list are equal. */
  ghost predicate Distinct(keys: seq<Str>)
  {
    forall i, j :: 0 <= i < j < |keys| ==> keys[i] != keys[j]
  }

  lemma ChunkKeysDistinct(checksum: Str, total: nat)
    ensures Distinct(ChunkKeys(checksum, total))
  {
    forall i, j | 0 <= i < j < total
      ensures ChunkKeys(checksum, total)[i] != ChunkKeys(checksum, total)[j]
    {
      ChunkKeyFacts(checksum, i, j, total);
    }
  }

  /** Maps key i to chunk i and builds the keys joined by commas. */
  method IndexByKey(all: seq<Str>, parts: seq<Chunk>) returns (chunksByKey: map<Str, Chunk>, keys: Str)
    requires |all| == |parts| && Distinct(all)
    ensures keys == Join(all)
    ensures forall k :: k in chunksByKey <==> k in all
    ensures forall i :: 0 <= i < |parts| ==> chunksByKey[all[i]] == parts[i]
  {
    var sb: Str := [];
    chunksByKey := map[];
    for count := 0 to |parts|
      invariant sb == Terminated(all[..count])
      invariant forall k :: k in chunksByKey ==> k in all[..count]
      invariant forall i :: 0 <= i < count ==> all[i] in chunksByKey && chunksByKey[all[i]] == parts[i]
    {
      var key := all[count];
      chunksByKey := chunksByKey[key := parts[count]];
      TerminatedAppend(all[..count], key);
      assert all[..count + 1] == all[..count] + [key];
      sb := sb + key + [Comma];
    }
    assert all[..|parts|] == all;
    TrimmedIsJoin(all);
    keys := TrimSuffix(sb, [Comma]);
  }

  /** A file put under a checksum the backend did not hold comes back whole from Get;
      whatever Get returns after a successful Put has the file's checksum. On a
      backend that reaches every key and takes items as large as a chunk and as the
      manifest, a new file within the size limit is put and read back. */
  method PutThenGet(cache: FileCache, file: seq<byte>, stream: nat -> nat)
    returns (put: Result<Str, Failure>, got: Result<seq<byte>, Failure>)
    requires cache.Valid()
    modifies cache.memcache
    ensures |file| > MaxFileSize ==> put == Err(FileTooLarge(|file|, |file| - MaxFileSize))
    ensures put.Ok? && !old(cache.memcache.Readable(cache.digest(file))) ==> got == Ok(file)
    ensures put.Ok? && got.Ok? ==> cache.digest(got.value) == cache.digest(file)
    ensures put.Err? ==> got == Err(put.error)
    ensures |file| <= MaxFileSize && !old(cache.memcache.Readable(cache.digest(file))) &&
            cache.memcache.unreachable == {} && cache.memcache.maxItemSize >= RandSizer.MaxChunkSize &&
            cache.memcache.maxItemSize >= |Join(PutKeys(cache.digest(file), file, stream))| ==>
              put == Ok(cache.digest(file)) && got == Ok(file)
  {
    ghost var d := cache.digest(file);
    if cache.memcache.unreachable == {} && cache.memcache.maxItemSize >= RandSizer.MaxChunkSize &&
       cache.memcache.maxItemSize >= |Join(PutKeys(d, file, stream))| {
      var parts, keys := PutParts(file, stream), PutKeys(d, file, stream);
      ChunkedFiles.SplitBounds(file, RandSizer.MinChunkSize, RandSizer.MaxChunkSize, stream, 0);
      assert |keys| == |parts|;
      forall i | 0 <= i < |keys| ensures cache.memcache.Accepts(keys[i], parts[i].bytes) {
        assert parts == ChunkedFiles.SplitFile(file, RandSizer.MinChunkSize, RandSizer.MaxChunkSize, stream, 0);
        assert |parts[i].bytes| <= RandSizer.MaxChunkSize;
        assert keys[i] !in cache.memcache.unreachable;
      }
      assert cache.AcceptsFile(d, keys, parts);
    }
    put := cache.Put(file, stream);
    if put.Err? {
      return put, Err(put.error);
    }
    got := cache.Get(put.value);
  }

  /** Putting the same file twice: once the first Put succeeds, the second answers
      with the same checksum and writes nothing. */
  method PutTwice(cache: FileCache, file: seq<byte>, stream: nat -> nat)
    returns (first: Result<Str, Failure>, second: Result<Str, Failure>, ghost logBetween: seq<Write>)
    requires cache.Valid()
    modifies cache.memcache
    ensures first.Ok? ==> second == first && cache.memcache.log == logBetween
  {
    first := cache.Put(file, stream);
    logBetween := cache.memcache.log;
    second := cache.Put(file, stream);
  }

  /** A one-byte file is one chunk of at most the largest chunk size, stored under
      one key, which is also the whole manifest. */
  lemma OneBytePut(checksum: Str, stream: nat -> nat)
    requires Comma !in checksum
    ensures |PutParts([1], stream)| == 1
    ensures |PutParts([1], stream)[0].bytes| <= RandSizer.MaxChunkSize
    ensures PutKeys(checksum, [1], stream) == [ChunkKey(checksum, 0, 1)]
    ensures Join(PutKeys(checksum, [1], stream)) == ChunkKey(checksum, 0, 1)
    ensures |ChunkKey(checksum, 0, 1)| == |checksum| + 12
    ensures ParseManifest(ChunkKey(checksum, 0, 1)) == [ChunkKey(checksum, 0, 1)]
  {
    ChunkedFiles.SplitCount([1], RandSizer.MinChunkSize, RandSizer.MaxChunkSize, stream, 0);
    ChunkedFiles.SplitBounds([1], RandSizer.MinChunkSize, RandSizer.MaxChunkSize, stream, 0);
    var key := ChunkKey(checksum, 0, 1);
    assert key == checksum + PartInfix + [48] + OfInfix + [49];
    ChunkKeyFacts(checksum, 0, 0, 1);
    ParseOfJoin([key]);
  }

  /** As written, Put on a backend that holds an item under the empty key answers
      with the empty key and stores nothing, while the corrected Put that follows it,
      on that backend large enough for the file, answers with the file's own checksum. */
  method EmptyKeyShortCircuitsPut(digest: seq<byte> -> Str, stream: nat -> nat)
    returns (asWritten: Result<Str, Failure>, stored: bool, corrected: Result<Str, Failure>)
    requires forall b :: Comma !in digest(b)
    requires digest([1]) != []
    ensures asWritten == Ok([]) && !stored
    ensures corrected == Ok(digest([1]))
  {
    var d := digest([1]);
    var backend := new Backend(map[[] := []], {}, |d| + 1048576, {});
    var cache := new FileCache(backend, digest);
    asWritten := cache.PutAsWritten([1], stream);
    stored := cache.Exists(d);
    OneBytePut(d, stream);
    assert cache.AcceptsFile(d, PutKeys(d, [1], stream), PutParts([1], stream));
    corrected := cache.Put([1], stream);
  }

  /** A manifest that outlived a failed Put answers the next Put of the same file:
      with a chunk key the backend cannot reach and a manifest it cannot delete, the
      first Put fails after writing the manifest, the second one succeeds without
      writing, and a Get of the returned checksum still fails on the missing chunk. */
  method StaleManifestAnswersPut(digest: seq<byte> -> Str, stream: nat -> nat)
    returns (first: Result<Str, Failure>, second: Result<Str, Failure>, got: Result<seq<byte>, Failure>)
    requires forall b :: Comma !in digest(b)
    requires digest([1]) != []
    ensures first.Err? && first.error.ChunkWriteFailed?
    ensures second == Ok(digest([1]))
    ensures got.Err? && got.error.ChunkReadFailed?
  {
    var d := digest([1]);
    var key := ChunkKey(d, 0, 1);
    ChunkKeyFacts(d, 0, 0, 1);
    var backend := new Backend(map[], {key}, |d| + 1048576, {d});
    var cache := new FileCache(backend, digest);
    OneBytePut(d, stream);
    assert !cache.AcceptsFile(d, PutKeys(d, [1], stream), PutParts([1], stream));
    first := cache.Put([1], stream);
    second := cache.Put([1], stream);
    assert key in ParseManifest(backend.items[d]) && !backend.Readable(key);
    got := cache.Get(d);
  }

  /** As written, putting a file the backend already holds writes its manifest
      again (or fails doing so), where the corrected Put writes nothing. */
  method StoredFileIsRewritten(cache: FileCache, file: seq<byte>, stream: nat -> nat)
    returns (r: Result<Str, Failure>)
    requires cache.Valid() && |file| <= MaxFileSize
    requires cache.memcache.Readable(cache.digest(file)) && !cache.memcache.Readable([])
    modifies cache.memcache
    ensures |cache.memcache.log| > |old(cache.memcache.log)| || (r.Err? && r.error.ManifestWriteFailed?)
  {
    r := cache.PutAsWritten(file, stream);
  }
}
