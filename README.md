# memcached-file-cache: chunker and file cache

A model of the core of a Go service that caches whole files in memcached. Items in
memcached are limited in size, so a file is cut into random-sized chunks. Each
chunk is stored under its own key, and a manifest listing those keys is stored
under the file's MD5 checksum.

The model covers:

- `pkg/chunker`:
  - the chunk value;
  - the random chunk sizers, both the `[96, 1024]` sizer of `rand.go` and the
    later sizers of `chunksizer.go`;
  - the cursor loop that cuts a file into chunks;
  - the `ChunkedFile` object, which caches a file, its chunks and its checksum;
  - the older `Chunker` splitter.
- `pkg/filecache/filecache.go`:
  - `Put`, the size check, the existence probe, the key naming
    `<checksum>-part-<i>-of-<n>`, the comma-separated manifest, the chunk writes
    and the rollback of the manifest;
  - `Get`, which reads the manifest, fetches the chunks, assembles them and
    validates the result against the checksum.

Modules:

- `Bytes`, `Results`: bytes, strings as byte sequences, and result types.
- `Chunks`: the chunk value (`chunk.go`).
- `RandSizer`: the random source and the `[96, 1024]` sizer (`rand.go`).
- `ChunkSizers`: the 1 MiB sizers, the slab table and `randomInRange`
  (`chunksizer.go`).
- `ChunkedFiles`:
  - the specification of a split (`SplitFile`) and of assembly (`Concat`), with
    their lemmas;
  - the split and assemble loops;
  - the `ChunkedFile` class (`chunkedfile.go`).
- `Chunker`: the older `Split`/`Assemble` pair (`chunker.go`).
- `Memcache`: the backend item store, whose operations fail for unreachable keys
  and for items that are too large. It keeps a ghost log of the writes that
  succeeded.
- `Manifest`: decimal numbers, the chunk keys, and the manifest codec (the comma
  join and the `strings.Split` it is read back with).
- `FileCaches`: the `FileCache` class (`filecache.go`).

How the model represents what the code cannot provide:

- Randomness is an oracle stream `stream: nat -> nat`. `Intn(n)` returns the next
  stream value modulo `n`.
- The sizer's draw computes the same remainder by repeated subtraction (`Mod`).
  `ModIsRemainder` shows the two agree.
- Clock seeding does not appear. The stream stands for every possible seed.
- MD5 is the `digest` parameter of `ChunkedFile` and `FileCache`. The model
  assumes that its hexadecimal output contains no comma. The two one-byte examples,
  `EmptyKeyShortCircuitsPut` and `StaleManifestAnswersPut`, also assume that the
  digest of that byte is not empty, as a 32-digit MD5 never is.
- The network is the `Backend` object. Three fixed facts decide which calls fail:
  its set of unreachable keys, its item-size limit, and its set of keys whose
  Delete fails.

The `FileCache` code calls `NewFromChunks(chunks)` with one argument, and then
`File()` and `Validate(expected)`. Those are not the signatures that `chunkedfile.go`
declares. The model gives them the meaning their call sites need:

- `ChunkedFile.FromParts` is the one-argument constructor.
- `File` assembles the chunks.
- `ValidateAgainst` compares the digest of the assembled chunks with the expected
  checksum.

## Model

| member | source | states |
|---|---|---|
| Chunks.NewChunk | pkg/chunker/chunk.go:9-11 | the chunk built from bytes gives back exactly those bytes |
| Chunks.Chunk.Bytes | pkg/chunker/chunk.go:14-16 | a chunk is determined by its bytes |
| Chunks.NewChunkInjective | pkg/chunker/chunk.go:9-11 | chunks built from different bytes differ |
| RandSizer.RandSource.Intn | pkg/chunker/rand.go:27-28 | the draw is below n, and it is the current stream value mod n; the source advances by one |
| RandSizer.ModIsRemainder | pkg/chunker/rand.go:28-28 | the remainder the draw takes by repeated subtraction is the remainder `Intn` takes |
| RandSizer.Draw | pkg/chunker/rand.go:26-29 | a sizer draw always lies in [lo, hi] |
| RandSizer.DrawIsOffsetOfOracle | pkg/chunker/rand.go:27-29 | a stream value within range is added to the minimum unchanged |
| RandSizer.ChunkSizer.New | pkg/chunker/rand.go:26-29 | the chunk size is in [96, 1024]; it is the draw at the source's position, and the source advances by one |
| RandSizer.NewChunkSizer | pkg/chunker/rand.go:18-23 | a fresh sizer bounded by 96 and 1024, at the start of its stream |
| ChunkSizers.NewRandomChunkSizer | pkg/chunker/chunksizer.go:149-154 | a fresh sizer bounded by 96 and 1048576 |
| ChunkSizers.RandomInRange | pkg/chunker/chunksizer.go:120-122 | as written: the result is the offset Intn(max-min+1), without min |
| ChunkSizers.InRange | pkg/chunker/chunksizer.go:120-122 | as written: the result is at most max - min, so it can lie below min |
| ChunkSizers.InRangeFixed | pkg/chunker/chunksizer.go:120-122 | corrected: the result lies in [min, max] and is min plus the as-written offset |
| ChunkSizers.InRangeDropsMinimum | pkg/chunker/chunksizer.go:113-122 | as written, a draw of 0 from the skewed lower range gives size 0, below the 96-byte minimum |
| ChunkSizers.SlabTableShape | pkg/chunker/chunksizer.go:38-75 | the 36 slabs tile [96, 1048576]: each is non-empty and starts where the previous one ends |
| ChunkSizers.SkewedRange | pkg/chunker/chunksizer.go:112-116 | each skewed range is non-empty |
| ChunkSizers.SkewedRangesPartition | pkg/chunker/chunksizer.go:112-116 | the lower and upper skewed ranges are disjoint and cover exactly [96, 1048576] |
| ChunkSizers.SlabRange | pkg/chunker/chunksizer.go:82-88 | the range is the selected slab's range, or [524288, 1048576] when the walk passes every slab |
| ChunkSizers.SizerRangesWithinBounds | pkg/chunker/chunksizer.go:105-122 | with the corrected draw, every skewed and cumulative size lies in [96, 1048576] |
| ChunkSizers.SkewedChunkSizer.constructor | pkg/chunker/chunksizer.go:97-103 | the skewed sizer draws from the random source given |
| ChunkSizers.CumulativeChunkSizer.constructor | pkg/chunker/chunksizer.go:34-37 | the slab-table sizer draws from the random source given; the table it walks is the module constant `Slabs` |
| ChunkSizers.SkewedChunkSizer.NextChunkSize | pkg/chunker/chunksizer.go:105-118 | the size is the as-written draw from the lower range when the float draw is above 20/80, and from the upper range otherwise |
| ChunkSizers.CumulativeChunkSizer.NextChunkSize | pkg/chunker/chunksizer.go:79-89 | the walk over the slab table selects slab `pick`, or the fallback range once the table is exhausted |
| ChunkedFiles.ConcatAppend | pkg/chunker/chunkedfile.go:39-45 | assembling two runs of chunks is assembling each and joining the results |
| ChunkedFiles.ChunkAt | pkg/chunker/chunkedfile.go:41-43 | chunk i occupies the bytes between its offset and the next chunk's offset in the assembled file |
| ChunkedFiles.Clamp | pkg/chunker/chunkedfile.go:79-86 | the chunk size is the drawn size cut down to the bytes left: it is the smaller of the two |
| ChunkedFiles.SplitThenAssemble | pkg/chunker/chunkedfile.go:58-67 | assembling the chunks of a split gives back the file, for every file and every random stream |
| ChunkedFiles.SplitCount | pkg/chunker/chunkedfile.go:58-67 | a split yields no chunks exactly when the file is empty, and never more chunks than bytes |
| ChunkedFiles.SplitBounds | pkg/chunker/chunkedfile.go:63-67 | every chunk is non-empty and at most hi bytes; every chunk but the last is at least lo bytes |
| ChunkedFiles.SplitSizes | pkg/chunker/chunkedfile.go:63-67 | chunk i starts within the file, and its length is the i-th draw clamped to the bytes left after the chunks before it |
| ChunkedFiles.SplitSlices | pkg/chunker/chunkedfile.go:63-77 | chunk i is the slice of the file at its offset, whose length is the i-th draw clamped to the bytes left |
| ChunkedFiles.SplitLengthsSum | pkg/chunker/chunkedfile.go:63-67 | the lengths of the chunks add up to the file's length |
| ChunkedFiles.Concat | pkg/chunker/chunkedfile.go:39-45 | the assembled file is as long as the chunks' lengths added up |
| ChunkedFiles.LongFileHasSeveralChunks | pkg/chunker/chunkedfile.go:63-67 | a file longer than the largest chunk size is cut into at least two chunks |
| ChunkedFiles.NewChunkAt | pkg/chunker/chunkedfile.go:74-77 | the chunk holds exactly the size bytes of the file from the offset |
| ChunkedFiles.NextChunkSize | pkg/chunker/chunkedfile.go:79-86 | the size is the sizer's draw clamped to the bytes left, so it never runs past the file |
| ChunkedFiles.SplitFromStep | pkg/chunker/chunkedfile.go:63-67 | one loop turn cuts a non-empty next chunk that ends within the file, and what is left to cut is the split from the new offset with the next draw |
| ChunkedFiles.SplitFromIsSplitFile | pkg/chunker/chunkedfile.go:58-67 | the loop's split from an offset cuts exactly what a split of the rest of the file cuts |
| ChunkedFiles.SplitLoop | pkg/chunker/chunkedfile.go:58-67 | the loop's chunks are the specified split of the file at the sizer's position; the source advances once per chunk |
| ChunkedFiles.AssembleLoop | pkg/chunker/chunkedfile.go:39-45 | the assembled bytes are the chunks' bytes in order, and their length is the summed chunk length |
| ChunkedFiles.ChunkedFile.FromFile | pkg/chunker/chunkedfile.go:16-18 | a new object holds the file, with no chunks and an empty checksum |
| ChunkedFiles.ChunkedFile.FromChunks | pkg/chunker/chunkedfile.go:21-23 | a new object holds the chunks and the checksum given, with no file |
| ChunkedFiles.ChunkedFile.FromParts | pkg/filecache/filecache.go:65-65 | a new object holds the chunks given, with no file and an empty checksum |
| ChunkedFiles.ChunkedFile.Checksum | pkg/chunker/chunkedfile.go:26-28 | returns the checksum the object holds: the one it was built with, empty for a file not yet split, or the digest once a split sets it |
| ChunkedFiles.ChunkedFile.Split | pkg/chunker/chunkedfile.go:58-72 | the chunks are the split of the file, the checksum is the digest of the whole file, and the file is kept |
| ChunkedFiles.ChunkedFile.Chunks | pkg/chunker/chunkedfile.go:31-36 | splits only when there are no chunks yet, and otherwise leaves chunks and checksum unchanged; no chunks means an empty file |
| ChunkedFiles.ChunkedFile.AssembleAsWritten | pkg/chunker/chunkedfile.go:39-45 | as written: with chunks it returns their bytes; without chunks it returns no bytes, whatever the file was |
| ChunkedFiles.ChunkedFile.Assemble | pkg/chunker/chunkedfile.go:39-45 | corrected: with chunks it returns their bytes; without chunks it returns the file and sets its checksum |
| ChunkedFiles.ChunkedFile.Validate | pkg/chunker/chunkedfile.go:48-54 | succeeds exactly when the file's digest equals the checksum held; on failure it reports both |
| ChunkedFiles.ChunkedFile.File | pkg/filecache/filecache.go:65-71 | the file is the chunks assembled in order |
| ChunkedFiles.ChunkedFile.ValidateAgainst | pkg/filecache/filecache.go:65-69 | succeeds exactly when the digest of the assembled chunks is the expected checksum; on failure it reports both |
| ChunkedFiles.SplitThenRebuild | pkg/chunker/chunkedfile.go:21-72 | chunks taken from one object and rebuilt in another give back the file, and validate against the first object's checksum |
| ChunkedFiles.AssembleOfUnsplitFile | pkg/chunker/chunkedfile.go:39-45 | the as-written Assemble of a fresh one-byte file returns no bytes; the corrected Assemble returns the byte |
| Chunker.Chunked.Checksum | pkg/chunker/chunker.go:30-32 | returns the checksum field: together with the chunks it makes up the value |
| Chunker.Chunked.Chunks | pkg/chunker/chunker.go:35-37 | returns the chunks field: together with the checksum it makes up the value |
| Chunker.Split | pkg/chunker/chunker.go:41-58 | the chunks are the specified split, whose lengths add up to the input's length; the checksum is the digest of the whole input |
| Chunker.Assemble | pkg/chunker/chunker.go:61-67 | the result is the chunks' bytes in order; no chunks give no bytes |
| Chunker.SplitThenAssembleFile | pkg/chunker/chunker.go:41-67 | assembling the split of a file gives back the file |
| Memcache.Backend.Set | pkg/filecache/memcachedclient.go:6-6 | succeeds exactly when the key is reachable and the item fits; only then is the item stored and the write logged |
| Memcache.Backend.Get | pkg/filecache/memcachedclient.go:8-8 | returns the stored item exactly when the key is readable; otherwise a miss or a server error |
| Memcache.Backend.Delete | pkg/filecache/filecache.go:46-46 | succeeds exactly when the item was readable and the key can be deleted; then the item is removed and the removal logged, otherwise nothing changes |
| Manifest.Digit | pkg/filecache/filecache.go:128 | a single decimal digit |
| Manifest.Decimal | pkg/filecache/filecache.go:128 | `%d` of a count: a non-empty run of digits |
| Manifest.DecimalRoundTrip | pkg/filecache/filecache.go:128 | reading back the decimal text of a number gives the number |
| Manifest.DecimalInjective | pkg/filecache/filecache.go:128 | two numbers have the same decimal text exactly when they are equal |
| Manifest.ChunkKeys | pkg/filecache/filecache.go:125-130 | key i of a file with n chunks is `<checksum>-part-i-of-n` |
| Manifest.ChunkKeyIndex | pkg/filecache/filecache.go:128-128 | two chunk keys of one file with the same total are equal only when their indices are |
| Manifest.ChunkKeyExtendsChecksum | pkg/filecache/filecache.go:128-128 | a chunk key begins with its file's checksum and is strictly longer |
| Manifest.ChunkKeyFacts | pkg/filecache/filecache.go:128 | two chunk keys of one file are equal exactly when their indices are; a chunk key is never the checksum; a comma-free checksum gives comma-free keys |
| Manifest.ChunkKeysAreFields | pkg/filecache/filecache.go:128-134 | the chunk keys of a comma-free checksum can be listed in a manifest |
| Manifest.Join | pkg/filecache/filecache.go:131-134 | no keys give the empty manifest; a manifest begins with its first key and is at least as long as any key |
| Manifest.SplitOn | pkg/filecache/filecache.go:103 | `strings.Split` on a comma always yields at least one field |
| Manifest.ParseManifest | pkg/filecache/filecache.go:101-105 | a manifest reads back as no keys exactly when it is empty |
| Manifest.SplitOnField | pkg/filecache/filecache.go:103 | text without a comma splits into itself |
| Manifest.SplitOnFirstField | pkg/filecache/filecache.go:103 | splitting after a comma-free first field gives that field followed by the split of the rest |
| Manifest.SplitOfJoin | pkg/filecache/filecache.go:101-134 | splitting comma-joined, comma-free keys gives the keys back |
| Manifest.JoinOfSplit | pkg/filecache/filecache.go:101-134 | joining the fields of a split with commas gives back the text |
| Manifest.JoinNonEmpty | pkg/filecache/filecache.go:134 | a manifest whose first key is non-empty is not empty |
| Manifest.ParseOfJoin | pkg/filecache/filecache.go:101-134 | a written manifest reads back as exactly the keys written, including the empty list |
| Manifest.JoinOfParse | pkg/filecache/filecache.go:101-134 | any stored manifest is the join of the keys read from it |
| Manifest.TerminatedAppend | pkg/filecache/filecache.go:131-132 | writing one more key and a comma appends them to the builder |
| Manifest.TrimSuffix | pkg/filecache/filecache.go:134 | `strings.TrimSuffix` removes the suffix when present and otherwise changes nothing |
| Manifest.TrimmedIsJoin | pkg/filecache/filecache.go:131-134 | trimming the last comma from the builder gives the comma join of the keys |
| Manifest.TerminatedIsJoinComma | pkg/filecache/filecache.go:131-134 | a non-empty builder is the comma join followed by one comma |
| FileCaches.CheckFileSize | pkg/filecache/filecache.go:137-143 | fails exactly when the file exceeds 52428800 bytes, and reports the size and the excess |
| FileCaches.Written | pkg/filecache/filecache.go:84-92 | the items written are the chunk bytes under the keys written |
| FileCaches.ChunksIn | pkg/filecache/filecache.go:109-119 | the chunks fetched are the items under the keys, in order |
| FileCaches.PutStoresFile | pkg/filecache/filecache.go:42-49 | after the manifest and every chunk are written, the file is stored under its checksum, whatever else the store held |
| FileCaches.WrittenIsChunkItems | pkg/filecache/filecache.go:84-92 | writing every chunk of the map writes exactly chunk i under key i and nothing else |
| FileCaches.ChunkWrittenStep | pkg/filecache/filecache.go:86-90 | one more chunk written adds its item to the store and one store to the log, keeping the written keys distinct |
| FileCaches.WrittenKeysBounded | pkg/filecache/filecache.go:84-92 | the chunks written are at most the chunk count, all of them when every key is written, and fewer otherwise |
| FileCaches.AcceptedByIndex | pkg/filecache/filecache.go:84-92 | writing the chunks of the key-to-chunk map is accepted for every key exactly when chunk i is accepted under key i for every i, so the map's iteration order does not decide success |
| FileCaches.WrittenKeptOrWritten | pkg/filecache/filecache.go:84-92 | after the manifest is set and some chunks are written, each chunk key holds its own chunk's bytes or the item it held before |
| FileCaches.RolledBackLeavesOwnChunks | pkg/filecache/filecache.go:45-48 | after a rolled-back Put, a chunk key that was empty before and holds an item now holds exactly its own chunk's bytes |
| FileCaches.RollbackOutcome | pkg/filecache/filecache.go:45-48 | the Delete after a chunk failure leaves everything outside the file's keys as it was, and each chunk key holding its own chunk or its old item; the manifest stays readable exactly when it cannot be deleted; the log holds the manifest first and ends with the Delete exactly when it succeeded |
| FileCaches.ChunkKeysListable | pkg/filecache/filecache.go:128-134 | a file's chunk keys are valid manifest entries and never its checksum |
| FileCaches.ChunkKeysDistinct | pkg/filecache/filecache.go:126-129 | no two chunk keys of a file collide, so the map keeps every chunk |
| FileCaches.KeyChunks | pkg/filecache/filecache.go:122-135 | the manifest is the comma join of the chunk keys, and key i maps to chunk i and to nothing else |
| FileCaches.IndexByKey | pkg/filecache/filecache.go:127-134 | for distinct keys, key i maps to chunk i, the map holds no other key, and the builder trims to the comma join |
| FileCaches.FileCache.constructor | pkg/filecache/filecache.go:21-26 | the cache uses the backend and checksum function given, and is valid since checksums have no comma |
| FileCaches.FileCache.Exists | pkg/filecache/filecache.go:145-151 | true exactly when a Get of the key returns an item |
| FileCaches.FileCache.GetChunksByKey | pkg/filecache/filecache.go:122-135 | splits an unsplit file (which sets its checksum); the manifest lists `<checksum>-part-i-of-n` for every chunk, and the map sends each key to its chunk |
| FileCaches.FileCache.PutFileKeys | pkg/filecache/filecache.go:75-81 | succeeds exactly when the backend accepts the manifest, which is then stored under the file's key; on failure nothing changes |
| FileCaches.FileCache.PutFileChunks | pkg/filecache/filecache.go:84-92 | succeeds exactly when the backend accepts every chunk, and then all are stored; on failure only some were; the store gains exactly the chunks written, and the log gains one store per chunk written, each key once |
| FileCaches.FileCache.WriteFileParts | pkg/filecache/filecache.go:42-49 | manifest first, then chunks: it succeeds exactly when the backend accepts the manifest and every chunk, and fails on the manifest exactly when the manifest is refused; a manifest failure changes nothing; success stores exactly the manifest and the chunk items and leaves the file stored; a chunk failure is rolled back as far as the Delete succeeds, leaving each chunk key with its own chunk's bytes or its old item |
| FileCaches.FileCache.GetFileChunksKeys | pkg/filecache/filecache.go:95-106 | succeeds exactly when the manifest can be read, and returns the keys it lists |
| FileCaches.FileCache.GetFileChunks | pkg/filecache/filecache.go:109-119 | succeeds exactly when every key can be read, and returns their items in order |
| FileCaches.FileCache.PutProbing | pkg/filecache/filecache.go:29-50 | the Put pipeline for a given existence probe: an oversized file changes nothing; a readable probe is returned with nothing changed; otherwise it succeeds exactly when the backend accepts the manifest and every chunk, success stores exactly the manifest and the chunks, and a failure changes nothing outside the file's keys, leaves each chunk key with its own chunk's bytes or its old item, and leaves the manifest readable only when its Delete failed |
| FileCaches.FileCache.Put | pkg/filecache/filecache.go:29-50 | corrected: an oversized file changes nothing; a file whose manifest can be read is not written again; success means a manifest can be read under the file's digest, and the file itself is stored when this Put wrote it, which it does and succeeds exactly when the backend accepts the manifest and every chunk; after a failure the manifest cannot be read, unless its rollback Delete failed and it still lists the chunk keys, and the chunks written before a chunk failure are left behind under their own keys |
| FileCaches.FileCache.PutAsWritten | pkg/filecache/filecache.go:29-50 | as written: when the empty key can be read, Put returns the empty key and changes nothing; otherwise it writes the file as the corrected Put writes a new one, succeeding exactly when the backend accepts the manifest and every chunk, and leaving each chunk key with its own chunk's bytes or its old item after a chunk failure, even when the file is already stored |
| FileCaches.FileCache.Get | pkg/filecache/filecache.go:53-72 | a missing manifest or chunk is an error; a result is always a stored file with the requested checksum; a stored file is returned whole, and one whose digest differs is rejected |
| FileCaches.PutThenGet | pkg/filecache/filecache.go:29-72 | a file put under a new checksum comes back whole from Get; on a backend that reaches every key and takes items as large as the largest chunk and the manifest, a Put of a file not yet stored returns its digest and Get returns the file |
| FileCaches.PutTwice | pkg/filecache/filecache.go:29-50 | after a successful Put, putting the same file again returns the same checksum and writes nothing |
| FileCaches.EmptyKeyShortCircuitsPut | pkg/filecache/filecache.go:34-38 | on a backend holding the empty key, the as-written Put of a one-byte file returns the empty key and stores nothing; the corrected Put that follows it returns the file's digest |
| FileCaches.OneBytePut | pkg/filecache/filecache.go:120-134 | a one-byte file is one chunk no larger than the largest chunk size, with one chunk key, which is the whole manifest and parses back to itself |
| FileCaches.StaleManifestAnswersPut | pkg/filecache/filecache.go:29-50 | with an unreachable chunk key and an undeletable manifest, a first Put fails on the chunk and leaves its manifest, a second Put of the same file returns the digest without writing, and Get of that digest fails on the missing chunk: success of Put does not mean the file is stored |
| FileCaches.StoredFileIsRewritten | pkg/filecache/filecache.go:34-45 | as written, putting a file that is already stored writes again or fails while writing |

## Left out

- The uniform sizer (`chunksizer.go:125-141`) is not part of this model. It draws a
  float from a gonum distribution and truncates it.
- ChunkSizers.SkewedChunkSizer.NextChunkSize: the float comparison `skew > 20/80` is
  an oracle boolean, so the 75%/25% split between the ranges is not modelled.
- ChunkSizers.CumulativeChunkSizer.NextChunkSize: the float draw and the running
  float sum are replaced by an integer index `pick`. A pick past the table stands
  for the float rounding that can reach the fallback range.
- RandSizer.RandSource.Intn: Go's uniform draw is modelled as the stream value
  modulo `n`. Distribution and bias are not modelled.
- Seeding the random sources from the clock is left out. The oracle stream is
  universally quantified.
- MD5 and its `%x` hexadecimal rendering are a digest parameter. Only "no comma in
  the output" is assumed. Collision resistance is not modelled, so a result of Get
  is a file with the requested digest, not necessarily the file first put.
- Concurrent clients are not modelled. Each Put and Get runs against a backend that
  only its own calls change, and `PutThenGet` and `PutTwice` hold only under that
  assumption. Because split sizes are random (`chunkedfile.go:63-67`, `rand.go:27-28`),
  two interleaved first Puts of one file that cut the same number of chunks write the
  same `<md5>-part-i-of-n` keys (`filecache.go:128`) with different bytes. A later Get
  can then read chunks from both splits and fail validation.
- FileCaches.FileCache.PutFileChunks: Go's map iteration order is a
  nondeterministic choice, so which chunks are written before a failure is left
  open.
- Go slices alias the file's backing array. Chunks are modelled as values.
- Error wording, `errors.Wrap` and `log.Println` are left out. Errors are the
  `Failure` and `BackendError` constructors.
- The result of the rollback `Delete` is only logged by the code. The model keeps
  its effect on the store and drops the log line.
- Memcached key-length and key-character rules, expiry, eviction and the network
  protocol are left out. The backend fails only for unreachable keys, for items
  above its size limit, and for Deletes of keys it cannot delete.
- `main.go`, `cmd/main.go` and `memcached/test.go` are not part of this model.
  The client interface (`pkg/filecache/memcachedclient.go:5-9`) declares only
  `Set` and `Get`, yet `Put` calls `Delete`; the model's backend has all three.
- `chunk.go` and `chunker.go` both declare `Chunk` and `Bytes` in the same
  package. The model has one `Chunk`.

## Findings

| source | as written | input that shows it | evidently intended | confidence | as-written member | corrected member |
|---|---|---|---|---|---|---|
| pkg/filecache/filecache.go:34-38 | the existence check probes `chunkedFile.Checksum()` before the file is split, which is still the empty string | any Put when the backend holds an item under the empty key: it returns "" and stores nothing; otherwise a file already stored is written again | probe the file's own checksum, so a stored file is not written again | not executed | FileCaches.FileCache.PutAsWritten (exhibits: FileCaches.EmptyKeyShortCircuitsPut, FileCaches.StoredFileIsRewritten) | FileCaches.FileCache.Put (with FileCaches.PutTwice) |
| pkg/chunker/chunkedfile.go:39-45 | `Assemble` clears `file` before `Chunks()` splits it | `NewFromFile([7]).Assemble()` returns no bytes | split the file first, then assemble its chunks | not executed | ChunkedFiles.ChunkedFile.AssembleAsWritten (exhibit: ChunkedFiles.AssembleOfUnsplitFile) | ChunkedFiles.ChunkedFile.Assemble |
| pkg/chunker/chunksizer.go:120-122 | `randomInRange` returns `Intn(max-min+1)` without adding `min` | the skewed sizer with a draw of 0 returns size 0, below the 96-byte minimum | `min + Intn(max-min+1)`, in [min, max] | not executed | ChunkSizers.InRange (exhibit: ChunkSizers.InRangeDropsMinimum) | ChunkSizers.InRangeFixed (with ChunkSizers.SizerRangesWithinBounds) |
