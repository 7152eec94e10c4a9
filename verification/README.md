# bupstash client data path, modelled in Dafny

This project models the part of bupstash that turns a stream of bytes into
encrypted, deduplicated chunks and a hash tree, and reads them back:

- **`RollsumChunker`** (`Chunker`) cuts content-defined chunks between
  `min_sz` and `max_sz`. It uses the rolling checksum's split signal and a
  fast path far below `min_sz`.
- **The hash tree.**
  - `TreeWriter` (`TreeWriter`) collects addresses level by level. It closes
    a level into a block when the level's rollsum splits or the next address
    would overflow `max_addr_chunk_size`, and `finish` reports the root and
    its height.
  - `TreeReader` (`TreeReader`) walks a tree depth first from a stack of
    blocks.
  - `HTree` holds the shared vocabulary: the `HashMap` sink and source, and a
    recursive reference walk against which the writer and the reader are
    both proved (`TreeRoundTrip`).
- **Chunk encryption.**
  - `Framing`: the one-byte compression footer and the little-endian u32
    size of zstd chunks.
  - `Box`: the length guards of `box_encrypt`/`box_decrypt` and the nonce
    counter.
  - `Crypto`: `EncryptionContext`/`DecryptionContext`, including the
    decrypting side's cache of the last ephemeral key.
- **The client streams.**
  - `ConnectionHtreeSink::add_chunk` (`ClientSink`): send-log
    deduplication and checkpoints.
  - `receive_htree` (`ClientReceive`): integrity checks on every packet.
  - `receive_partial_htree` (`ClientPartial`): the pick map filter of
    height-1 blocks, the queue of wanted chunk indices, byte-range slices,
    and the sub-tarball trailer.
  - The tar padding and chunk-index rebasing of `send_dir` (`SendDir`),
    for directories sent afresh and replayed from the stat cache.

libsodium, zstd and the keyed hashes are parameters. They are
function-valued fields of `Box.Sodium`, `Framing.ZstdBlock` and
`ClientReceive.Env`. Their required behaviour is stated as predicates in
`requires` clauses: `SodiumAxioms` (the box opens what it sealed) and
`ZstdRoundTrips`. The rolling checksum is an oracle over the bytes rolled
since its last reset (`Rollsum.Oracle`). A server is a sequence of incoming
packets. Errors that the source returns, bails with or panics with are
`Err` values of `Wrappers.Result`.

## Model

| member | source | states |
|---|---|---|
| Chunker.New | src/chunker.rs:12-28 | A `min_sz` of 0 becomes 1, and a `max_sz` below `min_sz` becomes `min_sz`. Otherwise both are kept. The buffer starts empty and the rollsum reset. |
| Chunker.AddBytes | src/chunker.rs:40-84 | Only `input[..n]` is taken, and never past `max_sz`. The emitted chunk and the new buffer are exactly the old buffer plus those bytes. A chunk lies between `min_sz` and `max_sz`. Without a cut everything that fits is taken. Far below `min_sz` the bytes are buffered without touching the rollsum; otherwise every byte taken is rolled. A cut happens exactly after the first byte at which the buffer passes `min_sz` on a rollsum split or reaches `max_sz`, and no earlier byte taken meets that condition. |
| Chunker.Scan | src/chunker.rs:73-83 | The byte loop: every byte it takes is rolled, in order, and bytes are conserved. For every prefix length up to what it took, the cut condition (a split with the buffer past `min_sz`, or the buffer at `max_sz`) holds exactly at the last byte and only when it cuts. It consumes all its input when it does not cut. |
| Chunker.ForceSplit | src/chunker.rs:90-98 | Returns `None` exactly when nothing is buffered, and otherwise exactly the buffered bytes. It leaves the chunker empty with the rollsum reset. |
| Chunker.FeedConserves | src/chunker.rs:40-84 | Feeding a whole input through repeated `add_bytes` calls loses and reorders nothing. The concatenated chunks followed by the final buffer equal the old buffer followed by the input. |
| Chunker.FeedChunkBounds | src/chunker.rs:77-80 | Every chunk cut while feeding a whole input lies between `min_sz` and `max_sz`. |
| Chunker.NoCutBelowMin | src/chunker.rs:66-83 | While the buffer cannot pass `min_sz` or reach `max_sz`, `add_bytes` takes all of its input and cuts nothing, whatever the rollsum says. |
| Chunker.AddBytesTest | src/chunker.rs:109-130 | The `test_add_bytes` sequence gives (1, None), (1, "ab"), (1, None) and then "c" for any rollsum. |
| Chunker.ForceSplitTest | src/chunker.rs:132-147 | The `test_force_split_bytes` sequence gives None, then "abc", then None, then "def" for any rollsum. |
| Bytes.Le32RoundTrip | src/crypto.rs:234-238 | The four size bytes written for a zstd chunk decode back to the size, for every size below 2^32. |
| Bytes.Le32DecodeRoundTrip | src/crypto.rs:259-263 | Any four bytes are the encoding of the size decoded from them. |
| Box.ComputeKeyAgrees | src/crypto.rs:122-178 | Under the key-agreement axiom, the sender (ephemeral secret, recipient public) and the recipient (own secret, ephemeral public) derive the same box key for a pre-shared key. |
| Box.Increment | src/crypto.rs:55-57 | `sodium_increment` on the little-endian nonce adds one, wrapping to zero past the largest value, and keeps the length. |
| Box.IncrementMod | src/crypto.rs:55-57 | The nonce increment is addition of one modulo 256^length. |
| Box.NextNonce | src/crypto.rs:55-57 | `BoxNonce::inc` advances the nonce as a little-endian counter. |
| Box.BoxEncrypt | src/crypto.rs:180-199 | Panics (`None`) exactly when the output length differs from plaintext plus nonce plus MAC. Otherwise the output starts with the nonce and the nonce is advanced. |
| Box.BoxDecrypt | src/crypto.rs:201-223 | Fails on input shorter than nonce plus MAC and on a plaintext buffer of the wrong size. Whenever neither guard fires, the result is exactly the box after the leading nonce, opened with that nonce and the key. |
| Box.BoxRoundTrip | src/crypto.rs:180-223 | What `box_encrypt` writes, `box_decrypt` opens with the same key into a buffer of the plaintext's size, giving the plaintext back. |
| Box.BoxRoundTripTest | src/crypto.rs:518-533 | The `box_round_trip` test: the 3-byte plaintext comes back. |
| Box.IncrementTimes | src/crypto.rs:55-57 | Incrementing `k` times without wrapping adds `k` to the nonce's little-endian value. |
| Box.NonceIncTest | src/crypto.rs:552-571 | From the zero nonce, 255 increments give first byte 255 and all others 0. |
| Box.NonceCarryTest | src/crypto.rs:552-571 | The 256th increment carries: the first byte is 0 and the second is 1. |
| Box.NonceWrapTest | src/crypto.rs:552-571 | Incrementing the all-255 nonce wraps it to all zeros. |
| Framing.ZstdCompressChunk | src/crypto.rs:225-242 | The output never exceeds the input plus one byte. It is either the raw data plus footer 0, or the zstd block plus the input length as a little-endian u32 plus footer 1. Footer 1 is chosen exactly when the block plus its four size bytes is shorter than the input. |
| Framing.FrameChunk | src/crypto.rs:298-304 | The framing `encrypt_data` applies: without compression the data plus footer 0, with zstd exactly the `zstd_compress_chunk` output. |
| Framing.DecompressChunk | src/crypto.rs:244-271 | Each failure corresponds to its input: empty data is "missing footer", an unknown last byte is "unknown footer", and a zstd footer with fewer than four size bytes is "missing decompressed size". Footer 0 gives the data without its footer. Footer 1 decompresses to the recorded size. |
| Framing.FrameRoundTrip | src/crypto.rs:225-271 | For either compression setting, decompressing the framed chunk gives back the data, given a zstd block codec that round-trips. |
| Framing.DecodeErrors | src/crypto.rs:244-268 | Concrete inputs reach each of the three decode errors. |
| Crypto.NewEncryptionContext | src/crypto.rs:286-295 | The context keeps the given nonce and the ephemeral public key, and its box key is the one derived from the recipient's key, the ephemeral secret key and the pre-shared key. |
| Crypto.EncryptData | src/crypto.rs:297-318 | The ciphertext is the context's nonce, then the framed chunk sealed under that nonce and the context's box key, then the ephemeral public key. Its length is the framed length plus the overhead. The nonce advances. |
| Crypto.NewDecryptionContext | src/crypto.rs:328-339 | The context keeps the secret and pre-shared keys and caches the all-zero public key with the all-zero box key. |
| Crypto.NewDecryptionContextCoherent | src/crypto.rs:328-339 | A fresh context starts coherent. Its cached zero key is the one the all-zero public key gives, since libsodium refuses that key. |
| Crypto.RefreshKey | src/crypto.rs:346-355 | The key-refresh loop: the cache is untouched when the ciphertext's public key matches. Otherwise the key is recomputed for the new public key. In both cases the cached key still matches the cached public key. |
| Crypto.DecryptData | src/crypto.rs:341-372 | Ciphertexts shorter than the overhead fail as "too small" and leave the cache alone. The cache then holds the ciphertext's public key. With a coherent cache the result equals decrypting under the freshly derived key, so the cache never changes the outcome. |
| Crypto.EncryptThenDecrypt | src/crypto.rs:297-372 | What an encryption context for a recipient produces, the recipient's decryption context decrypts back to the plaintext, whichever compression was used. |
| Crypto.DataRoundTripTest | src/crypto.rs:535-550 | The `data_round_trip` test: two contexts, one raw and one zstd chunk, both decrypted in turn by one fresh decryption context. |
| Crypto.DecryptErrors | src/crypto.rs:361-367 | A ciphertext whose box does not open is reported as "data corrupt". |
| HTree.GetChunk | src/htree.rs:34-41 | The `HashMap` source returns the stored chunk exactly when the address is present, and otherwise `DataMissing`. |
| HTree.StoreKeys | src/htree.rs:27-31 | The `HashMap` sink holds exactly the addresses that were written. |
| HTree.StoreHoldsAll | src/htree.rs:27-31 | When no address is written with two different contents, the `HashMap` sink holds every write. |
| HTree.StoreSize | src/htree.rs:27-31 | Writes to pairwise distinct addresses leave that many entries in the `HashMap`. |
| TreeWriter.New | src/htree.rs:59-68 | A new writer has no levels, no data chunks and the given maximum block size. |
| TreeWriter.Append | src/htree.rs:83-107 | Appending to a level creates it if missing, adds the address to that level only, counts data chunks at level 0, and rolls the address into the level's rollsum. |
| TreeWriter.AddAddr | src/htree.rs:83-118 | The address goes onto its level and is rolled into the level's rollsum. The level is flushed exactly when it then holds at least two addresses and either its rollsum split or one more address would overflow the maximum block size. A flush writes the level as one block first, empties the level and resets its rollsum; otherwise nothing is written. Levels keep room for one more address, lower levels are untouched, data chunks are counted at level 0, and every block written is whole addresses between two addresses and the maximum block size. |
| TreeWriter.ClearLevel | src/htree.rs:70-81 | An empty level writes nothing. A non-empty one is written first as one block of its addresses. The level is emptied and its rollsum reset. The block's address is then added one level up, with the outcome `add_addr` states there. Lower levels and the data chunk count are untouched. |
| TreeWriter.Add | src/htree.rs:120-129 | The data chunk is written first, then its address is added at level 0. The writer stays well formed and counts one more data chunk. |
| TreeWriter.FinishLevel | src/htree.rs:135-153 | A top level holding a single address is the root at that height with nothing written. Otherwise levels are closed upward, and every block written is whole addresses. |
| TreeWriter.Finish | src/htree.rs:155-164 | A writer with one data chunk and nothing else reports that chunk as a root of height 0. Every block written is whole addresses. |
| TreeReader.New | src/htree.rs:174-186 | A reader starts with one frame holding the root address at the given height. |
| TreeReader.PushLevel | src/htree.rs:194-199 | Pushing puts the block on top at the given height and leaves the frames below unchanged. |
| TreeReader.Pop | src/htree.rs:188-192 | Pop removes the top frame. |
| TreeReader.NextAddr | src/htree.rs:201-227 | `next_addr` returns nothing exactly when every frame is exhausted, and its only error is `CorruptOrTamperedDataError`. |
| TreeReader.NextAddrSpec | src/htree.rs:201-227 | After the exhausted blocks on top are popped, a top block holding less than a whole address is `CorruptOrTamperedDataError`. Otherwise the result is the next 32 bytes of the top block, at its height, and the top block's offset advances by one address. |
| TreeReader.NextAddrRef | src/htree.rs:201-229 | One `next_addr` step agrees with the reference walk: the remaining walk is the returned address's subtree followed by the rest of the reader. |
| TreeReader.NextAddrWork | src/htree.rs:201-229 | Each address returned takes exactly its subtree's share of the remaining work. This is why the read loop terminates. |
| TreeReader.WalkIsReference | src/htree.rs:201-229 | The reader's walk driven by the store is the reference walk of its frames. |
| TreeReader.WalkFromRoot | src/htree.rs:174-229 | Walking from a new reader is the reference walk of the root at its height. |
| TreeRoundTrip.AddAddrLeaves | src/htree.rs:83-118 | `add_addr` adds the new address's leaves to the end of what the writer's pending levels walk to. |
| TreeRoundTrip.ClearLevelLeaves | src/htree.rs:70-81 | Closing a level into a block does not change the leaves its pending levels walk to. |
| TreeRoundTrip.FinishLevelLeaves | src/htree.rs:135-153 | The root `finish_level` reports walks to the same leaves as the writer's pending levels. |
| TreeRoundTrip.AddLeaves | src/htree.rs:120-129 | `add` appends the data chunk's address to the leaves. |
| TreeRoundTrip.AddAllLeaves | src/htree.rs:120-129 | Adding a sequence of chunks appends their addresses, in order, to the leaves. |
| TreeRoundTrip.WriteThenRead | src/htree.rs:59-229 | The htree round trip: reading the finished tree from its root through `TreeReader` visits exactly the added addresses as leaves, in order. This holds for any store holding what was written. |
| TreeRoundTrip.WriteThenReadHashMap | src/htree.rs:27-42 | The same round trip through the `HashMap` sink and source, when no address was written with two contents. |
| TreeTests.AddAddrQuiet | src/htree.rs:83-118 | A first address on an empty or new level writes nothing. |
| TreeTests.AddAddrCloses | src/htree.rs:108-115 | A second address closes the level when the block would overflow or the rollsum splits. |
| TreeTests.TwoChunks | src/htree.rs:83-164 | Two chunks, with the level closing at two addresses, give a height-1 root: the block of both addresses, written after the two chunks. |
| TreeTests.ThreeChunks | src/htree.rs:83-164 | Three chunks give a height-2 root and exactly six writes, in the order the writer performs them. |
| TreeTests.WriteNoLevel | src/htree.rs:234-248 | `test_write_no_level`: one chunk is its own root at height 0 and the only write. |
| TreeTests.WriteShapeSingleLevel | src/htree.rs:249-270 | `test_write_shape_single_level`: three writes, the last being a root block of two addresses. Under content addressing the `HashMap` holds three chunks. |
| TreeTests.WriteShapeSingleLevelContentSplit | src/htree.rs:300-321 | The same shape and the same three `HashMap` entries with the sensible block size and a rollsum that always splits. |
| TreeTests.WriteShapeTwoLevels | src/htree.rs:271-299 | `test_write_shape_two_levels`: six writes, the last being a root block of two addresses. Under content addressing the `HashMap` holds six chunks. |
| TreeTests.WriteShapeTwoLevelsContentSplit | src/htree.rs:322-350 | The same shape and the same six `HashMap` entries with the sensible block size and a rollsum that always splits. |
| TreeTests.TreeReaderWalk | src/htree.rs:351-408 | `test_tree_reader_walk`: reading the three-chunk tree visits six addresses, three of them leaves. |
| ClientSink.AddChunk | src/client.rs:82-127 | Without a send log every chunk is written. With one, a chunk is written exactly when its address is not known. The address is recorded either way, and only written bytes count as dirty. At the threshold a `TSendSync` follows: a missing reply is an error, a reply other than `RSendSync` is a protocol error, and on success the counter restarts and a checkpoint is taken. |
| ClientSink.AddChunksCovers | src/client.rs:82-127 | Over a sequence of chunks with every sync answered: the send succeeds and every address becomes known. Each chunk was either known before or written in this send, and nothing known before is written. |
| ClientSink.FirstSent | src/client.rs:89-101 | A single chunk is written exactly when its address is not yet known. |
| ClientReceive.ReceiveHtree | src/client.rs:887-921 | Output is only ever appended to, and the decryption context keeps its keys and stays coherent. |
| ClientReceive.ReceiveHonest | src/client.rs:887-921 | Against an honest server, `receive_htree` succeeds and writes the plaintexts of the leaves of the walk, in walk order. |
| ClientReceive.ReceiveDetectsTampering | src/client.rs:894-915 | If the server answers honestly up to some visit and then sends a wrong packet, the receive fails with `CorruptOrTamperedDataError`. A wrong packet has a wrong address, a leaf that does not hash to it, or a block that does not hash to it. |
| ClientReceive.ReceiveRejectStep | src/client.rs:895-898 | A chunk packet whose address differs from the one asked for is rejected as tampered. |
| SendDir.TarPadding | src/client.rs:650-662 | The padding is below 512 and brings the entry to a 512-byte boundary. It is zero exactly when the file is already a whole number of blocks. |
| SendDir.PaddingRoundsUp | src/client.rs:650-662 | File plus padding is the file length rounded up to whole 512-byte blocks. |
| SendDir.PaddingLeast | src/client.rs:650-662 | No shorter padding would reach a block boundary. |
| SendDir.OtherEntry | src/client.rs:598-609 | A non-file entry is its header alone, and its tar size is what is sent. |
| SendDir.FileEntry | src/client.rs:598-667 | A file whose content length differs from its metadata length is `FilesystemModified`. Otherwise the entry is the header, the content, then zeros up to the block boundary, and the tar size is its length. |
| SendDir.FileEntryBlocks | src/client.rs:650-662 | With a whole-block header, a file entry is whole blocks. |
| SendDir.ArchiveBlocks | src/client.rs:749-757 | A tarball of whole-block entries followed by the two zero blocks is whole blocks. |
| SendDir.ConcatBlocks | src/client.rs:650-662 | Entries of whole blocks concatenate to whole blocks. |
| SendDir.Archive | src/client.rs:749-757 | The tarball ends with at least the 1024 zero bytes of two null blocks. |
| SendDir.Relativize | src/client.rs:684-693 | Storing an entry's chunk indices relative to the directory's first data chunk keeps them in stream order. |
| SendDir.Rebase | src/client.rs:704-707 | Adding the directory's first chunk index to the four chunk indices gives indices at or after it, and keeps their order both ways. |
| SendDir.RebaseRelativize | src/client.rs:684-707 | Rebasing a relativized entry gives back the absolute entry. |
| SendDir.RelativizeRebase | src/client.rs:558-566 | Relativizing a rebased cached entry gives back the cached entry. |
| SendDir.RebaseTwice | src/client.rs:558-566 | Rebasing by `a` then `b` is rebasing by `a + b`. |
| SendDir.FreshDir | src/client.rs:588-745 | A fresh directory adds its chunks to the stream and its entries to the index. The record written back holds exactly those chunks and each entry relative to the directory's first chunk. |
| SendDir.Replay | src/client.rs:547-577 | A stat cache hit re-adds the cached chunks and sends the cached index rebased onto the directory's first chunk, after what was sent before. |
| SendDir.CacheHitAsWritten | src/client.rs:544-584 | As written, a hit writes back a record with the cached index and size but no chunk addresses. |
| SendDir.CacheHit | src/client.rs:544-584 | Corrected: a hit replays the record and writes it back unchanged. |
| SendDir.FreshDirSound | src/client.rs:588-745 | Fresh directory entries keep the backup sound. The record is consistent, and each entry spans the same chunks in the stream as its relative form spans in the record. |
| SendDir.ReplaySound | src/client.rs:547-577 | Replaying a consistent record keeps the backup sound, and each replayed entry spans the same chunks as in the record. |
| SendDir.CacheHitSound | src/client.rs:544-584 | With the cached addresses written back, a hit keeps the backup sound and the record consistent, so every later hit replays the same chunks. |
| SendDir.CacheHitAsWrittenRecord | src/client.rs:579-584 | As written, the record a hit writes back is consistent exactly when no entry of the directory reaches into any chunk. |
| SendDir.ThirdBackupLosesData | src/client.rs:449-584 | Finding: one 10-byte file backed up three times. The first two backups are sound, but the third sends no chunk while its index names chunk 0. |
| SendDir.ThirdBackupKeepsData | src/client.rs:449-584 | With the correction, the third backup holds the file's chunk and the entry spans exactly it. |
| SendDir.SendDirs | src/client.rs:449-745 | A backup's directories only append to the chunk stream and write one record each. |
| SendDir.SendDirsSound | src/client.rs:449-745 | Over a whole backup of well-formed directories, every index entry sent names chunks the backup holds, and every record written back is consistent. |
| ClientPartial.FilterBlock | src/client.rs:973-992 | The filter keeps no more bytes than the block has. |
| ClientPartial.Kept | src/client.rs:976-988 | The queued indices lie in the block's index span and are all wanted. |
| ClientPartial.FilterSelects | src/client.rs:973-992 | On well-formed ranges, the filter keeps exactly the wanted children of a block, in order, and queues exactly their indices. The range cursor stays well placed. |
| ClientPartial.InCurrentRange | src/client.rs:978-988 | At a well-placed cursor, an index is wanted exactly when it lies in the current range. This justifies checking only the current range. |
| ClientPartial.NothingSelected | src/client.rs:993-995 | Once the ranges are used up, no later child is wanted. This justifies not descending into blocks above height 1. |
| ClientPartial.Slices | src/client.rs:953-961 | A slice range whose start lies past its clamped end panics. Otherwise the output has the total clamped length. |
| ClientPartial.SlicesWithin | src/client.rs:953-961 | Ranges inside the chunk yield exactly the bytes they name, one after another. |
| ClientPartial.SlicesClamp | src/client.rs:956 | A range from 0 reaching past the end yields the whole plaintext. |
| ClientPartial.LeafOutput | src/client.rs:954-966 | A chunk not listed as incomplete is written whole. An incomplete one is written as its slices. |
| ClientPartial.ReceivePartial | src/client.rs:936-997 | Output is only appended to, and the decryption context keeps its keys and stays coherent. |
| ClientPartial.Trailer | src/client.rs:1001-1005 | A sub-tarball ends with 1024 zero bytes. Otherwise nothing is added. |
| ClientPartial.Finish | src/client.rs:999-1008 | The result is the written output followed by the trailer, and fails exactly when the loop failed. |
| ClientPartial.ReceivePartialHtreeAsWritten | src/client.rs:923-1009 | The output of `receive_partial_htree` as written ends with the trailer. |
| ClientPartial.ReceivePartialHtree | src/client.rs:923-1009 | The corrected receive's output ends with the trailer. |
| ClientPartial.PartialBlockStep | src/client.rs:968-992 | A checked height-1 block is filtered, the kept children are pushed and their indices queued. |
| ClientPartial.PartialLeafStep | src/client.rs:947-967 | A checked leaf dequeues its index and writes its output, or fails with the slice panic. |
| ClientPartial.LeafRun | src/client.rs:947-967 | A queued run of leaves served honestly is written as the reference output says, in queue order, and empties the queue. |
| ClientPartial.PartialHeightOne | src/client.rs:923-1009 | For a height-1 tree served honestly, both the receive as written and the corrected one write the output of exactly the wanted chunks, in index order, then the trailer. The first slice panic is the result. |
| ClientPartial.RunOutputWhole | src/client.rs:954-966 | With no chunk wanted only in part, the output of a run is the leaves' whole plaintexts, as a full restore would write them. |
| ClientPartial.PartialDone | src/client.rs:936 | A reader with nothing left ends the loop with the state unchanged. |
| ClientPartial.PartialHeightZeroAsWritten | src/client.rs:947-967 | Finding: as written, a partial restore of a height-0 tree writes only the trailer, whatever is wanted. |
| ClientPartial.PartialHeightZeroLosesData | src/client.rs:947-967 | Finding, concretely: chunk 0 is wanted whole, its plaintext is not empty, and nothing is written. |
| ClientPartial.PartialHeightZero | src/client.rs:947-967 | Corrected: a height-0 root is filtered as data chunk 0. Its output is written exactly when chunk 0 is wanted (whole or sliced), then the trailer. |

## Left out

- libsodium, zstd, BLAKE2b keyed hashing and `tree_block_address`: these are foreign code. They are function-valued parameters whose needed behaviour is stated as predicates.
- src/rollsum.rs is not part of this model. A rollsum is an oracle over the bytes rolled since its last reset, and `WINDOW_SIZE` is a symbolic field of the chunker.
- src/sendlog.rs is not part of this model. The send log is a set of known addresses, a list of addresses recorded in this session, and a checkpoint count.
- Packet I/O: `write_packet` cannot fail here. Any failure of `read_packet` is the single error `EndOfStream`, and a packet of the wrong kind is `ProtocolError`.
- `Chunker.AddBytes`: the `Vec` capacity management (lines 51-61 of src/chunker.rs) has no observable effect and is not modelled.
- `debug_assert!(n_written == pick.size)` in `receive_partial_htree`: debug builds only. The index that sets `pick.size` is not part of this model.
- `send_dir`'s filesystem walk, exclusions, `stat`/`open`, smear detection, serde encoding of index entries, the stat-cache key hashing and progress reporting are I/O. `SendDir` models the sizes, padding, chunk-index arithmetic and stat-cache records. A directory's chunk stream and index entries are inputs.
- Index entry end offsets: whether an entry "reaches into" its end chunk is read from `data_chunk_end_offset > 0`. The index format that defines this is not part of this model.
- `TreeTests.WriteShapeSingleLevel` and the other shape tests: the tests count `HashMap` entries, which equal the writes only when block addresses do not collide. The entry counts are stated under `NoCollision`, as the real hash makes them.
- Integer widths: u64 counters and `usize` lengths are unbounded `nat`s. The chunk and block sizes keep them far from overflow. The u32 size written by `zstd_compress_chunk` is bounded by its own `assert!`, which `Framing.ZstdCompressChunk` takes as a precondition.
- `Box.IncrementTimes`: it requires that the nonce does not wrap within the `k` increments. Wrap-around itself is stated by `Box.Increment` and `Box.NonceWrapTest`.
- `ClientPartial.FilterBlock`: its own contract only bounds the kept length. What it keeps is stated by `ClientPartial.FilterSelects` on well-formed ranges, as the index builds them.
- `ClientPartial.PartialHeightOne`: trees above height 1 are proved only through the shared step lemmas. The whole-receive statements cover height 1, as written and corrected, and height 0 (`ClientPartial.PartialHeightZero`, `ClientPartial.PartialHeightZeroAsWritten`).
- The receive-side proofs for partial restores assume an honest server. Tampering is proved for `receive_htree`, whose checks are the same.
- `TreeWriter.Finish`: the `assert!` that at least one chunk was added is a precondition.
- Randomness: the nonce and ephemeral keypair that `EncryptionContext::new` draws are parameters of `Crypto.NewEncryptionContext`.

## Findings

| source | as written | input that shows it | evidently intended | confidence | as-written member | corrected member |
|---|---|---|---|---|---|---|
| src/client.rs:579-583 | A stat cache hit writes back `addresses`, which was cleared at line 455 and is never filled on this path. The record for the next backup therefore has no chunk addresses but keeps the cached index. | A directory holding one 10-byte file, backed up three times with the stat cache on. The second backup is a hit and writes back an empty address list. The third is also a hit: it adds no chunk, yet sends an index entry naming chunk 0. | Write back `cached_addresses`, so that the record's index names the record's own chunks. | medium; not executed | SendDir.ThirdBackupLosesData | SendDir.ThirdBackupKeepsData |
| src/client.rs:947-967 | A leaf is written only if an index can be dequeued from `pending_data_chunks`. Indices are queued only when a height-1 block is filtered, and a height-0 tree (one data chunk, src/htree.rs:139-145) has no such block. | A one-chunk item and a pick map wanting chunk 0 whole: `receive_partial_htree` writes nothing, or only the 1024-byte trailer for a sub-tarball. | Treat the root of a height-0 tree as data chunk 0 and filter it like the only child of a block. | low; not executed; the callers that choose between full and partial restores are not part of this model | ClientPartial.PartialHeightZeroLosesData | ClientPartial.PartialHeightZero |
