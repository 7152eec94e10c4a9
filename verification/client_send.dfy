/** The arithmetic of `send_dir` (src/client.rs) that does not touch the
    filesystem: the 512-byte padding of tar file entries, and the index
    entries whose chunk indices are stored relative to their directory's
    first data chunk and rebased when sent, for directories sent afresh
    and directories replayed from the stat cache. */
module SendDir {
  import opened Wrappers
  import opened Bytes
  import opened HTree

  // ---------------------------------------------------------------------
  // Tar entries

  /** The ustar block size: file data is padded to a whole number of blocks
      (the "ustar Interchange Format" of the `pax` utility, IEEE Std 1003.1). */
  const TAR_BLOCK: nat := 512

  /** The zero bytes that follow a file of `len` bytes. */
  function TarPadding(len: nat): (pad: nat)
    ensures pad < TAR_BLOCK
    ensures (len + pad) % TAR_BLOCK == 0
    ensures pad == 0 <==> len % TAR_BLOCK == 0
  {
    var remaining := TAR_BLOCK - len % TAR_BLOCK;
    if remaining < TAR_BLOCK then remaining else 0
  }

  /** The reference: `len` rounded up to a whole number of blocks. */
  function RoundUp(len: nat): nat
  {
    ((len + TAR_BLOCK - 1) / TAR_BLOCK) * TAR_BLOCK
  }

  /** The padded file is exactly the file rounded up to whole blocks. */
  lemma {:induction false} PaddingRoundsUp(len: nat)
    ensures len + TarPadding(len) == RoundUp(len)
    ensures RoundUp(len) % TAR_BLOCK == 0
  {
    var q := len / TAR_BLOCK;
    var m := len % TAR_BLOCK;
    assert len == q * TAR_BLOCK + m;
    if m == 0 {
      assert (len + TAR_BLOCK - 1) / TAR_BLOCK == q;
    } else {
      assert (len + TAR_BLOCK - 1) / TAR_BLOCK == q + 1;
    }
  }

  /** No shorter padding would reach a block boundary. */
  lemma {:induction false} PaddingLeast(len: nat, p: nat)
    requires p < TarPadding(len)
    ensures (len + p) % TAR_BLOCK != 0
  {
    var m := len % TAR_BLOCK;
    assert len == (len / TAR_BLOCK) * TAR_BLOCK + m;
    assert 0 < m + p < TAR_BLOCK;
  }

  /** `SendDirError`, reduced to the case this arithmetic can raise; the
      filesystem errors are not part of this model. */
  datatype SendDirError = FilesystemModified

  /** The bytes an entry adds to the tarball, and the `tar_size` recorded
      for it in the index. */
  datatype TarEntry = TarEntry(data: bytes, tarSize: nat)

  /** A directory, link or other non-file entry: its header alone. */
  function OtherEntry(header: bytes): (e: TarEntry)
    ensures e.tarSize == |e.data|
  {
    TarEntry(header, |header|)
  }

  /** A regular file entry: the header, the bytes read from the file, and
      the padding; the entry fails if the file's length changed since its
      metadata was read. */
  function FileEntry(header: bytes, content: bytes, metadataLen: nat): (r: Result<TarEntry, SendDirError>)
    ensures r.Err? <==> |content| != metadataLen
    ensures r.Ok? ==> r.value.tarSize == |r.value.data| == |header| + RoundUp(metadataLen)
    ensures r.Ok? ==> r.value.data[..|header|] == header && r.value.data[|header|..|header| + metadataLen] == content
    ensures r.Ok? ==> forall i :: |header| + metadataLen <= i < |r.value.data| ==> r.value.data[i] == 0
  {
    var pad := TarPadding(|content|);
    PaddingRoundsUp(|content|);
    var data := header + content + Zeros(pad);
    assert data[..|header|] == header;
    assert data[|header|..|header| + |content|] == content;
    if |content| != metadataLen then Err(FilesystemModified)
    else Ok(TarEntry(data, |header| + |content| + pad))
  }

  /** The tarball of a sequence of entries, closed by two zero blocks. */
  function Archive(entries: seq<TarEntry>): (b: bytes)
    ensures |b| >= 2 * TAR_BLOCK
  {
    Concat(entries) + Zeros(2 * TAR_BLOCK)
  }

  function Concat(entries: seq<TarEntry>): bytes
  {
    if |entries| == 0 then [] else entries[0].data + Concat(entries[1..])
  }

  predicate WholeBlocks(entries: seq<TarEntry>)
  {
    forall i :: 0 <= i < |entries| ==> |entries[i].data| % TAR_BLOCK == 0
  }

  /** With headers of whole blocks, as ustar headers are, a file entry is
      whole blocks too. */
  lemma {:induction false} FileEntryBlocks(header: bytes, content: bytes, metadataLen: nat)
    requires |header| % TAR_BLOCK == 0 && FileEntry(header, content, metadataLen).Ok?
    ensures |FileEntry(header, content, metadataLen).value.data| % TAR_BLOCK == 0
  {
    PaddingRoundsUp(metadataLen);
  }

  /** A tarball of whole-block entries is whole blocks. */
  lemma {:induction false} ArchiveBlocks(entries: seq<TarEntry>)
    requires WholeBlocks(entries)
    ensures |Archive(entries)| % TAR_BLOCK == 0
  {
    ConcatBlocks(entries);
  }

  lemma {:induction false} ConcatBlocks(entries: seq<TarEntry>)
    requires WholeBlocks(entries)
    ensures |Concat(entries)| % TAR_BLOCK == 0
  {
    if |entries| > 0 {
      assert |entries[0].data| % TAR_BLOCK == 0;
      assert WholeBlocks(entries[1..]) by {
        forall i | 0 <= i < |entries[1..]| ensures |entries[1..][i].data| % TAR_BLOCK == 0 {
          assert entries[1..][i] == entries[i + 1];
        }
      }
      ConcatBlocks(entries[1..]);
    }
  }

  // ---------------------------------------------------------------------
  // Index entries

  /** `index::IndexEntry` without its mode and times: a path, sizes, and the
      position in the data stream (chunk index, offset in the chunker's
      buffer) where the entry, its content and its end lie. */
  datatype IndexEntry = IndexEntry(
    path: string, size: nat, tarSize: nat,
    dataChunkIdx: nat, dataChunkContentIdx: nat, dataChunkContentEndIdx: nat, dataChunkEndIdx: nat,
    dataChunkOffset: nat, dataChunkContentOffset: nat, dataChunkContentEndOffset: nat, dataChunkEndOffset: nat)

  /** The four chunk indices in stream order, as data chunk counts read one
      after another are. */
  predicate Ordered(e: IndexEntry)
  {
    e.dataChunkIdx <= e.dataChunkContentIdx <= e.dataChunkContentEndIdx <= e.dataChunkEndIdx
  }

  /** Every chunk index is at least `base`. */
  predicate AtOrAfter(e: IndexEntry, base: nat)
  {
    base <= e.dataChunkIdx && base <= e.dataChunkContentIdx && base <= e.dataChunkContentEndIdx && base <= e.dataChunkEndIdx
  }

  /** The entry as stored in a directory's index: chunk indices counted from
      the directory's first data chunk `base`. */
  function Relativize(e: IndexEntry, base: nat): (r: IndexEntry)
    requires AtOrAfter(e, base)
    ensures Ordered(e) ==> Ordered(r)
  {
    e.(dataChunkIdx := e.dataChunkIdx - base, dataChunkContentIdx := e.dataChunkContentIdx - base,
       dataChunkContentEndIdx := e.dataChunkContentEndIdx - base, dataChunkEndIdx := e.dataChunkEndIdx - base)
  }

  /** The `+= dir_data_chunk_idx` on the four chunk indices before an entry is sent. */
  function Rebase(e: IndexEntry, base: nat): (r: IndexEntry)
    ensures AtOrAfter(r, base)
    ensures Ordered(e) <==> Ordered(r)
  {
    e.(dataChunkIdx := e.dataChunkIdx + base, dataChunkContentIdx := e.dataChunkContentIdx + base,
       dataChunkContentEndIdx := e.dataChunkContentEndIdx + base, dataChunkEndIdx := e.dataChunkEndIdx + base)
  }

  /** Rebasing a relative entry gives back the absolute one ... */
  lemma {:induction false} RebaseRelativize(e: IndexEntry, base: nat)
    requires AtOrAfter(e, base)
    ensures Rebase(Relativize(e, base), base) == e
  {
  }

  /** ... and relativizing a rebased one gives back the relative one. */
  lemma {:induction false} RelativizeRebase(e: IndexEntry, base: nat)
    ensures Relativize(Rebase(e, base), base) == e
  {
  }

  /** Rebasing twice is rebasing once by the sum. */
  lemma {:induction false} RebaseTwice(e: IndexEntry, a: nat, b: nat)
    ensures Rebase(Rebase(e, a), b) == Rebase(e, a + b)
  {
  }

  function RebaseAll(es: seq<IndexEntry>, base: nat): (r: seq<IndexEntry>)
    ensures |r| == |es| && forall i :: 0 <= i < |es| ==> r[i] == Rebase(es[i], base)
  {
    seq(|es|, i requires 0 <= i < |es| => Rebase(es[i], base))
  }

  function RelativizeAll(es: seq<IndexEntry>, base: nat): (r: seq<IndexEntry>)
    requires forall i :: 0 <= i < |es| ==> AtOrAfter(es[i], base)
    ensures |r| == |es| && forall i :: 0 <= i < |es| ==> r[i] == Relativize(es[i], base)
  {
    seq(|es|, i requires 0 <= i < |es| => Relativize(es[i], base))
  }

  // ---------------------------------------------------------------------
  // Directories, fresh and from the stat cache

  /** How many chunks of the stream an entry reaches into: up to its end
      chunk, and that chunk too when the entry ends inside it. */
  function Reach(e: IndexEntry): nat
  {
    e.dataChunkEndIdx + (if e.dataChunkEndOffset > 0 then 1 else 0)
  }

  /** An entry names only chunks among the first `n`. */
  predicate Resolves(e: IndexEntry, n: nat)
  {
    Ordered(e) && Reach(e) <= n
  }

  /** The chunks an entry spans. */
  function Span(stream: seq<Address>, e: IndexEntry): seq<Address>
    requires Resolves(e, |stream|)
  {
    stream[e.dataChunkIdx..Reach(e)]
  }

  /** A stat cache record: the directory's tar size, the addresses of its
      data chunks, and its index with relative chunk indices. */
  datatype CacheEntry = CacheEntry(size: nat, addresses: seq<Address>, index: seq<IndexEntry>)

  /** A record whose index names only the record's own chunks. */
  predicate Consistent(c: CacheEntry)
  {
    forall i :: 0 <= i < |c.index| ==> Resolves(c.index[i], |c.addresses|)
  }

  /** What a backup has sent so far: the data chunk addresses in the order the
      tree writer took them (so `data_chunk_count` is the length), and the
      index entries sent, with absolute chunk indices. */
  datatype Upload = Upload(stream: seq<Address>, index: seq<IndexEntry>)

  /** Every index entry names chunks the backup holds. */
  predicate Sound(u: Upload)
  {
    forall i :: 0 <= i < |u.index| ==> Resolves(u.index[i], |u.stream|)
  }

  /** A directory sent afresh: its chunks join the stream; each entry, read
      with absolute chunk indices, is stored relative to the directory's
      first chunk and rebased before it is sent; the stat cache records the
      chunks and the relative index. */
  function FreshDir(u: Upload, chunks: seq<Address>, entries: seq<IndexEntry>, size: nat): (r: (Upload, CacheEntry))
    requires forall i :: 0 <= i < |entries| ==> AtOrAfter(entries[i], |u.stream|)
    ensures r.0.stream == u.stream + chunks && r.1.addresses == chunks
    ensures r.0.index == u.index + entries
    ensures |r.1.index| == |entries| && forall i :: 0 <= i < |entries| ==> Rebase(r.1.index[i], |u.stream|) == entries[i]
  {
    var dirIdx := |u.stream|;
    var rel := RelativizeAll(entries, dirIdx);
    var sent := RebaseAll(rel, dirIdx);
    assert sent == entries by {
      forall i | 0 <= i < |entries| ensures sent[i] == entries[i] {
        RebaseRelativize(entries[i], dirIdx);
      }
    }
    (Upload(u.stream + chunks, u.index + sent), CacheEntry(size, chunks, rel))
  }

  /** The stream and index a stat cache hit adds: the cached chunks, and the
      cached index rebased onto the directory's first chunk. */
  function Replay(u: Upload, c: CacheEntry): (r: Upload)
    ensures r.stream == u.stream + c.addresses
    ensures |r.index| == |u.index| + |c.index| && r.index[..|u.index|] == u.index
  {
    var r := Upload(u.stream + c.addresses, u.index + RebaseAll(c.index, |u.stream|));
    assert r.index[..|u.index|] == u.index;
    r
  }

  /** A stat cache hit as written: the record written back for the next
      backup takes the directory's `addresses`, which were cleared when the
      directory was started and which this path never fills. */
  function CacheHitAsWritten(u: Upload, c: CacheEntry): (r: (Upload, CacheEntry))
    ensures r.0 == Replay(u, c)
    ensures r.1.addresses == [] && r.1.index == c.index && r.1.size == c.size
  {
    var addresses: seq<Address> := [];
    (Replay(u, c), CacheEntry(c.size, addresses, c.index))
  }

  /** A stat cache hit that writes back the cached chunk addresses. */
  function CacheHit(u: Upload, c: CacheEntry): (r: (Upload, CacheEntry))
    ensures r.0 == Replay(u, c) && r.1 == c
  {
    (Replay(u, c), CacheEntry(c.size, c.addresses, c.index))
  }

  /** A fresh directory whose entries lie within its own chunks keeps the
      backup sound, records a consistent cache entry, and each sent entry
      spans the same chunks as its cached relative form does in the record. */
  lemma {:induction false} FreshDirSound(u: Upload, chunks: seq<Address>, entries: seq<IndexEntry>, size: nat)
    requires Sound(u)
    requires forall i :: 0 <= i < |entries| ==> AtOrAfter(entries[i], |u.stream|) && Resolves(entries[i], |u.stream| + |chunks|)
    ensures var r := FreshDir(u, chunks, entries, size);
      && Sound(r.0) && Consistent(r.1)
      && forall i :: 0 <= i < |entries| ==> Span(r.0.stream, entries[i]) == Span(chunks, r.1.index[i])
  {
    var r := FreshDir(u, chunks, entries, size);
    var base := |u.stream|;
    forall i | 0 <= i < |r.0.index| ensures Resolves(r.0.index[i], |r.0.stream|) {
      if i >= |u.index| {
        assert r.0.index[i] == entries[i - |u.index|];
      } else {
        assert r.0.index[i] == u.index[i];
      }
    }
    forall i | 0 <= i < |entries|
      ensures Resolves(r.1.index[i], |chunks|) && Span(r.0.stream, entries[i]) == Span(chunks, r.1.index[i])
    {
      var e := entries[i];
      var rel := r.1.index[i];
      assert Rebase(rel, base) == e;
      assert Reach(e) == Reach(rel) + base;
      SpanShift(u.stream, chunks, rel);
    }
  }

  /** An entry counted from the start of `tail` spans, in `head + tail`,
      the same chunks once rebased past `head`. */
  lemma {:induction false} SpanShift(head: seq<Address>, tail: seq<Address>, rel: IndexEntry)
    requires Resolves(rel, |tail|)
    ensures Resolves(Rebase(rel, |head|), |head + tail|)
    ensures Span(head + tail, Rebase(rel, |head|)) == Span(tail, rel)
  {
    var e := Rebase(rel, |head|);
    assert Reach(e) == Reach(rel) + |head|;
    assert (head + tail)[e.dataChunkIdx..Reach(e)] == tail[rel.dataChunkIdx..Reach(rel)];
  }

  /** A hit on a consistent record keeps the backup sound, each replayed
      entry spans exactly the chunks the record's entry names, and the record
      written back is the record read, so every later hit replays the same. */
  lemma {:induction false} CacheHitSound(u: Upload, c: CacheEntry)
    requires Sound(u) && Consistent(c)
    ensures var r := CacheHit(u, c);
      && Sound(r.0) && Consistent(r.1) && r.1 == c
      && forall i :: 0 <= i < |c.index| ==>
           Resolves(r.0.index[|u.index| + i], |r.0.stream|) && Span(r.0.stream, r.0.index[|u.index| + i]) == Span(c.addresses, c.index[i])
  {
    var r := CacheHit(u, c);
    ReplaySound(u, c);
  }

  lemma {:induction false} ReplaySound(u: Upload, c: CacheEntry)
    requires Sound(u) && Consistent(c)
    ensures var r := Replay(u, c);
      && Sound(r)
      && forall i :: 0 <= i < |c.index| ==>
           Resolves(r.index[|u.index| + i], |r.stream|) && Span(r.stream, r.index[|u.index| + i]) == Span(c.addresses, c.index[i])
  {
    var r := Replay(u, c);
    forall i | 0 <= i < |c.index|
      ensures Resolves(r.index[|u.index| + i], |r.stream|) && Span(r.stream, r.index[|u.index| + i]) == Span(c.addresses, c.index[i])
    {
      assert r.index[|u.index| + i] == Rebase(c.index[i], |u.stream|);
      SpanShift(u.stream, c.addresses, c.index[i]);
    }
    forall i | 0 <= i < |r.index| ensures Resolves(r.index[i], |r.stream|) {
      if i >= |u.index| {
        assert r.index[i] == r.index[|u.index| + (i - |u.index|)];
      } else {
        assert r.index[i] == u.index[i];
      }
    }
  }

  /** As written, the record written back by a hit is consistent only when
      no entry of the directory reaches into any chunk. */
  lemma {:induction false} CacheHitAsWrittenRecord(u: Upload, c: CacheEntry)
    ensures var r := CacheHitAsWritten(u, c);
      Consistent(r.1) <==> forall i :: 0 <= i < |c.index| ==> Ordered(c.index[i]) && Reach(c.index[i]) == 0
  {
  }

  /** The discrepancy on three backups of one unchanged directory holding one
      small file: the first sends it afresh, the second hits the stat cache
      and writes back a record without chunks, and the third hits that record:
      its index names chunk 0, and it sent no chunk at all. */
  lemma {:induction false} ThirdBackupLosesData()
    ensures var a: Address := Zeros(ADDRESS_SZ);
      var e := IndexEntry("f", 10, 1024, 0, 0, 0, 0, 0, 512, 522, 1024);
      var empty := Upload([], []);
      var first := FreshDir(empty, [a], [e], 1024);
      var second := CacheHitAsWritten(empty, first.1);
      var third := CacheHitAsWritten(empty, second.1);
      && Sound(first.0) && Sound(second.0)
      && third.0.stream == [] && third.0.index == [e] && Reach(e) == 1
      && !Sound(third.0)
  {
    var a: Address := Zeros(ADDRESS_SZ);
    var e := IndexEntry("f", 10, 1024, 0, 0, 0, 0, 0, 512, 522, 1024);
    var empty := Upload([], []);
    FreshDirSound(empty, [a], [e], 1024);
    var first := FreshDir(empty, [a], [e], 1024);
    assert first.1.index == [e] by {
      assert Rebase(first.1.index[0], 0) == e;
    }
    var second := CacheHitAsWritten(empty, first.1);
    ReplaySound(empty, first.1);
    var third := CacheHitAsWritten(empty, second.1);
    assert third.0.index[0] == e;
  }

  /** With the cached addresses written back, the third backup holds the
      file's chunk and its index entry spans exactly that chunk. */
  lemma {:induction false} ThirdBackupKeepsData()
    ensures var a: Address := Zeros(ADDRESS_SZ);
      var e := IndexEntry("f", 10, 1024, 0, 0, 0, 0, 0, 512, 522, 1024);
      var empty := Upload([], []);
      var first := FreshDir(empty, [a], [e], 1024);
      var second := CacheHit(empty, first.1);
      var third := CacheHit(empty, second.1);
      && Sound(third.0) && third.0.stream == [a] && third.0.index == [e] && Span(third.0.stream, e) == [a]
  {
    var a: Address := Zeros(ADDRESS_SZ);
    var e := IndexEntry("f", 10, 1024, 0, 0, 0, 0, 0, 512, 522, 1024);
    var empty := Upload([], []);
    FreshDirSound(empty, [a], [e], 1024);
    var first := FreshDir(empty, [a], [e], 1024);
    assert first.1.index == [e] by {
      assert Rebase(first.1.index[0], 0) == e;
    }
    var second := CacheHit(empty, first.1);
    CacheHitSound(empty, first.1);
    var third := CacheHit(empty, second.1);
    ReplaySound(empty, second.1);
    assert third.0.index[0] == e;
  }

  // ---------------------------------------------------------------------
  // A whole backup

  /** One directory of the walk: sent afresh, with its chunks and its
      entries counted from its first chunk, or replayed from a record. */
  datatype DirStep = Fresh(chunks: seq<Address>, rel: seq<IndexEntry>, size: nat) | Hit(record: CacheEntry)

  /** A directory step whose data is well formed: a fresh directory's entries
      lie within its own chunks, a record read from the cache is consistent. */
  predicate StepOk(s: DirStep)
  {
    match s
    case Fresh(chunks, rel, _) => forall i :: 0 <= i < |rel| ==> Resolves(rel[i], |chunks|)
    case Hit(record) => Consistent(record)
  }

  /** The directories of a backup in walk order: the upload, and the records
      written for the next backup's stat cache. */
  function SendDirs(u: Upload, steps: seq<DirStep>): (r: (Upload, seq<CacheEntry>))
    ensures |r.1| == |steps|
    ensures |r.0.stream| >= |u.stream| && r.0.stream[..|u.stream|] == u.stream
    decreases |steps|
  {
    if |steps| == 0 then (u, [])
    else
      var d := match steps[0]
        case Fresh(chunks, rel, size) => FreshDir(u, chunks, RebaseAll(rel, |u.stream|), size)
        case Hit(c) => CacheHit(u, c);
      var rest := SendDirs(d.0, steps[1..]);
      assert rest.0.stream[..|u.stream|] == u.stream by {
        assert rest.0.stream[..|d.0.stream|][..|u.stream|] == d.0.stream[..|u.stream|];
      }
      (rest.0, [d.1] + rest.1)
  }

  /** Over a whole backup of well-formed directories, every index entry sent
      names chunks the backup holds, and every record written back is
      consistent, so the next backup's hits stay sound too. */
  lemma {:induction false} SendDirsSound(u: Upload, steps: seq<DirStep>)
    requires Sound(u)
    requires forall i :: 0 <= i < |steps| ==> StepOk(steps[i])
    ensures var r := SendDirs(u, steps);
      Sound(r.0) && forall i :: 0 <= i < |r.1| ==> Consistent(r.1[i])
    decreases |steps|
  {
    if |steps| > 0 {
      assert StepOk(steps[0]);
      var d: (Upload, CacheEntry);
      match steps[0] {
        case Fresh(chunks, rel, size) =>
          var entries := RebaseAll(rel, |u.stream|);
          forall i | 0 <= i < |entries| ensures AtOrAfter(entries[i], |u.stream|) && Resolves(entries[i], |u.stream| + |chunks|) {
            SpanShift(u.stream, chunks, rel[i]);
          }
          FreshDirSound(u, chunks, entries, size);
          d := FreshDir(u, chunks, entries, size);
        case Hit(c) =>
          CacheHitSound(u, c);
          d := CacheHit(u, c);
      }
      assert forall i :: 0 <= i < |steps[1..]| ==> StepOk(steps[1..][i]) by {
        forall i | 0 <= i < |steps[1..]| ensures StepOk(steps[1..][i]) {
          assert steps[1..][i] == steps[i + 1];
        }
      }
      SendDirsSound(d.0, steps[1..]);
      var rest := SendDirs(d.0, steps[1..]);
      assert SendDirs(u, steps) == (rest.0, [d.1] + rest.1);
    }
  }
}
