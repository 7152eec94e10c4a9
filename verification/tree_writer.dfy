/** `TreeWriter` (src/htree.rs): it collects addresses level by level and,
    whenever a level's rollsum signals a split or the level is full, writes the
    level out as a block and adds the block's address one level up. */
module TreeWriter {
  import opened Bytes
  import opened Rollsum
  import opened HTree

  /** Level `i` holds the addresses not yet written out at height `i`; its
      buffer bytes are `Flatten(levels[i])`. Every level's rollsum consults
      the same split oracle. */
  datatype TreeWriter = TreeWriter(maxAddrChunkSize: nat, levels: seq<seq<Address>>, rollsums: seq<Rollsum>, dataChunkCount: nat)

  /** A new writer state and the chunks written to the sink on the way. */
  datatype Step = Step(w: TreeWriter, writes: seq<Write>)

  /** The root reported by `finish`: its height, its address, and the chunks written. */
  datatype Finished = Finished(height: nat, root: Address, writes: seq<Write>)

  predicate Shape(w: TreeWriter)
  {
    w.maxAddrChunkSize >= MINIMUM_ADDR_CHUNK_SIZE && |w.rollsums| == |w.levels|
  }

  /** Every level except `skip` has room for one more address. */
  predicate RoomExcept(w: TreeWriter, skip: int)
  {
    forall i :: 0 <= i < |w.levels| && i != skip ==> |w.levels[i]| * ADDRESS_SZ + ADDRESS_SZ <= w.maxAddrChunkSize
  }

  /** The highest level is never empty. */
  predicate TopLive(w: TreeWriter)
  {
    |w.levels| == 0 || |w.levels[|w.levels| - 1]| > 0
  }

  predicate Valid(w: TreeWriter)
  {
    Shape(w) && RoomExcept(w, -1) && TopLive(w)
  }

  /** Every chunk written is a block of whole addresses between `lo` and `hi` bytes long. */
  predicate BlockWrites(writes: seq<Write>, lo: nat, hi: nat)
  {
    forall i :: 0 <= i < |writes| ==> lo <= |writes[i].data| <= hi && |writes[i].data| % ADDRESS_SZ == 0
  }

  function Max(a: nat, b: nat): nat
  {
    if a < b then b else a
  }

  /** The number of addresses held at levels `from` and above. */
  function CountFrom(levels: seq<seq<Address>>, from: nat): nat
    decreases |levels| - from
  {
    if from >= |levels| then 0 else |levels[from]| + CountFrom(levels, from + 1)
  }

  lemma {:induction false} CountFromSame(a: seq<seq<Address>>, b: seq<seq<Address>>, from: nat)
    requires |a| == |b|
    requires forall i :: from <= i < |a| ==> a[i] == b[i]
    ensures CountFrom(a, from) == CountFrom(b, from)
    decreases |a| - from
  {
    if from < |a| {
      CountFromSame(a, b, from + 1);
    }
  }

  lemma {:induction false} CountFromEmptyTop(a: seq<seq<Address>>, from: nat)
    ensures CountFrom(a + [[]], from) == CountFrom(a, from)
    decreases |a| - from
  {
    if from < |a| {
      CountFromEmptyTop(a, from + 1);
    }
  }

  /** The addresses waiting at `level`: none for a level not yet created. */
  function Pending(w: TreeWriter, level: nat): seq<Address>
  {
    if level < |w.levels| then w.levels[level] else []
  }

  /** The rollsum of `level`: a fresh one for a level not yet created. */
  function RollsumAt(w: TreeWriter, level: nat): Rollsum
  {
    if level < |w.rollsums| then w.rollsums[level] else Reset()
  }

  /** `add_addr`'s flush rule: after `addr` joins the level, the level is
      written out when it holds at least two addresses and either rolling the
      address's bytes signalled a split or one more address would exceed
      `max_addr_chunk_size`. */
  predicate Flushes(w: TreeWriter, split: Oracle, level: nat, addr: Address)
  {
    var full := Pending(w, level) + [addr];
    && |full| * ADDRESS_SZ >= 2 * ADDRESS_SZ
    && (RollBytes(RollsumAt(w, level), split, addr).1 || |full| * ADDRESS_SZ + ADDRESS_SZ > w.maxAddrChunkSize)
  }

  /** What `add_addr(level, addr)` leaves at `level` of `after`, with `writes`
      the chunks written: on a flush, the level's addresses with `addr` go
      out first as one block under its hash, and the level and its rollsum
      restart empty; otherwise nothing is written, the level has gained
      `addr` and its rollsum has rolled the address's bytes. */
  predicate AddedAt(w: TreeWriter, split: Oracle, hash: BlockHash, level: nat, addr: Address, after: TreeWriter, writes: seq<Write>)
  {
    var full := Pending(w, level) + [addr];
    && level < |after.levels| && level < |after.rollsums|
    && if Flushes(w, split, level, addr) then
         && |writes| > 0 && writes[0] == Write(hash(Flatten(full)), Flatten(full))
         && after.levels[level] == [] && after.rollsums[level] == Reset()
       else
         && writes == [] && after.levels[level] == full
         && after.rollsums[level].rolled == RollsumAt(w, level).rolled + addr
  }

  /** `TreeWriter::new`. */
  function New(maxAddrChunkSize: nat): (w: TreeWriter)
    requires maxAddrChunkSize >= MINIMUM_ADDR_CHUNK_SIZE
    ensures Valid(w) && w.levels == [] && w.dataChunkCount == 0
    ensures w.maxAddrChunkSize == maxAddrChunkSize
  {
    TreeWriter(maxAddrChunkSize, [], [], 0)
  }

  /** The first half of `TreeWriter::add_addr`: count a data chunk, create
      the level if it is new, append `addr` to it and roll the address's bytes
      into the level's rollsum; the flag says whether the rollsum split. */
  function Append(w: TreeWriter, split: Oracle, level: nat, addr: Address): (r: (TreeWriter, bool))
    requires Shape(w) && RoomExcept(w, -1) && level <= |w.levels|
    ensures Shape(r.0) && RoomExcept(r.0, level)
    ensures r.0.maxAddrChunkSize == w.maxAddrChunkSize
    ensures |r.0.levels| == Max(|w.levels|, level + 1)
    ensures r.0.levels[level] == (if level < |w.levels| then w.levels[level] else []) + [addr]
    ensures forall i :: 0 <= i < |w.levels| && i != level ==> r.0.levels[i] == w.levels[i]
    ensures r.0.dataChunkCount == w.dataChunkCount + (if level == 0 then 1 else 0)
    ensures TopLive(w) || level + 1 >= |w.levels| ==> TopLive(r.0)
    ensures CountFrom(r.0.levels, level + 1) == CountFrom(w.levels, level + 1)
    ensures CountFrom(r.0.levels, level) == CountFrom(w.levels, level) + 1
    ensures r.0.levels[level] == Pending(w, level) + [addr]
    ensures r.0.rollsums[level].rolled == RollsumAt(w, level).rolled + addr
    ensures r.1 == RollBytes(RollsumAt(w, level), split, addr).1
  {
    var count := if level == 0 then w.dataChunkCount + 1 else w.dataChunkCount;
    var levels := if |w.levels| < level + 1 then w.levels + [[]] else w.levels;
    var rollsums := if |w.levels| < level + 1 then w.rollsums + [Reset()] else w.rollsums;
    var block := levels[level] + [addr];
    var (rs, isSplitPoint) := RollBytes(rollsums[level], split, addr);
    var w1 := TreeWriter(w.maxAddrChunkSize, levels[level := block], rollsums[level := rs], count);
    if |w.levels| < level + 1 then
      CountFromEmptyTop(w.levels, level);
      (w1, isSplitPoint)
    else
      CountFromSame(w1.levels, w.levels, level + 1);
      (w1, isSplitPoint)
  }

  /** `TreeWriter::add_addr`: append `addr` at `level` and write the level
      out when it holds at least two addresses and either its rollsum split
      or one more address would not fit. */
  function AddAddr(w: TreeWriter, split: Oracle, hash: BlockHash, level: nat, addr: Address): (r: Step)
    requires Shape(w) && RoomExcept(w, -1) && level <= |w.levels|
    ensures Shape(r.w) && RoomExcept(r.w, -1)
    ensures r.w.maxAddrChunkSize == w.maxAddrChunkSize
    ensures |r.w.levels| >= Max(|w.levels|, level + 1)
    ensures r.w.dataChunkCount == w.dataChunkCount + (if level == 0 then 1 else 0)
    ensures forall i :: 0 <= i < level ==> r.w.levels[i] == w.levels[i]
    ensures TopLive(w) || level + 1 >= |w.levels| ==> TopLive(r.w)
    ensures CountFrom(r.w.levels, level) <= CountFrom(w.levels, level) + 1
    ensures CountFrom(r.w.levels, level) == CountFrom(w.levels, level) + 1 ==> |r.w.levels| == Max(|w.levels|, level + 1)
    ensures BlockWrites(r.writes, MINIMUM_ADDR_CHUNK_SIZE, w.maxAddrChunkSize)
    ensures AddedAt(w, split, hash, level, addr, r.w, r.writes)
    decreases CountFrom(w.levels, level) + 1, 1
  {
    var (w1, isSplitPoint) := Append(w, split, level, addr);
    var len := |w1.levels[level]| * ADDRESS_SZ;
    if len >= 2 * ADDRESS_SZ && (isSplitPoint || len + ADDRESS_SZ > w.maxAddrChunkSize) then
      ClearLevel(w1, split, hash, level)
    else
      Step(w1, [])
  }

  /** `TreeWriter::clear_level`: write a non-empty level out as one block,
      add the block's address one level up, and reset the level's rollsum. */
  function ClearLevel(w: TreeWriter, split: Oracle, hash: BlockHash, level: nat): (r: Step)
    requires Shape(w) && RoomExcept(w, level) && level < |w.levels|
    requires |w.levels[level]| * ADDRESS_SZ <= w.maxAddrChunkSize
    ensures Shape(r.w) && RoomExcept(r.w, -1)
    ensures r.w.maxAddrChunkSize == w.maxAddrChunkSize
    ensures |r.w.levels| >= |w.levels|
    ensures |w.levels[level]| > 0 ==> |r.w.levels| > level + 1
    ensures r.w.dataChunkCount == w.dataChunkCount
    ensures r.w.levels[level] == []
    ensures forall i :: 0 <= i < level ==> r.w.levels[i] == w.levels[i]
    ensures TopLive(w) ==> TopLive(r.w)
    ensures |w.levels[level]| == 0 ==> r.writes == [] && r.w.levels == w.levels
    ensures CountFrom(r.w.levels, level + 1) <= CountFrom(w.levels, level + 1) + (if |w.levels[level]| > 0 then 1 else 0)
    ensures CountFrom(r.w.levels, level + 1) == CountFrom(w.levels, level + 1) + 1 ==> |r.w.levels| == Max(|w.levels|, level + 2)
    ensures BlockWrites(r.writes, ADDRESS_SZ, w.maxAddrChunkSize)
    ensures |r.writes| > 0 ==> BlockWrites(r.writes[1..], MINIMUM_ADDR_CHUNK_SIZE, w.maxAddrChunkSize)
    ensures r.w.rollsums[level] == Reset()
    // a non-empty level goes out first, and its block's address is added one level up
    ensures |w.levels[level]| > 0 ==>
      && |r.writes| > 0 && r.writes[0] == Write(hash(Flatten(w.levels[level])), Flatten(w.levels[level]))
      && AddedAt(w.(levels := w.levels[level := []]), split, hash, level + 1, hash(Flatten(w.levels[level])), r.w, r.writes[1..])
    decreases CountFrom(w.levels, level + 1) + 1, 2
  {
    if |w.levels[level]| > 0 then
      var block := Flatten(w.levels[level]);
      var blockAddress := hash(block);
      var w2 := w.(levels := w.levels[level := []]);
      CountFromSame(w2.levels, w.levels, level + 1);
      var s := AddAddr(w2, split, hash, level + 1, blockAddress);
      Cleared(w, level, w2, s, block, blockAddress);
      AddedAtOtherRollsum(w2, split, hash, level + 1, blockAddress, s.w, s.writes, level);
      Step(s.w.(rollsums := s.w.rollsums[level := Reset()]), [Write(blockAddress, block)] + s.writes)
    else
      Step(w.(rollsums := w.rollsums[level := Reset()]), [])
  }

  /** The state `clear_level` leaves when the level was not empty, from what
      adding the block's address one level up guarantees. */
  lemma {:induction false} Cleared(w: TreeWriter, level: nat, w2: TreeWriter, s: Step, block: bytes, blockAddress: Address)
    requires Shape(w) && RoomExcept(w, level) && level < |w.levels|
    requires 0 < |w.levels[level]| && |w.levels[level]| * ADDRESS_SZ <= w.maxAddrChunkSize
    requires block == Flatten(w.levels[level]) && w2 == w.(levels := w.levels[level := []])
    requires CountFrom(w2.levels, level + 1) == CountFrom(w.levels, level + 1)
    requires Shape(s.w) && RoomExcept(s.w, -1) && s.w.maxAddrChunkSize == w2.maxAddrChunkSize
    requires |s.w.levels| >= Max(|w2.levels|, level + 2) && s.w.dataChunkCount == w2.dataChunkCount
    requires forall i :: 0 <= i < level + 1 ==> s.w.levels[i] == w2.levels[i]
    requires TopLive(w2) || level + 2 >= |w2.levels| ==> TopLive(s.w)
    requires CountFrom(s.w.levels, level + 1) <= CountFrom(w2.levels, level + 1) + 1
    requires CountFrom(s.w.levels, level + 1) == CountFrom(w2.levels, level + 1) + 1 ==> |s.w.levels| == Max(|w2.levels|, level + 2)
    requires BlockWrites(s.writes, MINIMUM_ADDR_CHUNK_SIZE, w.maxAddrChunkSize)
    ensures var r := Step(s.w.(rollsums := s.w.rollsums[level := Reset()]), [Write(blockAddress, block)] + s.writes);
      && Shape(r.w) && RoomExcept(r.w, -1)
      && r.w.maxAddrChunkSize == w.maxAddrChunkSize
      && |r.w.levels| > level + 1 && |r.w.levels| >= |w.levels|
      && r.w.dataChunkCount == w.dataChunkCount
      && r.w.levels[level] == []
      && (forall i :: 0 <= i < level ==> r.w.levels[i] == w.levels[i])
      && (TopLive(w) ==> TopLive(r.w))
      && CountFrom(r.w.levels, level + 1) <= CountFrom(w.levels, level + 1) + 1
      && (CountFrom(r.w.levels, level + 1) == CountFrom(w.levels, level + 1) + 1 ==> |r.w.levels| == Max(|w.levels|, level + 2))
      && BlockWrites(r.writes, ADDRESS_SZ, w.maxAddrChunkSize)
      && r.writes[1..] == s.writes
  {
    ClearedLevels(w, level, w2, s.w, s.w.(rollsums := s.w.rollsums[level := Reset()]));
    BlockLength(w.levels[level]);
    ClearedWrites(w, block, blockAddress, s.writes);
  }

  /** Resetting the rollsum of another level leaves what `add_addr` did at `level` in place. */
  lemma {:induction false} AddedAtOtherRollsum(w: TreeWriter, split: Oracle, hash: BlockHash, level: nat, addr: Address,
                                               after: TreeWriter, writes: seq<Write>, other: nat)
    requires AddedAt(w, split, hash, level, addr, after, writes) && other != level && other < |after.rollsums|
    ensures AddedAt(w, split, hash, level, addr, after.(rollsums := after.rollsums[other := Reset()]), writes)
  {
  }

  /** The levels `clear_level` leaves behind: the cleared level is empty, the
      ones below it are untouched, and the shape invariants hold. */
  lemma {:induction false} ClearedLevels(w: TreeWriter, level: nat, w2: TreeWriter, sw: TreeWriter, rw: TreeWriter)
    requires Shape(w) && level < |w.levels|
    requires w2 == w.(levels := w.levels[level := []])
    requires CountFrom(w2.levels, level + 1) == CountFrom(w.levels, level + 1)
    requires Shape(sw) && RoomExcept(sw, -1) && sw.maxAddrChunkSize == w2.maxAddrChunkSize
    requires |sw.levels| >= Max(|w2.levels|, level + 2) && sw.dataChunkCount == w2.dataChunkCount
    requires forall i :: 0 <= i < level + 1 ==> sw.levels[i] == w2.levels[i]
    requires TopLive(w2) || level + 2 >= |w2.levels| ==> TopLive(sw)
    requires CountFrom(sw.levels, level + 1) <= CountFrom(w2.levels, level + 1) + 1
    requires CountFrom(sw.levels, level + 1) == CountFrom(w2.levels, level + 1) + 1 ==> |sw.levels| == Max(|w2.levels|, level + 2)
    requires rw == sw.(rollsums := sw.rollsums[level := Reset()])
    ensures Shape(rw) && RoomExcept(rw, -1)
    ensures rw.maxAddrChunkSize == w.maxAddrChunkSize
    ensures |rw.levels| > level + 1 && |rw.levels| >= |w.levels|
    ensures rw.dataChunkCount == w.dataChunkCount
    ensures rw.levels[level] == []
    ensures forall i :: 0 <= i < level ==> rw.levels[i] == w.levels[i]
    ensures TopLive(w) ==> TopLive(rw)
    ensures CountFrom(rw.levels, level + 1) <= CountFrom(w.levels, level + 1) + 1
    ensures CountFrom(rw.levels, level + 1) == CountFrom(w.levels, level + 1) + 1 ==> |rw.levels| == Max(|w.levels|, level + 2)
  {
    assert rw.levels == sw.levels;
    assert rw.levels[level] == w2.levels[level] == [];
    assert forall i :: 0 <= i < level ==> rw.levels[i] == w2.levels[i] == w.levels[i];
    TopLiveCleared(w, level, w2, sw);
  }

  /** The block write `clear_level` puts in front of the writes made one level up. */
  lemma {:induction false} ClearedWrites(w: TreeWriter, block: bytes, blockAddress: Address, writes: seq<Write>)
    requires 0 < |block| <= w.maxAddrChunkSize && |block| % ADDRESS_SZ == 0
    requires BlockWrites(writes, MINIMUM_ADDR_CHUNK_SIZE, w.maxAddrChunkSize)
    ensures BlockWrites([Write(blockAddress, block)] + writes, ADDRESS_SZ, w.maxAddrChunkSize)
    ensures ([Write(blockAddress, block)] + writes)[1..] == writes
  {
    BlockWritesCons(Write(blockAddress, block), writes, w.maxAddrChunkSize);
    assert ([Write(blockAddress, block)] + writes)[1..] == writes;
  }

  /** Emptying a level below the top keeps the top level live. */
  lemma {:induction false} TopLiveCleared(w: TreeWriter, level: nat, w2: TreeWriter, sw: TreeWriter)
    requires level < |w.levels| && w2 == w.(levels := w.levels[level := []])
    requires TopLive(w2) || level + 2 >= |w2.levels| ==> TopLive(sw)
    ensures TopLive(w) ==> TopLive(sw)
  {
    if TopLive(w) && level + 2 < |w2.levels| {
      assert w2.levels[|w2.levels| - 1] == w.levels[|w.levels| - 1];
    }
  }

  lemma {:induction false} BlockLength(addrs: seq<Address>)
    ensures |Flatten(addrs)| % ADDRESS_SZ == 0
  {
    assert |Flatten(addrs)| == |addrs| * ADDRESS_SZ;
  }

  lemma {:induction false} BlockWritesCons(first: Write, rest: seq<Write>, hi: nat)
    requires ADDRESS_SZ <= |first.data| <= hi && |first.data| % ADDRESS_SZ == 0
    requires BlockWrites(rest, MINIMUM_ADDR_CHUNK_SIZE, hi)
    ensures BlockWrites([first] + rest, ADDRESS_SZ, hi)
  {
    forall i | 0 <= i < |[first] + rest|
      ensures ADDRESS_SZ <= |([first] + rest)[i].data| <= hi && |([first] + rest)[i].data| % ADDRESS_SZ == 0
    {
      if i > 0 {
        assert ([first] + rest)[i] == rest[i - 1];
      }
    }
  }

  /** `TreeWriter::add`: write the data chunk, then add its address at height 0. */
  function Add(w: TreeWriter, split: Oracle, hash: BlockHash, addr: Address, data: bytes): (r: Step)
    requires Valid(w)
    ensures Valid(r.w) && r.w.maxAddrChunkSize == w.maxAddrChunkSize
    ensures r.w.dataChunkCount == w.dataChunkCount + 1
    ensures |r.w.levels| > 0
    ensures |r.writes| > 0 && r.writes[0] == Write(addr, data)
    ensures BlockWrites(r.writes[1..], MINIMUM_ADDR_CHUNK_SIZE, w.maxAddrChunkSize)
  {
    var s := AddAddr(w, split, hash, 0, addr);
    assert ([Write(addr, data)] + s.writes)[1..] == s.writes;
    Step(s.w, [Write(addr, data)] + s.writes)
  }

  /** `TreeWriter::data_chunk_count`. */
  function DataChunkCount(w: TreeWriter): nat
  {
    w.dataChunkCount
  }

  /** `TreeWriter::finish_level`: a top level holding exactly one address is
      the root; any other level is written out and finishing moves up. */
  function FinishLevel(w: TreeWriter, split: Oracle, hash: BlockHash, level: nat): (r: Finished)
    requires Valid(w) && level < |w.levels|
    ensures r.height >= level && r.height + 1 >= |w.levels|
    ensures level == |w.levels| - 1 && |w.levels[level]| == 1 ==> r == Finished(level, w.levels[level][0], [])
    ensures BlockWrites(r.writes, ADDRESS_SZ, w.maxAddrChunkSize)
    decreases CountFrom(w.levels, level), |w.levels| - level
  {
    if |w.levels| - 1 == level && |w.levels[level]| * ADDRESS_SZ == ADDRESS_SZ then
      Finished(level, w.levels[level][0], [])
    else
      var s := ClearLevel(w, split, hash, level);
      var f := FinishLevel(s.w, split, hash, level + 1);
      Finished(f.height, f.root, s.writes + f.writes)
  }

  /** `TreeWriter::finish`: at least one address must have been added. */
  function Finish(w: TreeWriter, split: Oracle, hash: BlockHash): (r: Finished)
    requires Valid(w)
    requires |w.levels| > 1 || (|w.levels| == 1 && |w.levels[0]| * ADDRESS_SZ >= ADDRESS_SZ)
    ensures r.height + 1 >= |w.levels|
    ensures |w.levels| == 1 && |w.levels[0]| == 1 ==> r == Finished(0, w.levels[0][0], [])
    ensures BlockWrites(r.writes, ADDRESS_SZ, w.maxAddrChunkSize)
  {
    FinishLevel(w, split, hash, 0)
  }
}
