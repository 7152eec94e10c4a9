/** What the tree writer and reader promise together: after adding a
    sequence of chunks and finishing, walking the tree from the root that
    `finish` reports visits exactly the added addresses as leaves, in order.
    The statement holds for any store that holds every chunk the writer wrote,
    such as the `HashMap` sink when no two written blocks share an address. */
module TreeRoundTrip {
  import opened Wrappers
  import opened Bytes
  import opened Rollsum
  import opened HTree
  import opened TreeWriter
  import TreeReader

  predicate AllHeld(store: map<Address, bytes>, writes: seq<Write>)
  {
    forall i :: 0 <= i < |writes| ==> Holds(store, writes[i])
  }

  lemma {:induction false} AllHeldSplit(store: map<Address, bytes>, a: seq<Write>, b: seq<Write>)
    requires AllHeld(store, a + b)
    ensures AllHeld(store, a) && AllHeld(store, b)
  {
    assert forall i :: 0 <= i < |a| ==> a[i] == (a + b)[i];
    assert forall i :: 0 <= i < |b| ==> b[i] == (a + b)[|a| + i];
  }

  predicate EmptyBelow(levels: seq<seq<Address>>, level: nat)
  {
    forall i :: 0 <= i < level && i < |levels| ==> levels[i] == []
  }

  /** The walk of the addresses a writer still holds, the highest level
      first: each level's addresses are later than every address it has
      already passed up. */
  function Pending(store: map<Address, bytes>, levels: seq<seq<Address>>, from: nat): Walked
    decreases |levels| - from
  {
    if from >= |levels| then Ok([])
    else Then(Pending(store, levels, from + 1), WalkBytes(store, from, Flatten(levels[from])))
  }

  lemma {:induction false} PendingSame(store: map<Address, bytes>, a: seq<seq<Address>>, b: seq<seq<Address>>, from: nat)
    requires |a| == |b|
    requires forall i :: from <= i < |a| ==> a[i] == b[i]
    ensures Pending(store, a, from) == Pending(store, b, from)
    decreases |a| - from
  {
    if from < |a| {
      PendingSame(store, a, b, from + 1);
    }
  }

  /** Empty levels contribute nothing. */
  lemma {:induction false} PendingSkipEmpty(store: map<Address, bytes>, levels: seq<seq<Address>>, from: nat, level: nat)
    requires from <= level <= |levels| && EmptyBelow(levels, level)
    ensures Pending(store, levels, from) == Pending(store, levels, level)
    decreases level - from
  {
    if from < level {
      PendingSkipEmpty(store, levels, from + 1, level);
      assert Flatten(levels[from]) == [];
      ThenUnit(Pending(store, levels, from + 1));
    }
  }

  /** Appending an address at a level with nothing below it extends the pending walk by that address's subtree. */
  lemma {:induction false} AppendPending(store: map<Address, bytes>, w: TreeWriter, split: Oracle, level: nat, addr: Address)
    requires Shape(w) && RoomExcept(w, -1) && level <= |w.levels| && EmptyBelow(w.levels, level)
    ensures Pending(store, Append(w, split, level, addr).0.levels, 0) == Then(Pending(store, w.levels, 0), WalkNode(store, level, addr))
  {
    var w1 := Append(w, split, level, addr).0;
    assert EmptyBelow(w1.levels, level);
    PendingSkipEmpty(store, w1.levels, 0, level);
    PendingSkipEmpty(store, w.levels, 0, level);
    FlattenOne(addr);
    WalkOne(store, level, addr);
    if level < |w.levels| {
      PendingSame(store, w1.levels, w.levels, level + 1);
      WalkFlattenAppend(store, level, w.levels[level], [addr]);
      ThenAssoc(Pending(store, w.levels, level + 1), WalkBytes(store, level, Flatten(w.levels[level])), WalkNode(store, level, addr));
    } else {
      assert w1.levels[level] == [addr];
      ThenUnit(WalkNode(store, level, addr));
    }
  }

  /** `add_addr` extends the leaves of the pending walk by the leaves under the added address. */
  lemma {:induction false} AddAddrLeaves(w: TreeWriter, split: Oracle, hash: BlockHash, level: nat, addr: Address, store: map<Address, bytes>)
    requires Shape(w) && RoomExcept(w, -1) && level <= |w.levels| && EmptyBelow(w.levels, level)
    requires AllHeld(store, AddAddr(w, split, hash, level, addr).writes)
    ensures LeavesOf(Pending(store, AddAddr(w, split, hash, level, addr).w.levels, 0))
         == OptCat(LeavesOf(Pending(store, w.levels, 0)), LeavesOf(WalkNode(store, level, addr)))
    decreases CountFrom(w.levels, level) + 1, 1
  {
    var (w1, isSplitPoint) := Append(w, split, level, addr);
    AppendPending(store, w, split, level, addr);
    LeavesOfThen(Pending(store, w.levels, 0), WalkNode(store, level, addr));
    var len := |w1.levels[level]| * ADDRESS_SZ;
    if len >= 2 * ADDRESS_SZ && (isSplitPoint || len + ADDRESS_SZ > w.maxAddrChunkSize) {
      assert EmptyBelow(w1.levels, level);
      ClearLevelLeaves(w1, split, hash, level, store);
    }
  }

  /** `clear_level` moves a level's addresses up a level without changing the leaves below them. */
  lemma {:induction false} ClearLevelLeaves(w: TreeWriter, split: Oracle, hash: BlockHash, level: nat, store: map<Address, bytes>)
    requires Shape(w) && RoomExcept(w, level) && level < |w.levels|
    requires |w.levels[level]| * ADDRESS_SZ <= w.maxAddrChunkSize
    requires EmptyBelow(w.levels, level)
    requires AllHeld(store, ClearLevel(w, split, hash, level).writes)
    ensures LeavesOf(Pending(store, ClearLevel(w, split, hash, level).w.levels, 0)) == LeavesOf(Pending(store, w.levels, 0))
    decreases CountFrom(w.levels, level + 1) + 1, 2
  {
    if |w.levels[level]| > 0 {
      var block := Flatten(w.levels[level]);
      var blockAddress := hash(block);
      var w2 := w.(levels := w.levels[level := []]);
      CountFromSame(w2.levels, w.levels, level + 1);
      var s := AddAddr(w2, split, hash, level + 1, blockAddress);
      AllHeldSplit(store, [Write(blockAddress, block)], s.writes);
      assert Holds(store, [Write(blockAddress, block)][0]);
      assert EmptyBelow(w2.levels, level + 1);
      AddAddrLeaves(w2, split, hash, level + 1, blockAddress, store);
      ClearedPending(store, w.levels, level, blockAddress);
    }
  }

  /** Replacing a level's addresses by the address of their block, one level
      up, keeps the leaves of the pending walk. */
  lemma {:induction false} ClearedPending(store: map<Address, bytes>, levels: seq<seq<Address>>, level: nat, blockAddress: Address)
    requires level < |levels| && EmptyBelow(levels, level)
    requires Holds(store, Write(blockAddress, Flatten(levels[level])))
    ensures LeavesOf(Pending(store, levels, 0))
         == OptCat(LeavesOf(Pending(store, levels[level := []], 0)), LeavesOf(WalkNode(store, level + 1, blockAddress)))
  {
    var block := Flatten(levels[level]);
    var cleared := levels[level := []];
    LeavesOfPrepend(Visit(level + 1, blockAddress), WalkBytes(store, level, block));
    assert EmptyBelow(cleared, level + 1);
    PendingSkipEmpty(store, cleared, 0, level + 1);
    PendingSame(store, cleared, levels, level + 1);
    PendingSkipEmpty(store, levels, 0, level);
    LeavesOfThen(Pending(store, levels, level + 1), WalkBytes(store, level, block));
  }

  /** `finish_level` reports a root whose walk has the leaves of everything the writer still held. */
  lemma {:induction false} FinishLevelLeaves(w: TreeWriter, split: Oracle, hash: BlockHash, level: nat, store: map<Address, bytes>)
    requires Valid(w) && level < |w.levels| && EmptyBelow(w.levels, level)
    requires AllHeld(store, FinishLevel(w, split, hash, level).writes)
    ensures var f := FinishLevel(w, split, hash, level);
      LeavesOf(WalkNode(store, f.height, f.root)) == LeavesOf(Pending(store, w.levels, 0))
    decreases CountFrom(w.levels, level), |w.levels| - level, 1
  {
    if |w.levels| - 1 == level && |w.levels[level]| * ADDRESS_SZ == ADDRESS_SZ {
      PendingSkipEmpty(store, w.levels, 0, level);
      var a := w.levels[level][0];
      assert w.levels[level] == [a];
      FlattenOne(a);
      WalkOne(store, level, a);
      ThenUnit(WalkNode(store, level, a));
    } else {
      FinishLevelUp(w, split, hash, level, store);
    }
  }

  /** A level that is not yet the lone root is cleared and finishing goes on above it. */
  lemma {:induction false} FinishLevelUp(w: TreeWriter, split: Oracle, hash: BlockHash, level: nat, store: map<Address, bytes>)
    requires Valid(w) && level < |w.levels| && EmptyBelow(w.levels, level)
    requires !(|w.levels| - 1 == level && |w.levels[level]| * ADDRESS_SZ == ADDRESS_SZ)
    requires AllHeld(store, FinishLevel(w, split, hash, level).writes)
    ensures var f := FinishLevel(w, split, hash, level);
      LeavesOf(WalkNode(store, f.height, f.root)) == LeavesOf(Pending(store, w.levels, 0))
    decreases CountFrom(w.levels, level), |w.levels| - level, 0
  {
    var s := ClearLevel(w, split, hash, level);
    var f := FinishLevel(s.w, split, hash, level + 1);
    AllHeldSplit(store, s.writes, f.writes);
    ClearLevelLeaves(w, split, hash, level, store);
    assert EmptyBelow(s.w.levels, level + 1);
    FinishLevelLeaves(s.w, split, hash, level + 1, store);
  }

  // ---------------------------------------------------------------------
  // Writing a whole tree

  function Addrs(chunks: seq<Write>): (r: seq<Address>)
    ensures |r| == |chunks| && forall i :: 0 <= i < |chunks| ==> r[i] == chunks[i].addr
  {
    if |chunks| == 0 then [] else [chunks[0].addr] + Addrs(chunks[1..])
  }

  /** `TreeWriter::add` for each chunk in order. */
  function AddAll(w: TreeWriter, split: Oracle, hash: BlockHash, chunks: seq<Write>): (r: Step)
    requires Valid(w)
    ensures Valid(r.w) && r.w.maxAddrChunkSize == w.maxAddrChunkSize
    ensures r.w.dataChunkCount == w.dataChunkCount + |chunks|
    ensures |chunks| > 0 ==> |r.w.levels| > 0
    decreases |chunks|
  {
    if |chunks| == 0 then Step(w, [])
    else
      var s := Add(w, split, hash, chunks[0].addr, chunks[0].data);
      var t := AddAll(s.w, split, hash, chunks[1..]);
      Step(t.w, s.writes + t.writes)
  }

  /** A fresh writer fed every chunk, then finished. */
  function WriteTree(maxAddrChunkSize: nat, split: Oracle, hash: BlockHash, chunks: seq<Write>): (r: Finished)
    requires maxAddrChunkSize >= MINIMUM_ADDR_CHUNK_SIZE && |chunks| > 0
  {
    var s := AddAll(New(maxAddrChunkSize), split, hash, chunks);
    var f := Finish(s.w, split, hash);
    Finished(f.height, f.root, s.writes + f.writes)
  }

  /** `TreeWriter::add` extends the leaves of the pending walk by the added address. */
  lemma {:induction false} AddLeaves(w: TreeWriter, split: Oracle, hash: BlockHash, chunk: Write, store: map<Address, bytes>)
    requires Valid(w) && AllHeld(store, Add(w, split, hash, chunk.addr, chunk.data).writes)
    ensures LeavesOf(Pending(store, Add(w, split, hash, chunk.addr, chunk.data).w.levels, 0))
         == OptCat(LeavesOf(Pending(store, w.levels, 0)), Some([chunk.addr]))
  {
    var sa := AddAddr(w, split, hash, 0, chunk.addr);
    AllHeldSplit(store, [chunk], sa.writes);
    AddAddrLeaves(w, split, hash, 0, chunk.addr, store);
    assert Leaves([Visit(0, chunk.addr)]) == [chunk.addr];
  }

  lemma {:induction false} OptCatAssoc(x: Option<seq<Address>>, a: seq<Address>, b: seq<Address>)
    ensures OptCat(OptCat(x, Some(a)), Some(b)) == OptCat(x, Some(a + b))
  {
    if x.Some? {
      assert x.value + a + b == x.value + (a + b);
    }
  }

  lemma {:induction false} AddAllLeaves(w: TreeWriter, split: Oracle, hash: BlockHash, chunks: seq<Write>, store: map<Address, bytes>)
    requires Valid(w) && AllHeld(store, AddAll(w, split, hash, chunks).writes)
    ensures LeavesOf(Pending(store, AddAll(w, split, hash, chunks).w.levels, 0))
         == OptCat(LeavesOf(Pending(store, w.levels, 0)), Some(Addrs(chunks)))
    decreases |chunks|
  {
    var x := LeavesOf(Pending(store, w.levels, 0));
    if |chunks| == 0 {
      if x.Some? {
        assert x.value + [] == x.value;
      }
    } else {
      var s := Add(w, split, hash, chunks[0].addr, chunks[0].data);
      var t := AddAll(s.w, split, hash, chunks[1..]);
      AllHeldSplit(store, s.writes, t.writes);
      AddLeaves(w, split, hash, chunks[0], store);
      AddAllLeaves(s.w, split, hash, chunks[1..], store);
      OptCatAssoc(x, [chunks[0].addr], Addrs(chunks[1..]));
    }
  }

  /** The htree round trip: the root `finish` reports walks, through the
      tree reader, to exactly the added addresses as leaves, in order. */
  lemma {:induction false} WriteThenRead(maxAddrChunkSize: nat, split: Oracle, hash: BlockHash, chunks: seq<Write>, store: map<Address, bytes>)
    requires maxAddrChunkSize >= MINIMUM_ADDR_CHUNK_SIZE && |chunks| > 0
    requires AllHeld(store, WriteTree(maxAddrChunkSize, split, hash, chunks).writes)
    ensures var t := WriteTree(maxAddrChunkSize, split, hash, chunks);
      LeavesOf(TreeReader.Walk(TreeReader.New(t.height, t.root), store)) == Some(Addrs(chunks))
  {
    var w0 := New(maxAddrChunkSize);
    var s := AddAll(w0, split, hash, chunks);
    var f := Finish(s.w, split, hash);
    AllHeldSplit(store, s.writes, f.writes);
    AddAllFromNew(maxAddrChunkSize, split, hash, chunks, store);
    FinishLevelLeaves(s.w, split, hash, 0, store);
    TreeReader.WalkFromRoot(f.height, f.root, store);
  }

  /** A fresh writer fed every chunk has exactly those chunks as the leaves of its pending walk. */
  lemma {:induction false} AddAllFromNew(maxAddrChunkSize: nat, split: Oracle, hash: BlockHash, chunks: seq<Write>, store: map<Address, bytes>)
    requires maxAddrChunkSize >= MINIMUM_ADDR_CHUNK_SIZE
    requires AllHeld(store, AddAll(New(maxAddrChunkSize), split, hash, chunks).writes)
    ensures LeavesOf(Pending(store, AddAll(New(maxAddrChunkSize), split, hash, chunks).w.levels, 0)) == Some(Addrs(chunks))
  {
    var w0 := New(maxAddrChunkSize);
    AddAllLeaves(w0, split, hash, chunks, store);
    assert Pending(store, w0.levels, 0) == Ok([]);
    assert Leaves([]) == [];
    assert [] + Addrs(chunks) == Addrs(chunks);
  }

  /** The same round trip through the `HashMap` sink and source, when no
      address was written with two different contents. */
  lemma {:induction false} WriteThenReadHashMap(maxAddrChunkSize: nat, split: Oracle, hash: BlockHash, chunks: seq<Write>)
    requires maxAddrChunkSize >= MINIMUM_ADDR_CHUNK_SIZE && |chunks| > 0
    requires NoCollision(WriteTree(maxAddrChunkSize, split, hash, chunks).writes)
    ensures var t := WriteTree(maxAddrChunkSize, split, hash, chunks);
      LeavesOf(TreeReader.Walk(TreeReader.New(t.height, t.root), Store(t.writes))) == Some(Addrs(chunks))
  {
    var t := WriteTree(maxAddrChunkSize, split, hash, chunks);
    HashMapHoldsAll(t);
    WriteThenRead(maxAddrChunkSize, split, hash, chunks, Store(t.writes));
  }

  lemma {:induction false} HashMapHoldsAll(t: Finished)
    requires NoCollision(t.writes)
    ensures AllHeld(Store(t.writes), t.writes)
  {
    StoreHoldsAll(t.writes);
  }
}
