/** The shape tests of src/htree.rs, for every split oracle and block hash
    where the test's configuration makes the shape independent of them. */
module TreeTests {
  import opened Wrappers
  import opened Bytes
  import opened Rollsum
  import opened HTree
  import opened TreeWriter
  import opened TreeRoundTrip
  import TreeReader

  /** `Address::from_bytes(&[v; ADDRESS_SZ])`. */
  function Fill(v: byte): (a: Address)
    ensures forall i :: 0 <= i < ADDRESS_SZ ==> a[i] == v
  {
    seq(ADDRESS_SZ, _ => v)
  }

  lemma {:induction false} FlattenTwo(x: Address, y: Address)
    ensures Flatten([x, y]) == x + y
  {
    FlattenAppend([x], [y]);
    FlattenOne(x);
    FlattenOne(y);
    assert [x] + [y] == [x, y];
  }

  /** An address added to an empty or new level is only buffered. */
  lemma {:induction false} AddAddrQuiet(w: TreeWriter, split: Oracle, hash: BlockHash, level: nat, a: Address)
    requires Shape(w) && RoomExcept(w, -1) && level <= |w.levels|
    requires level == |w.levels| || w.levels[level] == []
    ensures AddAddr(w, split, hash, level, a) == Step(Append(w, split, level, a).0, [])
    ensures Append(w, split, level, a).0.levels == if level == |w.levels| then w.levels + [[a]] else w.levels[level := [a]]
  {
    var w1 := Append(w, split, level, a).0;
    assert [] + [a] == [a];
    assert |w1.levels[level]| == 1;
  }

  /** A second address on a level closes it when it must: either the block
      would overflow or the level's rollsum split. */
  lemma {:induction false} AddAddrCloses(w: TreeWriter, split: Oracle, hash: BlockHash, level: nat, x: Address, a: Address)
    requires Shape(w) && RoomExcept(w, -1) && level < |w.levels| && w.levels[level] == [x]
    requires w.maxAddrChunkSize == MINIMUM_ADDR_CHUNK_SIZE || forall bs :: split(bs)
    ensures AddAddr(w, split, hash, level, a) == ClearLevel(Append(w, split, level, a).0, split, hash, level)
    ensures Append(w, split, level, a).0.levels == w.levels[level := [x, a]]
  {
    var (w1, isSplitPoint) := Append(w, split, level, a);
    assert [x] + [a] == [x, a];
    if w.maxAddrChunkSize != MINIMUM_ADDR_CHUNK_SIZE {
      var rs := w.rollsums[level];
      assert split(rs.rolled + a[..1]);
      assert isSplitPoint == RollBytes(rs, split, a).1;
    }
  }

  /** Closing a level of two addresses writes their block and passes its address up. */
  lemma {:induction false} ClearTwo(w: TreeWriter, split: Oracle, hash: BlockHash, level: nat, x: Address, y: Address)
    requires Shape(w) && RoomExcept(w, level) && level < |w.levels| && w.levels[level] == [x, y]
    requires |w.levels[level]| * ADDRESS_SZ <= w.maxAddrChunkSize
    ensures var s := AddAddr(w.(levels := w.levels[level := []]), split, hash, level + 1, hash(x + y));
      ClearLevel(w, split, hash, level).writes == [Write(hash(x + y), x + y)] + s.writes
      && ClearLevel(w, split, hash, level).w.levels == s.w.levels
  {
    FlattenTwo(x, y);
  }

  /** test_write_no_level: one chunk is its own root, at height 0, and the
      only chunk written. */
  lemma {:induction false} WriteNoLevel(split: Oracle, hash: BlockHash)
    ensures var t := WriteTree(MINIMUM_ADDR_CHUNK_SIZE, split, hash, [Write(Fill(1), [1, 2, 3])]);
      t.height == 0 && t.root == Fill(1) && t.writes == [Write(Fill(1), [1, 2, 3])]
      && |Store(t.writes)[t.root]| == 3
  {
    var a1 := Fill(1);
    var chunks := [Write(a1, [1, 2, 3])];
    var w0 := New(MINIMUM_ADDR_CHUNK_SIZE);
    AddAddrQuiet(w0, split, hash, 0, a1);
    var s1 := Add(w0, split, hash, a1, [1, 2, 3]);
    assert s1.w.levels == [[a1]] && s1.writes == chunks;
    assert AddAll(s1.w, split, hash, chunks[1..]) == Step(s1.w, []);
    assert AddAll(w0, split, hash, chunks) == Step(s1.w, chunks + []);
  }

  /** Closing a level of one address writes it as a block of its own. */
  lemma {:induction false} ClearOne(w: TreeWriter, split: Oracle, hash: BlockHash, level: nat, x: Address)
    requires Shape(w) && RoomExcept(w, level) && level < |w.levels| && w.levels[level] == [x]
    requires |w.levels[level]| * ADDRESS_SZ <= w.maxAddrChunkSize
    ensures var s := AddAddr(w.(levels := w.levels[level := []]), split, hash, level + 1, hash(x));
      ClearLevel(w, split, hash, level).writes == [Write(hash(x), x)] + s.writes
      && ClearLevel(w, split, hash, level).w.levels == s.w.levels
  {
    FlattenOne(x);
  }

  /** Configurations in which a level closes as soon as it holds two
      addresses: blocks with room for two addresses, or a split oracle that
      always fires (the tests' chunk mask 0). */
  ghost predicate ClosesAtTwo(maxAddrChunkSize: nat, split: Oracle)
  {
    maxAddrChunkSize == MINIMUM_ADDR_CHUNK_SIZE || forall bs :: split(bs)
  }

  /** The first chunk is only buffered. */
  lemma {:induction false} FirstAdd(w: TreeWriter, split: Oracle, hash: BlockHash, c: Write)
    requires Valid(w) && w.levels == []
    ensures var s := Add(w, split, hash, c.addr, c.data);
      s.w.levels == [[c.addr]] && s.writes == [c]
  {
    AddAddrQuiet(w, split, hash, 0, c.addr);
  }

  /** The second chunk closes the lowest level into a block one level up. */
  lemma {:induction false} SecondAdd(w: TreeWriter, split: Oracle, hash: BlockHash, a1: Address, c: Write)
    requires Valid(w) && w.levels == [[a1]] && ClosesAtTwo(w.maxAddrChunkSize, split)
    ensures var s := Add(w, split, hash, c.addr, c.data);
      var block: bytes := a1 + c.addr;
      s.w.levels == [[], [hash(block)]] && s.writes == [c, Write(hash(block), block)]
  {
    var a2 := c.addr;
    var p1: bytes := a1;
    var block: bytes := p1 + a2;
    AddAddrCloses(w, split, hash, 0, a1, a2);
    var x1 := Append(w, split, 0, a2).0;
    assert x1.levels == [[a1, a2]];
    ClearTwo(x1, split, hash, 0, a1, a2);
    var y := x1.(levels := x1.levels[0 := []]);
    AddAddrQuiet(y, split, hash, 1, hash(block));
  }

  /** A chunk added to an empty lowest level is only buffered. */
  lemma {:induction false} QuietAdd(w: TreeWriter, split: Oracle, hash: BlockHash, c: Write)
    requires Valid(w) && |w.levels| > 0 && w.levels[0] == []
    ensures var s := Add(w, split, hash, c.addr, c.data);
      s.w.levels == w.levels[0 := [c.addr]] && s.writes == [c]
  {
    AddAddrQuiet(w, split, hash, 0, c.addr);
  }

  /** Finishing with one address one level up: that address is the root. */
  lemma {:induction false} FinishTwo(w: TreeWriter, split: Oracle, hash: BlockHash, b1: Address)
    requires Valid(w) && w.levels == [[], [b1]]
    ensures Finish(w, split, hash) == Finished(1, b1, [])
  {
    assert ClearLevel(w, split, hash, 0).w.levels == w.levels;
  }

  /** Closing the lower of two single-address levels fills the upper one,
      which closes into a block at a new third level. */
  lemma {:induction false} CloseLowerOfTwo(w: TreeWriter, split: Oracle, hash: BlockHash, a3: Address, b1: Address)
    requires Valid(w) && w.levels == [[a3], [b1]] && ClosesAtTwo(w.maxAddrChunkSize, split)
    ensures var b2 := hash(a3);
      var block: bytes := b1 + b2;
      var k := ClearLevel(w, split, hash, 0);
      k.w.levels == [[], [], [hash(block)]] && k.writes == [Write(b2, a3), Write(hash(block), block)]
  {
    ClearOne(w, split, hash, 0, a3);
    var z := w.(levels := w.levels[0 := []]);
    UpperCloses(z, split, hash, b1, hash(a3));
  }

  /** A second address on the single-address level 1 closes it into a block
      at a new level 2. */
  lemma {:induction false} UpperCloses(z: TreeWriter, split: Oracle, hash: BlockHash, b1: Address, b2: Address)
    requires Shape(z) && RoomExcept(z, -1) && z.levels == [[], [b1]] && ClosesAtTwo(z.maxAddrChunkSize, split)
    ensures var block: bytes := b1 + b2;
      var s := AddAddr(z, split, hash, 1, b2);
      s.w.levels == [[], [], [hash(block)]] && s.writes == [Write(hash(block), block)]
  {
    var q1: bytes := b1;
    var block: bytes := q1 + b2;
    AddAddrCloses(z, split, hash, 1, b1, b2);
    var x2 := Append(z, split, 1, b2).0;
    assert x2.levels == [[], [b1, b2]];
    ClearTwo(x2, split, hash, 1, b1, b2);
    var u := x2.(levels := x2.levels[1 := []]);
    AddAddrQuiet(u, split, hash, 2, hash(block));
  }

  /** Finishing with one address at each of two levels: the root is the
      block of the upper address and the lower one's block, at height 2. */
  lemma {:induction false} FinishThree(w: TreeWriter, split: Oracle, hash: BlockHash, a3: Address, b1: Address)
    requires Valid(w) && w.levels == [[a3], [b1]] && ClosesAtTwo(w.maxAddrChunkSize, split)
    ensures var b2 := hash(a3);
      var block: bytes := b1 + b2;
      Finish(w, split, hash) == Finished(2, hash(block), [Write(b2, a3), Write(hash(block), block)])
  {
    CloseLowerOfTwo(w, split, hash, a3, b1);
    var k0 := ClearLevel(w, split, hash, 0);
    var k1 := ClearLevel(k0.w, split, hash, 1);
    assert k1.w.levels == k0.w.levels && k1.writes == [];
    var root := k0.w.levels[2][0];
    assert FinishLevel(k1.w, split, hash, 2) == Finished(2, root, []);
    assert FinishLevel(k0.w, split, hash, 1) == Finished(2, root, [] + []);
    assert FinishLevel(w, split, hash, 0) == Finished(2, root, k0.writes + []);
  }

  lemma {:induction false} AddAllCons(w: TreeWriter, split: Oracle, hash: BlockHash, c: Write, rest: seq<Write>)
    requires Valid(w)
    ensures var s := Add(w, split, hash, c.addr, c.data);
      AddAll(w, split, hash, [c] + rest) == Step(AddAll(s.w, split, hash, rest).w, s.writes + AddAll(s.w, split, hash, rest).writes)
  {
    assert ([c] + rest)[0] == c && ([c] + rest)[1..] == rest;
  }

  /** Two chunks: the root is the block of both addresses, at height 1. */
  lemma {:induction false} TwoChunks(max: nat, split: Oracle, hash: BlockHash, c1: Write, c2: Write)
    requires max >= MINIMUM_ADDR_CHUNK_SIZE && ClosesAtTwo(max, split)
    ensures var t := WriteTree(max, split, hash, [c1, c2]);
      var block: bytes := c1.addr + c2.addr;
      t.height == 1 && t.root == hash(block) && t.writes == [c1, c2, Write(t.root, block)]
    ensures var t := WriteTree(max, split, hash, [c1, c2]);
      |t.writes| == 3 && t.writes[2].addr == t.root && |t.writes[2].data| == 2 * ADDRESS_SZ
  {
    TwoAdds(max, split, hash, c1, c2);
    var s := AddAll(New(max), split, hash, [c1, c2]);
    var a12: bytes := c1.addr + c2.addr;
    FinishTwo(s.w, split, hash, hash(a12));
  }

  /** Adding two chunks closes their block one level up. */
  lemma {:induction false} TwoAdds(max: nat, split: Oracle, hash: BlockHash, c1: Write, c2: Write)
    requires max >= MINIMUM_ADDR_CHUNK_SIZE && ClosesAtTwo(max, split)
    ensures var s := AddAll(New(max), split, hash, [c1, c2]);
      var a12: bytes := c1.addr + c2.addr;
      Valid(s.w) && s.w.levels == [[], [hash(a12)]] && s.writes == [c1, c2, Write(hash(a12), a12)]
  {
    var w0 := New(max);
    FirstAdd(w0, split, hash, c1);
    var s1 := Add(w0, split, hash, c1.addr, c1.data);
    SecondAdd(s1.w, split, hash, c1.addr, c2);
    AddAllCons(s1.w, split, hash, c2, []);
    AddAllCons(w0, split, hash, c1, [c2]);
  }

  /** Three chunks: the root holds the block of the first two and the block
      of the third, at height 2, and six chunks are written. */
  lemma {:induction false} ThreeChunks(max: nat, split: Oracle, hash: BlockHash, c1: Write, c2: Write, c3: Write)
    requires max >= MINIMUM_ADDR_CHUNK_SIZE && ClosesAtTwo(max, split)
    ensures var t := WriteTree(max, split, hash, [c1, c2, c3]);
      var a12: bytes := c1.addr + c2.addr;
      var b1 := hash(a12);
      var b2 := hash(c3.addr);
      var b12: bytes := b1 + b2;
      t.height == 2 && t.root == hash(b12)
      && t.writes == [c1, c2, Write(b1, a12), c3, Write(b2, c3.addr), Write(t.root, b12)]
    ensures var t := WriteTree(max, split, hash, [c1, c2, c3]);
      |t.writes| == 6 && t.writes[5].addr == t.root && |t.writes[5].data| == 2 * ADDRESS_SZ
  {
    var a12: bytes := c1.addr + c2.addr;
    ThreeAdds(max, split, hash, c1, c2, c3);
    var s := AddAll(New(max), split, hash, [c1, c2, c3]);
    FinishThree(s.w, split, hash, c3.addr, hash(a12));
  }

  /** Adding three chunks leaves the third buffered below the block of the first two. */
  lemma {:induction false} ThreeAdds(max: nat, split: Oracle, hash: BlockHash, c1: Write, c2: Write, c3: Write)
    requires max >= MINIMUM_ADDR_CHUNK_SIZE && ClosesAtTwo(max, split)
    ensures var s := AddAll(New(max), split, hash, [c1, c2, c3]);
      var a12: bytes := c1.addr + c2.addr;
      s.w.maxAddrChunkSize == max
      && s.w.levels == [[c3.addr], [hash(a12)]] && s.writes == [c1, c2, Write(hash(a12), a12), c3]
  {
    var w0 := New(max);
    FirstAdd(w0, split, hash, c1);
    var s1 := Add(w0, split, hash, c1.addr, c1.data);
    SecondAdd(s1.w, split, hash, c1.addr, c2);
    var s2 := Add(s1.w, split, hash, c2.addr, c2.data);
    QuietAdd(s2.w, split, hash, c3);
    AddAllCons(s2.w, split, hash, c3, []);
    AddAllCons(s1.w, split, hash, c2, [c3]);
    AddAllCons(w0, split, hash, c1, [c2, c3]);
  }

  /** Under content addressing, writes of pairwise different contents are
      stored under as many addresses. */
  lemma {:induction false} DistinctContents(log: seq<Write>)
    requires NoCollision(log)
    requires forall i, j :: 0 <= i < j < |log| ==> log[i].data != log[j].data
    ensures |Store(log).Keys| == |log|
  {
    StoreSize(log);
  }

  /** The two single-level tests write two chunks and a root block: three
      entries in the store. */
  lemma {:induction false} SingleLevelEntries(max: nat, split: Oracle, hash: BlockHash)
    requires max >= MINIMUM_ADDR_CHUNK_SIZE && ClosesAtTwo(max, split)
    ensures var t := WriteTree(max, split, hash, [Write(Fill(1), []), Write(Fill(2), [0])]);
      |t.writes| == 3 && t.writes[2].addr == t.root && |t.writes[2].data| == 2 * ADDRESS_SZ
      && (NoCollision(t.writes) ==> |Store(t.writes).Keys| == 3)
  {
    TwoChunks(max, split, hash, Write(Fill(1), []), Write(Fill(2), [0]));
    var t := WriteTree(max, split, hash, [Write(Fill(1), []), Write(Fill(2), [0])]);
    SingleLevelLog(t.writes, t.root, t.writes[2].data);
  }

  lemma {:induction false} SingleLevelLog(log: seq<Write>, root: Address, block: bytes)
    requires |block| == 2 * ADDRESS_SZ
    requires log == [Write(Fill(1), []), Write(Fill(2), [0]), Write(root, block)]
    ensures NoCollision(log) ==> |Store(log).Keys| == 3
  {
    if NoCollision(log) {
      DistinctContents(log);
    }
  }

  /** test_write_shape_single_level: with room for two addresses per
      block, two chunks make a root block of two addresses, and the store
      holds three chunks. */
  lemma {:induction false} WriteShapeSingleLevel(split: Oracle, hash: BlockHash)
    ensures var t := WriteTree(MINIMUM_ADDR_CHUNK_SIZE, split, hash, [Write(Fill(1), []), Write(Fill(2), [0])]);
      |t.writes| == 3 && t.writes[2].addr == t.root && |t.writes[2].data| == 2 * ADDRESS_SZ
      && (NoCollision(t.writes) ==> |Store(t.writes).Keys| == 3)
  {
    SingleLevelEntries(MINIMUM_ADDR_CHUNK_SIZE, split, hash);
  }

  /** test_write_shape_single_level_content_split: large blocks, but a
      rollsum that always splits. */
  lemma {:induction false} WriteShapeSingleLevelContentSplit(hash: BlockHash)
    ensures var t := WriteTree(SENSIBLE_ADDR_MAX_CHUNK_SIZE, _ => true, hash, [Write(Fill(1), []), Write(Fill(2), [0])]);
      |t.writes| == 3 && t.writes[2].addr == t.root && |t.writes[2].data| == 2 * ADDRESS_SZ
      && (NoCollision(t.writes) ==> |Store(t.writes).Keys| == 3)
  {
    SingleLevelEntries(SENSIBLE_ADDR_MAX_CHUNK_SIZE, _ => true, hash);
  }

  /** test_write_shape_two_levels: three chunks give six written chunks and a
      root block of two addresses. */
  lemma {:induction false} WriteShapeTwoLevels(split: Oracle, hash: BlockHash)
    ensures var t := WriteTree(MINIMUM_ADDR_CHUNK_SIZE, split, hash, [Write(Fill(1), []), Write(Fill(2), [0]), Write(Fill(3), [1, 2, 3])]);
      |t.writes| == 6 && t.writes[5].addr == t.root && |t.writes[5].data| == 2 * ADDRESS_SZ
      && (NoCollision(t.writes) ==> |Store(t.writes).Keys| == 6)
  {
    TwoLevelEntries(MINIMUM_ADDR_CHUNK_SIZE, split, hash);
  }

  /** test_write_shape_two_levels_content_split. */
  lemma {:induction false} WriteShapeTwoLevelsContentSplit(hash: BlockHash)
    ensures var t := WriteTree(SENSIBLE_ADDR_MAX_CHUNK_SIZE, _ => true, hash, [Write(Fill(1), []), Write(Fill(2), [0]), Write(Fill(3), [1, 2, 3])]);
      |t.writes| == 6 && t.writes[5].addr == t.root && |t.writes[5].data| == 2 * ADDRESS_SZ
      && (NoCollision(t.writes) ==> |Store(t.writes).Keys| == 6)
  {
    TwoLevelEntries(SENSIBLE_ADDR_MAX_CHUNK_SIZE, _ => true, hash);
  }

  /** The two two-level tests write three chunks and three blocks: six
      entries in the store. The two blocks of two addresses differ, since
      the root block starts with the address of a block, which under content
      addressing is not the address of the empty first chunk. */
  lemma {:induction false} TwoLevelEntries(max: nat, split: Oracle, hash: BlockHash)
    requires max >= MINIMUM_ADDR_CHUNK_SIZE && ClosesAtTwo(max, split)
    ensures var t := WriteTree(max, split, hash, [Write(Fill(1), []), Write(Fill(2), [0]), Write(Fill(3), [1, 2, 3])]);
      |t.writes| == 6 && t.writes[5].addr == t.root && |t.writes[5].data| == 2 * ADDRESS_SZ
      && (NoCollision(t.writes) ==> |Store(t.writes).Keys| == 6)
  {
    var c1, c2, c3 := Write(Fill(1), []), Write(Fill(2), [0]), Write(Fill(3), [1, 2, 3]);
    ThreeChunks(max, split, hash, c1, c2, c3);
    var t := WriteTree(max, split, hash, [c1, c2, c3]);
    TwoLevelLog(t.writes, c1.addr + c2.addr, t.writes[2].addr, t.writes[4].addr, t.root);
  }

  lemma {:induction false} TwoLevelLog(log: seq<Write>, a12: bytes, b1: Address, b2: Address, root: Address)
    requires a12 == Fill(1) + Fill(2)
    requires log == [Write(Fill(1), []), Write(Fill(2), [0]), Write(b1, a12), Write(Fill(3), [1, 2, 3]), Write(b2, Fill(3)), Write(root, b1 + b2)]
    ensures NoCollision(log) ==> |Store(log).Keys| == 6
  {
    if NoCollision(log) {
      assert log[2].data != log[0].data;
      TwoLevelContents(log, a12, b1, b2, root);
      DistinctContents(log);
    }
  }

  /** The six writes of the two-level tests differ in content once the first
      block's address is not the first chunk's. */
  lemma {:induction false} TwoLevelContents(log: seq<Write>, a12: bytes, b1: Address, b2: Address, root: Address)
    requires a12 == Fill(1) + Fill(2) && b1 != Fill(1)
    requires log == [Write(Fill(1), []), Write(Fill(2), [0]), Write(b1, a12), Write(Fill(3), [1, 2, 3]), Write(b2, Fill(3)), Write(root, b1 + b2)]
    ensures forall i, j :: 0 <= i < j < |log| ==> log[i].data != log[j].data
  {
    assert a12[..ADDRESS_SZ] == Fill(1) && (b1 + b2)[..ADDRESS_SZ] == b1;
    assert a12 != b1 + b2;
  }

  /** The walk of a block of two addresses. */
  lemma {:induction false} WalkTwo(store: map<Address, bytes>, h: nat, x: Address, y: Address)
    ensures WalkBytes(store, h, x + y) == Then(WalkNode(store, h, x), WalkNode(store, h, y))
  {
    FlattenTwo(x, y);
    FlattenOne(x);
    FlattenOne(y);
    assert [x, y] == [x] + [y];
    WalkFlattenAppend(store, h, [x], [y]);
    WalkOne(store, h, x);
    WalkOne(store, h, y);
  }

  /** The reference walk of a two-level tree whose root block holds two
      blocks of two and one leaves. */
  lemma {:induction false} WalkThreeLeaves(store: map<Address, bytes>, root: Address, b1: Address, b2: Address, a1: Address, a2: Address, a3: Address)
    requires root in store && b1 in store && b2 in store
    requires store[root] == b1 + b2 && store[b1] == a1 + a2 && store[b2] == a3
    ensures WalkNode(store, 2, root)
         == Ok([Visit(2, root), Visit(1, b1), Visit(0, a1), Visit(0, a2), Visit(1, b2), Visit(0, a3)])
  {
    WalkTwo(store, 1, b1, b2);
    WalkTwo(store, 0, a1, a2);
    WalkOne(store, 0, a3);
    var l1 := [Visit(0, a1), Visit(0, a2)];
    assert WalkBytes(store, 0, a1 + a2) == Ok(l1) by {
      assert [Visit(0, a1)] + [Visit(0, a2)] == l1;
    }
    var n1 := [Visit(1, b1)] + l1;
    assert WalkNode(store, 1, b1) == Ok(n1);
    var n2 := [Visit(1, b2), Visit(0, a3)];
    assert WalkNode(store, 1, b2) == Ok(n2) by {
      assert [Visit(1, b2)] + [Visit(0, a3)] == n2;
    }
    assert WalkBytes(store, 1, b1 + b2) == Ok(n1 + n2);
    assert [Visit(2, root)] + (n1 + n2)
        == [Visit(2, root), Visit(1, b1), Visit(0, a1), Visit(0, a2), Visit(1, b2), Visit(0, a3)];
  }

  /** test_tree_reader_walk: reading back the three-chunk tree visits six
      addresses, three of them leaves, given any store holding every written chunk. */
  lemma {:induction false} TreeReaderWalk(split: Oracle, hash: BlockHash, store: map<Address, bytes>)
    requires AllHeld(store, WriteTree(MINIMUM_ADDR_CHUNK_SIZE, split, hash, [Write(Fill(1), []), Write(Fill(2), [0]), Write(Fill(3), [1, 2, 3])]).writes)
    ensures var t := WriteTree(MINIMUM_ADDR_CHUNK_SIZE, split, hash, [Write(Fill(1), []), Write(Fill(2), [0]), Write(Fill(3), [1, 2, 3])]);
      var walk := TreeReader.Walk(TreeReader.New(t.height, t.root), store);
      walk.Ok? && |walk.value| == 6 && |Leaves(walk.value)| == 3
  {
    var c1, c2, c3 := Write(Fill(1), []), Write(Fill(2), [0]), Write(Fill(3), [1, 2, 3]);
    var chunks := [c1, c2, c3];
    var t := WriteTree(MINIMUM_ADDR_CHUNK_SIZE, split, hash, chunks);
    ThreeChunks(MINIMUM_ADDR_CHUNK_SIZE, split, hash, c1, c2, c3);
    WriteThenRead(MINIMUM_ADDR_CHUNK_SIZE, split, hash, chunks, store);
    TreeReader.WalkFromRoot(t.height, t.root, store);
    var a12: bytes := c1.addr + c2.addr;
    WalkWritten(store, c1, c2, c3, hash(a12), hash(c3.addr), t.root);
  }

  /** The walk of a store holding the six writes of a three-chunk tree. */
  lemma {:induction false} WalkWritten(store: map<Address, bytes>, c1: Write, c2: Write, c3: Write, b1: Address, b2: Address, root: Address)
    requires var a12: bytes := c1.addr + c2.addr;
      var b12: bytes := b1 + b2;
      AllHeld(store, [c1, c2, Write(b1, a12), c3, Write(b2, c3.addr), Write(root, b12)])
    ensures WalkNode(store, 2, root)
         == Ok([Visit(2, root), Visit(1, b1), Visit(0, c1.addr), Visit(0, c2.addr), Visit(1, b2), Visit(0, c3.addr)])
  {
    var a12: bytes := c1.addr + c2.addr;
    var b12: bytes := b1 + b2;
    var writes := [c1, c2, Write(b1, a12), c3, Write(b2, c3.addr), Write(root, b12)];
    assert Holds(store, writes[2]) && Holds(store, writes[4]) && Holds(store, writes[5]);
    WalkThreeLeaves(store, root, b1, b2, c1.addr, c2.addr, c3.addr);
  }
}
