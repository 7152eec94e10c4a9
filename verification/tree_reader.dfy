/** `TreeReader` (src/htree.rs): a stack of blocks, each with its height and
    a read offset, from which addresses are taken in depth-first order. */
module TreeReader {
  import opened Wrappers
  import opened Bytes
  import opened HTree

  datatype Frame = Frame(block: bytes, height: nat, offset: nat)

  /** The last frame is the top of the stack. */
  datatype TreeReader = TreeReader(frames: seq<Frame>)

  /** One `next_addr` call: its result and the reader afterwards. */
  datatype Next = Next(res: Result<Option<Visit>, HTreeError>, reader: TreeReader)

  predicate FrameValid(f: Frame)
  {
    f.offset <= |f.block|
  }

  predicate Valid(r: TreeReader)
  {
    forall i :: 0 <= i < |r.frames| ==> FrameValid(r.frames[i])
  }

  /** The unread part of a frame's block. */
  function Remaining(f: Frame): bytes
    requires FrameValid(f)
  {
    f.block[f.offset..]
  }

  /** `TreeReader::new`: a stack holding the root address as a one-address block. */
  function New(level: nat, addr: Address): (r: TreeReader)
    ensures Valid(r) && |r.frames| == 1
    ensures Remaining(r.frames[0]) == addr && r.frames[0].height == level
  {
    TreeReader([Frame(addr, level, 0)])
  }

  /** `TreeReader::push_level`: a fetched block goes on top, read from its start. */
  function PushLevel(r: TreeReader, level: nat, data: bytes): (r': TreeReader)
    requires Valid(r)
    ensures Valid(r') && |r'.frames| == |r.frames| + 1 && r'.frames[..|r.frames|] == r.frames
    ensures Remaining(r'.frames[|r.frames|]) == data && r'.frames[|r.frames|].height == level
  {
    TreeReader(r.frames + [Frame(data, level, 0)])
  }

  /** `TreeReader::pop`. */
  function Pop(r: TreeReader): (r': TreeReader)
    requires |r.frames| > 0
    ensures r'.frames == r.frames[..|r.frames| - 1]
  {
    TreeReader(r.frames[..|r.frames| - 1])
  }

  predicate Exhausted(f: Frame)
  {
    f.offset >= |f.block|
  }

  /** The stack once the exhausted blocks on top of it have been popped. */
  function DropExhausted(frames: seq<Frame>): (live: seq<Frame>)
    ensures |live| <= |frames| && live == frames[..|live|]
    ensures |live| > 0 ==> !Exhausted(live[|live| - 1])
    ensures forall i :: |live| <= i < |frames| ==> Exhausted(frames[i])
    decreases |frames|
  {
    if |frames| == 0 then []
    else if Exhausted(frames[|frames| - 1]) then DropExhausted(frames[..|frames| - 1])
    else frames
  }

  /** `TreeReader::next_addr`: drop exhausted blocks, then take one address
      from the top block; a top block ending in a partial address is corrupt. */
  function NextAddr(r: TreeReader): (n: Next)
    requires Valid(r)
    ensures Valid(n.reader)
    ensures n.res == Ok(None) <==> forall i :: 0 <= i < |r.frames| ==> Exhausted(r.frames[i])
    ensures n.res.Err? ==> n.res.error == CorruptOrTamperedDataError
    ensures n.res.Ok? && n.res.value.Some? ==> 0 < |n.reader.frames| <= |r.frames|
    decreases |r.frames|
  {
    if |r.frames| == 0 then Next(Ok(None), r)
    else
      var top := r.frames[|r.frames| - 1];
      var remaining := Remaining(top);
      if |remaining| == 0 then
        NextAddr(Pop(r))
      else if |remaining| < ADDRESS_SZ then
        Next(Err(CorruptOrTamperedDataError), r)
      else
        var advanced := top.(offset := top.offset + ADDRESS_SZ);
        Next(Ok(Some(Visit(top.height, remaining[..ADDRESS_SZ]))), TreeReader(r.frames[..|r.frames| - 1] + [advanced]))
  }

  /** What `next_addr` returns: past the exhausted blocks, the top block
      either ends in a partial address, which is an error, or yields its next
      address at its height and advances by one address. */
  lemma {:induction false} NextAddrSpec(r: TreeReader)
    requires Valid(r)
    ensures var live := DropExhausted(r.frames);
      |live| > 0 ==>
        var top := live[|live| - 1];
        var n := NextAddr(r);
        && (|Remaining(top)| < ADDRESS_SZ ==> n == Next(Err(CorruptOrTamperedDataError), TreeReader(live)))
        && (|Remaining(top)| >= ADDRESS_SZ ==>
              && n.res == Ok(Some(Visit(top.height, Remaining(top)[..ADDRESS_SZ])))
              && n.reader.frames == live[..|live| - 1] + [top.(offset := top.offset + ADDRESS_SZ)])
    decreases |r.frames|
  {
    if |r.frames| > 0 && Exhausted(r.frames[|r.frames| - 1]) {
      NextAddrSpec(Pop(r));
    }
  }

  // ---------------------------------------------------------------------
  // The walk a reader performs, as in the module's reader test

  /** The reference walk of every frame's unread bytes, top of the stack first. */
  function RefFrames(store: map<Address, bytes>, frames: seq<Frame>): Walked
    requires forall i :: 0 <= i < |frames| ==> FrameValid(frames[i])
    decreases |frames|
  {
    if |frames| == 0 then Ok([])
    else
      var top := frames[|frames| - 1];
      Then(WalkBytes(store, top.height, Remaining(top)), RefFrames(store, frames[..|frames| - 1]))
  }

  /** The number of addresses a walk from these frames would still visit. */
  function Work(store: map<Address, bytes>, frames: seq<Frame>): nat
    requires forall i :: 0 <= i < |frames| ==> FrameValid(frames[i])
    decreases |frames|
  {
    if |frames| == 0 then 0
    else
      var top := frames[|frames| - 1];
      SizeBytes(store, top.height, Remaining(top)) + Work(store, frames[..|frames| - 1])
  }

  /** One step of `next_addr`, read against the reference walk: the frames
      walk to nothing, to the same error, or to the returned address's
      subtree followed by what the reader still holds. */
  lemma {:induction false} NextAddrRef(r: TreeReader, store: map<Address, bytes>)
    requires Valid(r)
    ensures var n := NextAddr(r);
      match n.res
      case Err(e) => RefFrames(store, r.frames) == Err(e)
      case Ok(None) => RefFrames(store, r.frames) == Ok([])
      case Ok(Some(v)) =>
        RefFrames(store, r.frames) == Then(WalkNode(store, v.height, v.addr), RefFrames(store, n.reader.frames))
    decreases |r.frames|
  {
    if |r.frames| > 0 {
      var top := r.frames[|r.frames| - 1];
      var init := r.frames[..|r.frames| - 1];
      var remaining := Remaining(top);
      if |remaining| == 0 {
        ThenUnit(RefFrames(store, init));
        NextAddrRef(Pop(r), store);
      } else if |remaining| >= ADDRESS_SZ {
        var advanced := top.(offset := top.offset + ADDRESS_SZ);
        var frames' := init + [advanced];
        assert frames'[..|frames'| - 1] == init;
        assert Remaining(advanced) == remaining[ADDRESS_SZ..];
        ThenAssoc(WalkNode(store, top.height, remaining[..ADDRESS_SZ]), WalkBytes(store, top.height, remaining[ADDRESS_SZ..]), RefFrames(store, init));
      }
    }
  }

  /** Each address `next_addr` returns takes its subtree's share of the work. */
  lemma {:induction false} NextAddrWork(r: TreeReader, store: map<Address, bytes>)
    requires Valid(r)
    ensures var n := NextAddr(r);
      n.res.Ok? && n.res.value.Some? ==>
        Work(store, r.frames) == SizeNode(store, n.res.value.value.height, n.res.value.value.addr) + Work(store, n.reader.frames)
    decreases |r.frames|
  {
    if |r.frames| > 0 {
      var top := r.frames[|r.frames| - 1];
      var init := r.frames[..|r.frames| - 1];
      var remaining := Remaining(top);
      if |remaining| == 0 {
        NextAddrWork(Pop(r), store);
      } else if |remaining| >= ADDRESS_SZ {
        var advanced := top.(offset := top.offset + ADDRESS_SZ);
        var frames' := init + [advanced];
        assert frames'[..|frames'| - 1] == init;
        assert Remaining(advanced) == remaining[ADDRESS_SZ..];
      }
    }
  }

  lemma {:induction false} PushWork(r: TreeReader, level: nat, data: bytes, store: map<Address, bytes>)
    requires Valid(r)
    ensures Work(store, PushLevel(r, level, data).frames) == SizeBytes(store, level, data) + Work(store, r.frames)
  {
    var r' := PushLevel(r, level, data);
    assert r'.frames[..|r'.frames| - 1] == r.frames;
  }

  /** Fetching a visited block and pushing it leaves less work than before the visit. */
  lemma {:induction false} PushShrinks(r0: TreeReader, r: TreeReader, v: Visit, store: map<Address, bytes>)
    requires Valid(r0) && Valid(r)
    requires Work(store, r0.frames) == SizeNode(store, v.height, v.addr) + Work(store, r.frames)
    requires v.height != 0 && v.addr in store
    ensures Work(store, PushLevel(r, v.height - 1, store[v.addr]).frames) < Work(store, r0.frames)
  {
    PushWork(r, v.height - 1, store[v.addr], store);
  }

  /** The module's reader test as a function: repeatedly take the next
      address and, above the leaves, fetch its block and push it. */
  function Walk(r: TreeReader, store: map<Address, bytes>): Walked
    requires Valid(r)
    decreases Work(store, r.frames)
  {
    var n := NextAddr(r);
    NextAddrWork(r, store);
    if n.res.Err? then Err(n.res.error)
    else if n.res.value.None? then Ok([])
    else
      var v := n.res.value.value;
      if v.height == 0 then
        Prepend(v, Walk(n.reader, store))
      else if v.addr !in store then
        Err(GetChunk(store, v.addr).error)
      else
        PushShrinks(r, n.reader, v, store);
        Prepend(v, Walk(PushLevel(n.reader, v.height - 1, store[v.addr]), store))
  }

  /** The reader's iterative walk visits exactly what the recursive
      reference walk visits, and fails with the same error. */
  lemma {:induction false} WalkIsReference(r: TreeReader, store: map<Address, bytes>)
    requires Valid(r)
    ensures Walk(r, store) == RefFrames(store, r.frames)
    decreases Work(store, r.frames)
  {
    var n := NextAddr(r);
    NextAddrRef(r, store);
    NextAddrWork(r, store);
    if n.res.Ok? && n.res.value.Some? {
      var v := n.res.value.value;
      var rest := RefFrames(store, n.reader.frames);
      if v.height == 0 {
        WalkIsReference(n.reader, store);
        assert Walk(r, store) == Prepend(v, Walk(n.reader, store));
        assert WalkNode(store, 0, v.addr) == Ok([v]);
      } else if v.addr in store {
        var data := store[v.addr];
        var r' := PushLevel(n.reader, v.height - 1, data);
        PushShrinks(r, n.reader, v, store);
        WalkIsReference(r', store);
        assert Walk(r, store) == Prepend(v, Walk(r', store));
        assert r'.frames[..|r'.frames| - 1] == n.reader.frames;
        assert RefFrames(store, r'.frames) == Then(WalkBytes(store, v.height - 1, data), rest);
        PrependThen(v, WalkBytes(store, v.height - 1, data), rest);
      }
    }
  }

  /** Walking a tree from its root visits what the reference walk of the root visits. */
  lemma {:induction false} WalkFromRoot(height: nat, root: Address, store: map<Address, bytes>)
    ensures Walk(New(height, root), store) == WalkNode(store, height, root)
  {
    var r := New(height, root);
    WalkIsReference(r, store);
    assert r.frames[..0] == [];
    WalkOne(store, height, root);
    ThenUnit(WalkNode(store, height, root));
  }
}
