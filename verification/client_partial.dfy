/** `receive_partial_htree` (src/client.rs): a restore of only some files
    of a tarball. The pick map lists the data chunks wanted as inclusive
    ranges of chunk indices, and for the chunks only partly wanted, the byte
    ranges to keep. The client filters each height-1 block down to the
    wanted children, remembers their indices in a queue, and writes each
    leaf (or its wanted slices) as it arrives. */
module ClientPartial {
  import opened Wrappers
  import opened Bytes
  import opened HTree
  import opened TR = TreeReader
  import opened Crypto
  import opened Box
  import opened Protocol
  import opened ClientReceive

  /** `index::HTreeDataRange`: data chunks `startIdx` to `endIdx`, both included. */
  datatype ChunkRange = ChunkRange(startIdx: nat, endIdx: nat)

  /** A byte range `start..end` of one chunk's plaintext. */
  datatype ByteRange = ByteRange(start: nat, end: nat)

  /** `index::PickMap`, without its `size` (which only a debug assertion reads). */
  datatype PickMap = PickMap(ranges: seq<ChunkRange>, incomplete: map<nat, seq<ByteRange>>, isSubtar: bool)

  /** The ranges a pick map is built with: each non-empty, in ascending
      order, and not touching. */
  predicate WellFormed(ranges: seq<ChunkRange>)
  {
    && (forall j :: 0 <= j < |ranges| ==> ranges[j].startIdx <= ranges[j].endIdx)
    && (forall j :: 0 <= j < |ranges| - 1 ==> ranges[j].endIdx < ranges[j + 1].startIdx)
  }

  predicate InRanges(ranges: seq<ChunkRange>, i: nat)
  {
    exists j :: 0 <= j < |ranges| && ranges[j].startIdx <= i <= ranges[j].endIdx
  }

  // ---------------------------------------------------------------------
  // The height-1 filter

  /** `range_idx` and `current_data_chunk_idx`. */
  datatype Cursor = Cursor(rangeIdx: nat, cur: nat)

  /** The kept address bytes, the cursor after the block, and the indices
      of the kept children in order. */
  datatype Filtered = Filtered(kept: bytes, at: Cursor, picked: seq<nat>)

  /** The loop over `data.chunks(ADDRESS_SZ)` of a height-1 block: while a
      range remains, each child is kept iff its index lies in the current
      range, the index advances, and the range advances once the index passes
      its end; after the last range nothing changes. */
  function FilterBlock(ranges: seq<ChunkRange>, c: Cursor, data: bytes): (f: Filtered)
    ensures |f.kept| <= |data|
    decreases |data|
  {
    if |data| == 0 then Filtered([], c, [])
    else
      var n := if |data| < ADDRESS_SZ then |data| else ADDRESS_SZ;
      if c.rangeIdx >= |ranges| then FilterBlock(ranges, c, data[n..])
      else
        var r := ranges[c.rangeIdx];
        var keep := r.startIdx <= c.cur <= r.endIdx;
        var c1 := Cursor(if c.cur + 1 > r.endIdx then c.rangeIdx + 1 else c.rangeIdx, c.cur + 1);
        var rest := FilterBlock(ranges, c1, data[n..]);
        Filtered((if keep then data[..n] else []) + rest.kept, rest.at, (if keep then [c.cur] else []) + rest.picked)
  }

  /** The children `addrs[i]` whose index `base + i` is wanted. */
  function SelectAddrs(ranges: seq<ChunkRange>, addrs: seq<Address>, base: nat): (r: seq<Address>)
    ensures |r| <= |addrs|
  {
    if |addrs| == 0 then []
    else (if InRanges(ranges, base) then [addrs[0]] else []) + SelectAddrs(ranges, addrs[1..], base + 1)
  }

  /** The wanted indices among `base .. base + n - 1`, ascending. */
  function Kept(ranges: seq<ChunkRange>, base: nat, n: nat): (r: seq<nat>)
    ensures |r| <= n
    ensures forall k :: 0 <= k < |r| ==> base <= r[k] < base + n && InRanges(ranges, r[k])
    decreases n
  {
    if n == 0 then []
    else (if InRanges(ranges, base) then [base] else []) + Kept(ranges, base + 1, n - 1)
  }

  /** Where the filter stands: every range before the current one ended
      before the index, and the index has not passed the current range. */
  predicate CursorOk(ranges: seq<ChunkRange>, c: Cursor)
  {
    && c.rangeIdx <= |ranges|
    && (c.rangeIdx < |ranges| ==> c.cur <= ranges[c.rangeIdx].endIdx)
    && (forall j :: 0 <= j < c.rangeIdx ==> ranges[j].endIdx < c.cur)
  }

  lemma {:induction false} RangesApart(ranges: seq<ChunkRange>, a: nat, b: nat)
    requires WellFormed(ranges) && a < b < |ranges|
    ensures ranges[a].endIdx < ranges[b].startIdx
    decreases b - a
  {
    if a + 1 < b {
      RangesApart(ranges, a + 1, b);
    }
  }

  /** At a well-placed cursor, an index is wanted iff it lies in the current range. */
  lemma {:induction false} InCurrentRange(ranges: seq<ChunkRange>, c: Cursor)
    requires WellFormed(ranges) && CursorOk(ranges, c) && c.rangeIdx < |ranges|
    ensures InRanges(ranges, c.cur) <==> ranges[c.rangeIdx].startIdx <= c.cur <= ranges[c.rangeIdx].endIdx
  {
    if InRanges(ranges, c.cur) {
      var j :| 0 <= j < |ranges| && ranges[j].startIdx <= c.cur <= ranges[j].endIdx;
      if j > c.rangeIdx {
        RangesApart(ranges, c.rangeIdx, j);
      }
    }
  }

  /** Once the ranges are used up, no later index is wanted: this is why
      `receive_partial_htree` stops descending into blocks above height 1. */
  lemma {:induction false} NothingAhead(ranges: seq<ChunkRange>, c: Cursor, i: nat)
    requires CursorOk(ranges, c) && c.rangeIdx == |ranges| && i >= c.cur
    ensures !InRanges(ranges, i)
  {
  }

  lemma {:induction false} NothingSelected(ranges: seq<ChunkRange>, c: Cursor, addrs: seq<Address>, base: nat)
    requires CursorOk(ranges, c) && c.rangeIdx == |ranges| && base >= c.cur
    ensures SelectAddrs(ranges, addrs, base) == [] && Kept(ranges, base, |addrs|) == []
    decreases |addrs|
  {
    if |addrs| > 0 {
      NothingAhead(ranges, c, base);
      NothingSelected(ranges, c, addrs[1..], base + 1);
    }
  }

  /** The filter keeps exactly the wanted children of a block, in order, and
      queues exactly their indices; the cursor stays well placed. */
  lemma {:induction false} FilterSelects(ranges: seq<ChunkRange>, c: Cursor, addrs: seq<Address>)
    requires WellFormed(ranges) && CursorOk(ranges, c)
    ensures var f := FilterBlock(ranges, c, Flatten(addrs));
      && f.kept == Flatten(SelectAddrs(ranges, addrs, c.cur))
      && f.picked == Kept(ranges, c.cur, |addrs|)
      && CursorOk(ranges, f.at)
      && (f.at.rangeIdx < |ranges| ==> f.at.cur == c.cur + |addrs|)
  {
    FilterContent(ranges, c, addrs);
    FilterCursor(ranges, c, addrs);
  }

  /** What the filter keeps and queues. */
  lemma {:induction false} FilterContent(ranges: seq<ChunkRange>, c: Cursor, addrs: seq<Address>)
    requires WellFormed(ranges) && CursorOk(ranges, c)
    ensures var f := FilterBlock(ranges, c, Flatten(addrs));
      && f.kept == Flatten(SelectAddrs(ranges, addrs, c.cur))
      && f.picked == Kept(ranges, c.cur, |addrs|)
  {
    FilterKept(ranges, c, addrs);
    FilterPicked(ranges, c, addrs);
  }

  /** The filter keeps exactly the wanted children, in order. */
  lemma {:induction false} FilterKept(ranges: seq<ChunkRange>, c: Cursor, addrs: seq<Address>)
    requires WellFormed(ranges) && CursorOk(ranges, c)
    ensures FilterBlock(ranges, c, Flatten(addrs)).kept == Flatten(SelectAddrs(ranges, addrs, c.cur))
    decreases |addrs|
  {
    if |addrs| > 0 {
      if c.rangeIdx >= |ranges| {
        NothingSelected(ranges, c, addrs, c.cur);
        FilterExhausted(ranges, c, Flatten(addrs));
      } else {
        var r := ranges[c.rangeIdx];
        var c1 := Cursor(if c.cur + 1 > r.endIdx then c.rangeIdx + 1 else c.rangeIdx, c.cur + 1);
        InCurrentRange(ranges, c);
        CursorStep(ranges, c);
        FilterKept(ranges, c1, addrs[1..]);
        FilterStep(ranges, c, addrs);
        SelectCons(ranges, addrs, c.cur);
        var kept := FilterBlock(ranges, c, Flatten(addrs)).kept;
        var restKept := FilterBlock(ranges, c1, Flatten(addrs[1..])).kept;
        var sel := Flatten(SelectAddrs(ranges, addrs, c.cur));
        var selRest := Flatten(SelectAddrs(ranges, addrs[1..], c.cur + 1));
        var head: bytes := addrs[0];
        if r.startIdx <= c.cur <= r.endIdx {
          KeptJoin(kept, restKept, sel, selRest, head);
        } else {
          KeptJoin(kept, restKept, sel, selRest, []);
        }
      }
    }
  }

  lemma {:induction false} KeptJoin(kept: bytes, restKept: bytes, sel: bytes, selRest: bytes, head: bytes)
    requires kept == head + restKept && sel == head + selRest && restKept == selRest
    ensures kept == sel
  {
  }

  /** The filter queues exactly the wanted indices, ascending. */
  lemma {:induction false} FilterPicked(ranges: seq<ChunkRange>, c: Cursor, addrs: seq<Address>)
    requires WellFormed(ranges) && CursorOk(ranges, c)
    ensures FilterBlock(ranges, c, Flatten(addrs)).picked == Kept(ranges, c.cur, |addrs|)
    decreases |addrs|
  {
    if |addrs| > 0 {
      if c.rangeIdx >= |ranges| {
        NothingSelected(ranges, c, addrs, c.cur);
        FilterExhausted(ranges, c, Flatten(addrs));
      } else {
        var r := ranges[c.rangeIdx];
        var c1 := Cursor(if c.cur + 1 > r.endIdx then c.rangeIdx + 1 else c.rangeIdx, c.cur + 1);
        InCurrentRange(ranges, c);
        CursorStep(ranges, c);
        FilterPicked(ranges, c1, addrs[1..]);
        FilterStep(ranges, c, addrs);
        KeptCons(ranges, c.cur, |addrs|);
      }
    }
  }

  /** Where the filter leaves its cursor. */
  lemma {:induction false} FilterCursor(ranges: seq<ChunkRange>, c: Cursor, addrs: seq<Address>)
    requires WellFormed(ranges) && CursorOk(ranges, c)
    ensures var f := FilterBlock(ranges, c, Flatten(addrs));
      && CursorOk(ranges, f.at)
      && (f.at.rangeIdx < |ranges| ==> f.at.cur == c.cur + |addrs|)
    decreases |addrs|
  {
    if |addrs| > 0 {
      if c.rangeIdx >= |ranges| {
        FilterExhausted(ranges, c, Flatten(addrs));
      } else {
        var r := ranges[c.rangeIdx];
        var c1 := Cursor(if c.cur + 1 > r.endIdx then c.rangeIdx + 1 else c.rangeIdx, c.cur + 1);
        CursorStep(ranges, c);
        FilterCursor(ranges, c1, addrs[1..]);
        FilterStep(ranges, c, addrs);
      }
    }
  }

  lemma {:induction false} KeptCons(ranges: seq<ChunkRange>, base: nat, n: nat)
    requires n > 0
    ensures Kept(ranges, base, n) == (if InRanges(ranges, base) then [base] else []) + Kept(ranges, base + 1, n - 1)
  {
  }

  /** One child of the filter loop, on a block of whole addresses. */
  lemma {:induction false} FilterStep(ranges: seq<ChunkRange>, c: Cursor, addrs: seq<Address>)
    requires |addrs| > 0 && c.rangeIdx < |ranges|
    ensures var r := ranges[c.rangeIdx];
      var keep := r.startIdx <= c.cur <= r.endIdx;
      var c1 := Cursor(if c.cur + 1 > r.endIdx then c.rangeIdx + 1 else c.rangeIdx, c.cur + 1);
      var rest := FilterBlock(ranges, c1, Flatten(addrs[1..]));
      var head: bytes := addrs[0];
      FilterBlock(ranges, c, Flatten(addrs)) ==
        Filtered((if keep then head else []) + rest.kept, rest.at, (if keep then [c.cur] else []) + rest.picked)
  {
    FlattenHead(addrs);
    FilterUnfold(ranges, c, Flatten(addrs));
  }

  lemma {:induction false} FilterUnfold(ranges: seq<ChunkRange>, c: Cursor, data: bytes)
    requires |data| >= ADDRESS_SZ && c.rangeIdx < |ranges|
    ensures var r := ranges[c.rangeIdx];
      var keep := r.startIdx <= c.cur <= r.endIdx;
      var c1 := Cursor(if c.cur + 1 > r.endIdx then c.rangeIdx + 1 else c.rangeIdx, c.cur + 1);
      var rest := FilterBlock(ranges, c1, data[ADDRESS_SZ..]);
      FilterBlock(ranges, c, data) ==
        Filtered((if keep then data[..ADDRESS_SZ] else []) + rest.kept, rest.at, (if keep then [c.cur] else []) + rest.picked)
  {
  }

  lemma {:induction false} FlattenHead(addrs: seq<Address>)
    requires |addrs| > 0
    ensures Flatten(addrs)[..ADDRESS_SZ] == addrs[0] && Flatten(addrs)[ADDRESS_SZ..] == Flatten(addrs[1..])
  {
    var p: bytes := addrs[0];
    assert Flatten(addrs) == p + Flatten(addrs[1..]);
  }

  lemma {:induction false} SelectCons(ranges: seq<ChunkRange>, addrs: seq<Address>, base: nat)
    requires |addrs| > 0
    ensures var head: bytes := addrs[0];
      Flatten(SelectAddrs(ranges, addrs, base)) ==
      (if InRanges(ranges, base) then head else []) + Flatten(SelectAddrs(ranges, addrs[1..], base + 1))
  {
    var rest := SelectAddrs(ranges, addrs[1..], base + 1);
    if InRanges(ranges, base) {
      FlattenAppend([addrs[0]], rest);
      FlattenOne(addrs[0]);
    } else {
      assert SelectAddrs(ranges, addrs, base) == rest;
    }
  }

  lemma {:induction false} CursorStep(ranges: seq<ChunkRange>, c: Cursor)
    requires WellFormed(ranges) && CursorOk(ranges, c) && c.rangeIdx < |ranges|
    ensures var r := ranges[c.rangeIdx];
      CursorOk(ranges, Cursor(if c.cur + 1 > r.endIdx then c.rangeIdx + 1 else c.rangeIdx, c.cur + 1))
  {
    var r := ranges[c.rangeIdx];
    if c.cur + 1 > r.endIdx && c.rangeIdx + 1 < |ranges| {
      assert r.endIdx < ranges[c.rangeIdx + 1].startIdx;
    }
  }

  lemma {:induction false} FilterExhausted(ranges: seq<ChunkRange>, c: Cursor, data: bytes)
    requires c.rangeIdx >= |ranges|
    ensures FilterBlock(ranges, c, data) == Filtered([], c, [])
    decreases |data|
  {
    if |data| > 0 {
      var n := if |data| < ADDRESS_SZ then |data| else ADDRESS_SZ;
      FilterExhausted(ranges, c, data[n..]);
    }
  }

  lemma {:induction false} SelectKeptLength(ranges: seq<ChunkRange>, addrs: seq<Address>, base: nat)
    ensures |SelectAddrs(ranges, addrs, base)| == |Kept(ranges, base, |addrs|)|
    decreases |addrs|
  {
    if |addrs| > 0 {
      SelectKeptLength(ranges, addrs[1..], base + 1);
    }
  }

  // ---------------------------------------------------------------------
  // What a leaf contributes

  function MinNat(a: nat, b: nat): nat
  {
    if a < b then a else b
  }

  /** The slices `data[start..min(len, end)]` of one partly wanted chunk, in
      order; a range starting past its clamped end makes Rust's slice
      indexing panic. */
  function Slices(data: bytes, rs: seq<ByteRange>): (r: Result<bytes, ClientError>)
    ensures r.Err? <==> exists k :: 0 <= k < |rs| && rs[k].start > MinNat(|data|, rs[k].end)
    ensures r.Err? ==> r.error == RangePanic
    ensures r.Ok? ==> |r.value| == SlicedLength(data, rs)
  {
    if |rs| == 0 then Ok([])
    else
      var e := MinNat(|data|, rs[0].end);
      if rs[0].start > e then Err(RangePanic)
      else
        var rest := Slices(data, rs[1..]);
        assert forall k :: 1 <= k < |rs| ==> rs[k] == rs[1..][k - 1];
        if rest.Err? then rest else Ok(data[rs[0].start..e] + rest.value)
  }

  /** The total length of the clamped ranges. */
  function SlicedLength(data: bytes, rs: seq<ByteRange>): nat
  {
    if |rs| == 0 then 0
    else
      var e := MinNat(|data|, rs[0].end);
      (if rs[0].start <= e then e - rs[0].start else 0) + SlicedLength(data, rs[1..])
  }

  predicate Within(data: bytes, rs: seq<ByteRange>)
  {
    forall k :: 0 <= k < |rs| ==> rs[k].start <= rs[k].end <= |data|
  }

  /** The named bytes of each range, one range after the other. */
  function Named(data: bytes, rs: seq<ByteRange>): bytes
    requires Within(data, rs)
  {
    if |rs| == 0 then [] else data[rs[0].start..rs[0].end] + Named(data, rs[1..])
  }

  /** Ranges inside the chunk give exactly the bytes they name, in order. */
  lemma {:induction false} SlicesWithin(data: bytes, rs: seq<ByteRange>)
    requires Within(data, rs)
    ensures Slices(data, rs) == Ok(Named(data, rs))
  {
    if |rs| > 0 {
      SlicesWithin(data, rs[1..]);
    }
  }

  /** A range reaching past the chunk's end is cut at the end: one range
      from 0 gives the whole plaintext back. */
  lemma {:induction false} SlicesClamp(data: bytes, end: nat)
    requires end >= |data|
    ensures Slices(data, [ByteRange(0, end)]).Ok? && Slices(data, [ByteRange(0, end)]).value == data
  {
    var rs := [ByteRange(0, end)];
    assert rs[1..] == [];
    assert Slices(data, rs[1..]) == Ok([]);
    assert MinNat(|data|, end) == |data|;
    assert data[0..|data|] == data;
    assert Slices(data, rs) == Ok(data[0..|data|] + []);
  }

  /** The output for a wanted leaf: its whole plaintext, or only its listed
      slices when the chunk is partly wanted. */
  function LeafOutput(data: bytes, idx: nat, incomplete: map<nat, seq<ByteRange>>): (r: Result<bytes, ClientError>)
    ensures idx !in incomplete ==> r == Ok(data)
    ensures idx in incomplete ==> r == Slices(data, incomplete[idx])
  {
    if idx in incomplete then Slices(data, incomplete[idx]) else Ok(data)
  }

  // ---------------------------------------------------------------------
  // The receive loop

  /** The decryption context, the filter cursor, the queue of picked
      indices, and the bytes written. `pending_data_chunks` is a `VecDeque`
      pushed at the front and popped at the back, so it is a FIFO queue: here
      indices join at the end and leave from the front. */
  datatype PState = PState(dctx: DecryptionContext, at: Cursor, pending: seq<nat>, out: bytes)

  /** The state after a leaf chunk: its output is the next queued index's
      share of the chunk, or, with the queue empty, what filtering it as the
      only child of a block selects. */
  function LeafNext(pick: PickMap, fixRoot: bool, st: PState, dctx: DecryptionContext, addr: Address, pt: bytes): (r: Result<PState, ClientError>)
    ensures r.Ok? ==> |r.value.out| >= |st.out| && r.value.out[..|st.out|] == st.out && r.value.dctx == dctx
  {
    if |st.pending| > 0 then
      match LeafOutput(pt, st.pending[0], pick.incomplete)
      case Err(e) => Err(e)
      case Ok(o) => Ok(PState(dctx, st.at, st.pending[1..], st.out + o))
    else if !fixRoot then Ok(st.(dctx := dctx))
    else
      var f := FilterBlock(pick.ranges, st.at, addr);
      if |f.picked| == 0 then Ok(PState(dctx, f.at, [], st.out))
      else
        match LeafOutput(pt, f.picked[0], pick.incomplete)
        case Err(e) => Err(e)
        case Ok(o) => Ok(PState(dctx, f.at, [], st.out + o))
  }

  /** The loop of `receive_partial_htree`. With `fixRoot` false it is the
      code as written: a leaf that arrives with the queue empty (which only the
      root of a height-0 tree can) writes nothing. With `fixRoot` true such a
      leaf is filtered as the only child of a block. */
  function ReceivePartial(env: Env, pick: PickMap, fixRoot: bool, st: PState, tr: TreeReader, packets: seq<Packet>): (r: Result<PState, ClientError>)
    requires TR.Valid(tr) && |st.dctx.ephemeralPk| == BOX_PUBLICKEYBYTES
    ensures r.Ok? ==> |r.value.out| >= |st.out| && r.value.out[..|st.out|] == st.out
    ensures r.Ok? ==> r.value.dctx.sk == st.dctx.sk && r.value.dctx.psk == st.dctx.psk
    ensures r.Ok? && Coherent(env.s, st.dctx) ==> Coherent(env.s, r.value.dctx)
    decreases |packets|
  {
    var n := NextAddr(tr);
    if n.res.Err? then Err(TreeFailure(n.res.error))
    else if n.res.value.None? then Ok(st)
    else if |packets| == 0 then Err(EndOfStream)
    else
      var v := n.res.value.value;
      match packets[0]
      case ChunkPacket(addr, data) =>
        if v.addr != addr then Err(CorruptOrTampered)
        else if v.height == 0 then
          var d := DecryptData(env.s, env.z, st.dctx, data);
          match d.1
          case Err(e) => Err(DecryptFailure(e))
          case Ok(pt) =>
            if addr != env.leafHash(pt) then Err(CorruptOrTampered)
            else
              var next := LeafNext(pick, fixRoot, st, d.0, addr, pt);
              match next
              case Err(e) => Err(e)
              case Ok(st1) =>
                var r := ReceivePartial(env, pick, fixRoot, st1, n.reader, packets[1..]);
                assert r.Ok? ==> r.value.out[..|st.out|] == st1.out[..|st.out|];
                r
        else if addr != env.blockHash(data) then Err(CorruptOrTampered)
        else if v.height == 1 then
          var f := FilterBlock(pick.ranges, st.at, data);
          ReceivePartial(env, pick, fixRoot, st.(at := f.at, pending := st.pending + f.picked),
                         PushLevel(n.reader, 0, f.kept), packets[1..])
        else if st.at.rangeIdx < |pick.ranges| then
          ReceivePartial(env, pick, fixRoot, st, PushLevel(n.reader, v.height - 1, data), packets[1..])
        else
          ReceivePartial(env, pick, fixRoot, st, n.reader, packets[1..])
      case _ => Err(ProtocolError)
  }

  /** The two null tar blocks that end a sub-tarball. */
  function Trailer(pick: PickMap): (r: bytes)
    ensures pick.isSubtar ==> r == Zeros(1024)
    ensures !pick.isSubtar ==> r == []
  {
    if pick.isSubtar then Zeros(1024) else []
  }

  function Start(dctx: DecryptionContext): PState
  {
    PState(dctx, Cursor(0, 0), [], [])
  }

  function Finish(pick: PickMap, r: Result<PState, ClientError>): (o: Result<bytes, ClientError>)
    ensures o.Ok? <==> r.Ok?
    ensures r.Ok? ==> o.value == r.value.out + Trailer(pick)
  {
    match r
    case Err(e) => Err(e)
    case Ok(st) => Ok(st.out + Trailer(pick))
  }

  /** `receive_partial_htree` as written, from the tree's root. */
  function ReceivePartialHtreeAsWritten(env: Env, pick: PickMap, dctx: DecryptionContext, height: nat, root: Address, packets: seq<Packet>): (r: Result<bytes, ClientError>)
    requires |dctx.ephemeralPk| == BOX_PUBLICKEYBYTES
    ensures r.Ok? ==> |r.value| >= |Trailer(pick)| && r.value[|r.value| - |Trailer(pick)|..] == Trailer(pick)
  {
    Finish(pick, ReceivePartial(env, pick, false, Start(dctx), New(height, root), packets))
  }

  /** `receive_partial_htree` with the root of a height-0 tree treated as
      data chunk 0. */
  function ReceivePartialHtree(env: Env, pick: PickMap, dctx: DecryptionContext, height: nat, root: Address, packets: seq<Packet>): (r: Result<bytes, ClientError>)
    requires |dctx.ephemeralPk| == BOX_PUBLICKEYBYTES
    ensures r.Ok? ==> |r.value| >= |Trailer(pick)| && r.value[|r.value| - |Trailer(pick)|..] == Trailer(pick)
  {
    Finish(pick, ReceivePartial(env, pick, true, Start(dctx), New(height, root), packets))
  }

  // ---------------------------------------------------------------------
  // Against an honest server

  function LeafVisits(addrs: seq<Address>): (r: seq<Visit>)
    ensures |r| == |addrs| && forall i :: 0 <= i < |addrs| ==> r[i] == Visit(0, addrs[i])
  {
    seq(|addrs|, i requires 0 <= i < |addrs| => Visit(0, addrs[i]))
  }

  ghost predicate LeavesAuthentic(env: Env, sk: bytes, psk: bytes, store: map<Address, bytes>, addrs: seq<Address>)
  {
    forall i :: 0 <= i < |addrs| ==> Authentic(env, sk, psk, store, Visit(0, addrs[i]))
  }

  ghost function LeafPlaintext(env: Env, sk: bytes, psk: bytes, store: map<Address, bytes>, a: Address): bytes
    requires Authentic(env, sk, psk, store, Visit(0, a))
  {
    DecryptUncached(env.s, env.z, sk, psk, store[a]).value
  }

  /** The reference output of a run of picked leaves: each leaf's output for
      its index, concatenated; the first slice panic ends it. */
  ghost function RunOutput(env: Env, sk: bytes, psk: bytes, store: map<Address, bytes>, incomplete: map<nat, seq<ByteRange>>,
                           addrs: seq<Address>, idxs: seq<nat>): Result<bytes, ClientError>
    requires |addrs| == |idxs| && LeavesAuthentic(env, sk, psk, store, addrs)
  {
    if |addrs| == 0 then Ok([])
    else
      assert Authentic(env, sk, psk, store, Visit(0, addrs[0]));
      match LeafOutput(LeafPlaintext(env, sk, psk, store, addrs[0]), idxs[0], incomplete)
      case Err(e) => Err(e)
      case Ok(o) =>
        assert forall i :: 0 <= i < |addrs[1..]| ==> addrs[1..][i] == addrs[i + 1];
        match RunOutput(env, sk, psk, store, incomplete, addrs[1..], idxs[1..])
        case Err(e) => Err(e)
        case Ok(t) => Ok(o + t)
  }

  predicate AllExhausted(frames: seq<Frame>)
  {
    forall i :: 0 <= i < |frames| ==> FrameValid(frames[i]) && Exhausted(frames[i])
  }

  /** `next_addr` on a leaf block above exhausted blocks. */
  lemma {:induction false} NextLeaf(below: seq<Frame>, block: bytes, off: nat)
    requires AllExhausted(below) && off <= |block|
    ensures TR.Valid(TreeReader(below + [Frame(block, 0, off)]))
    ensures var n := NextAddr(TreeReader(below + [Frame(block, 0, off)]));
      && (|block| - off == 0 ==> n.res == Ok(None))
      && (|block| - off >= ADDRESS_SZ ==>
            n == Next(Ok(Some(Visit(0, block[off..off + ADDRESS_SZ]))), TreeReader(below + [Frame(block, 0, off + ADDRESS_SZ)])))
  {
    var frames := below + [Frame(block, 0, off)];
    assert frames[..|frames| - 1] == below;
    assert forall i :: 0 <= i < |frames| ==> FrameValid(frames[i]);
    if |block| - off >= ADDRESS_SZ {
      assert block[off..][..ADDRESS_SZ] == block[off..off + ADDRESS_SZ];
    }
  }

  /** A queued run of leaves, served honestly, is written exactly as the
      reference output says, in queue order, and empties the queue. */
  lemma {:induction false} LeafRun(env: Env, pick: PickMap, fixRoot: bool, st: PState, below: seq<Frame>, block: bytes, off: nat,
                                   addrs: seq<Address>, store: map<Address, bytes>, rest: seq<Packet>)
    requires AllExhausted(below) && off <= |block| && block[off..] == Flatten(addrs)
    requires |st.pending| == |addrs|
    requires |st.dctx.ephemeralPk| == BOX_PUBLICKEYBYTES && Coherent(env.s, st.dctx)
    requires LeavesAuthentic(env, st.dctx.sk, st.dctx.psk, store, addrs)
    ensures var r := ReceivePartial(env, pick, fixRoot, st, TreeReader(below + [Frame(block, 0, off)]),
                                    Served(store, LeafVisits(addrs)) + rest);
      var ref := RunOutput(env, st.dctx.sk, st.dctx.psk, store, pick.incomplete, addrs, st.pending);
      && (ref.Err? ==> r == Err(ref.error))
      && (ref.Ok? ==> r.Ok? && r.value.out == st.out + ref.value && r.value.at == st.at && r.value.pending == [])
    decreases |addrs|, 2
  {
    if |addrs| == 0 {
      NextLeaf(below, block, off);
      assert RunOutput(env, st.dctx.sk, st.dctx.psk, store, pick.incomplete, addrs, st.pending) == Ok([]);
      assert st.out + [] == st.out;
    } else {
      LeafRunCons(env, pick, fixRoot, st, below, block, off, addrs, store, rest);
    }
  }

  /** A run of at least one leaf: the first leaf, then the rest of the run. */
  lemma {:induction false} LeafRunCons(env: Env, pick: PickMap, fixRoot: bool, st: PState, below: seq<Frame>, block: bytes, off: nat,
                                       addrs: seq<Address>, store: map<Address, bytes>, rest: seq<Packet>)
    requires AllExhausted(below) && off <= |block| && block[off..] == Flatten(addrs)
    requires |st.pending| == |addrs| > 0
    requires |st.dctx.ephemeralPk| == BOX_PUBLICKEYBYTES && Coherent(env.s, st.dctx)
    requires LeavesAuthentic(env, st.dctx.sk, st.dctx.psk, store, addrs)
    ensures var r := ReceivePartial(env, pick, fixRoot, st, TreeReader(below + [Frame(block, 0, off)]),
                                    Served(store, LeafVisits(addrs)) + rest);
      var ref := RunOutput(env, st.dctx.sk, st.dctx.psk, store, pick.incomplete, addrs, st.pending);
      && (ref.Err? ==> r == Err(ref.error))
      && (ref.Ok? ==> r.Ok? && r.value.out == st.out + ref.value && r.value.at == st.at && r.value.pending == [])
    decreases |addrs|, 1
  {
    var lo := LeafOutput(LeafPlaintext(env, st.dctx.sk, st.dctx.psk, store, addrs[0]), st.pending[0], pick.incomplete);
    if lo.Ok? {
      LeafRunOk(env, pick, fixRoot, st, below, block, off, addrs, store, rest);
    } else {
      var st1 := LeafRunHead(env, pick, fixRoot, st, below, block, off, addrs, store, rest);
      RunOutputCons(env, st.dctx.sk, st.dctx.psk, store, pick.incomplete, addrs, st.pending);
    }
  }

  /** A run whose first leaf yields its output: that output, then the rest of the run. */
  lemma {:induction false} LeafRunOk(env: Env, pick: PickMap, fixRoot: bool, st: PState, below: seq<Frame>, block: bytes, off: nat,
                                     addrs: seq<Address>, store: map<Address, bytes>, rest: seq<Packet>)
    requires AllExhausted(below) && off <= |block| && block[off..] == Flatten(addrs)
    requires |st.pending| == |addrs| > 0
    requires |st.dctx.ephemeralPk| == BOX_PUBLICKEYBYTES && Coherent(env.s, st.dctx)
    requires LeavesAuthentic(env, st.dctx.sk, st.dctx.psk, store, addrs)
    requires LeafOutput(LeafPlaintext(env, st.dctx.sk, st.dctx.psk, store, addrs[0]), st.pending[0], pick.incomplete).Ok?
    ensures var r := ReceivePartial(env, pick, fixRoot, st, TreeReader(below + [Frame(block, 0, off)]),
                                    Served(store, LeafVisits(addrs)) + rest);
      var ref := RunOutput(env, st.dctx.sk, st.dctx.psk, store, pick.incomplete, addrs, st.pending);
      && (ref.Err? ==> r == Err(ref.error))
      && (ref.Ok? ==> r.Ok? && r.value.out == st.out + ref.value && r.value.at == st.at && r.value.pending == [])
    decreases |addrs|, 0
  {
    var sk, psk, tail := st.dctx.sk, st.dctx.psk, addrs[1..];
    var lo := LeafOutput(LeafPlaintext(env, sk, psk, store, addrs[0]), st.pending[0], pick.incomplete);
    var st1 := LeafRunHead(env, pick, fixRoot, st, below, block, off, addrs, store, rest);
    RunOutputCons(env, sk, psk, store, pick.incomplete, addrs, st.pending);
    var r1 := ReceivePartial(env, pick, fixRoot, st1, TreeReader(below + [Frame(block, 0, off + ADDRESS_SZ)]),
                             Served(store, LeafVisits(tail)) + rest);
    LeafRun(env, pick, fixRoot, st1, below, block, off + ADDRESS_SZ, tail, store, rest);
    var later := RunOutput(env, sk, psk, store, pick.incomplete, tail, st1.pending);
    RunJoin(ReceivePartial(env, pick, fixRoot, st, TreeReader(below + [Frame(block, 0, off)]), Served(store, LeafVisits(addrs)) + rest),
            r1, RunOutput(env, sk, psk, store, pick.incomplete, addrs, st.pending), later,
            st.out, st1.out, lo.value, st.at);
  }

  /** Joins the first leaf's output with the rest of the run's. */
  lemma {:induction false} RunJoin(r: Result<PState, ClientError>, r1: Result<PState, ClientError>, ref: Result<bytes, ClientError>,
                later: Result<bytes, ClientError>, out: bytes, out1: bytes, o: bytes, at: Cursor)
    requires r == r1 && out1 == out + o
    requires later.Err? ==> ref == Err(later.error) && r1 == Err(later.error)
    requires later.Ok? ==> ref == Ok(o + later.value) && r1.Ok? && r1.value.out == out1 + later.value
    requires later.Ok? ==> r1.value.at == at && r1.value.pending == []
    ensures ref.Err? ==> r == Err(ref.error)
    ensures ref.Ok? ==> r.Ok? && r.value.out == out + ref.value && r.value.at == at && r.value.pending == []
  {
    if later.Ok? {
      assert out1 + later.value == out + (o + later.value);
    }
  }

  /** How the reference output of a non-empty run unfolds. */
  lemma {:induction false} RunOutputCons(env: Env, sk: bytes, psk: bytes, store: map<Address, bytes>, incomplete: map<nat, seq<ByteRange>>,
                      addrs: seq<Address>, idxs: seq<nat>)
    requires |addrs| == |idxs| > 0 && LeavesAuthentic(env, sk, psk, store, addrs)
    ensures LeavesAuthentic(env, sk, psk, store, addrs[1..])
    ensures var lo := LeafOutput(LeafPlaintext(env, sk, psk, store, addrs[0]), idxs[0], incomplete);
      var ref := RunOutput(env, sk, psk, store, incomplete, addrs, idxs);
      var later := RunOutput(env, sk, psk, store, incomplete, addrs[1..], idxs[1..]);
      && (lo.Err? ==> ref == Err(lo.error))
      && (lo.Ok? && later.Err? ==> ref == Err(later.error))
      && (lo.Ok? && later.Ok? ==> ref == Ok(lo.value + later.value))
  {
    assert forall i :: 0 <= i < |addrs[1..]| ==> addrs[1..][i] == addrs[i + 1];
  }

  /** The first leaf of a queued run: checked, written, and dequeued. */
  lemma {:induction false} LeafRunHead(env: Env, pick: PickMap, fixRoot: bool, st: PState, below: seq<Frame>, block: bytes, off: nat,
                    addrs: seq<Address>, store: map<Address, bytes>, rest: seq<Packet>) returns (st1: PState)
    requires AllExhausted(below) && off <= |block| && block[off..] == Flatten(addrs)
    requires |st.pending| == |addrs| > 0
    requires |st.dctx.ephemeralPk| == BOX_PUBLICKEYBYTES && Coherent(env.s, st.dctx)
    requires LeavesAuthentic(env, st.dctx.sk, st.dctx.psk, store, addrs)
    ensures off + ADDRESS_SZ <= |block| && block[off + ADDRESS_SZ..] == Flatten(addrs[1..])
    ensures LeavesAuthentic(env, st.dctx.sk, st.dctx.psk, store, addrs[1..])
    ensures st1.dctx.sk == st.dctx.sk && st1.dctx.psk == st.dctx.psk
    ensures |st1.dctx.ephemeralPk| == BOX_PUBLICKEYBYTES && Coherent(env.s, st1.dctx)
    ensures st1.at == st.at && st1.pending == st.pending[1..]
    ensures var lo := LeafOutput(LeafPlaintext(env, st.dctx.sk, st.dctx.psk, store, addrs[0]), st.pending[0], pick.incomplete);
      var r := ReceivePartial(env, pick, fixRoot, st, TreeReader(below + [Frame(block, 0, off)]), Served(store, LeafVisits(addrs)) + rest);
      && (lo.Err? ==> r == Err(lo.error))
      && (lo.Ok? ==> st1.out == st.out + lo.value &&
                     r == ReceivePartial(env, pick, fixRoot, st1, TreeReader(below + [Frame(block, 0, off + ADDRESS_SZ)]),
                                         Served(store, LeafVisits(addrs[1..])) + rest))
  {
    NextLeaf(below, block, off);
    var tr := TreeReader(below + [Frame(block, 0, off)]);
    var packets := Served(store, LeafVisits(addrs)) + rest;
    var a := addrs[0];
    FlattenHead(addrs);
    assert block[off..off + ADDRESS_SZ] == a;
    assert block[off + ADDRESS_SZ..] == Flatten(addrs[1..]);
    assert Authentic(env, st.dctx.sk, st.dctx.psk, store, Visit(0, a));
    RunOutputCons(env, st.dctx.sk, st.dctx.psk, store, pick.incomplete, addrs, st.pending);
    assert LeafVisits(addrs)[1..] == LeafVisits(addrs[1..]);
    ServedCons(store, LeafVisits(addrs), rest);
    assert packets[0] == ChunkPacket(a, store[a]);
    var d := DecryptData(env.s, env.z, st.dctx, store[a]);
    var pt := LeafPlaintext(env, st.dctx.sk, st.dctx.psk, store, a);
    assert d.1 == Ok(pt);
    var lo := LeafOutput(pt, st.pending[0], pick.incomplete);
    PartialLeafStep(env, pick, fixRoot, st, tr, packets, pt);
    st1 := PState(d.0, st.at, st.pending[1..], st.out + if lo.Ok? then lo.value else []);
  }

  /** One step of the partial loop at a queued leaf whose packet passes the checks. */
  lemma {:induction false} PartialLeafStep(env: Env, pick: PickMap, fixRoot: bool, st: PState, tr: TreeReader, packets: seq<Packet>, pt: bytes)
    requires TR.Valid(tr) && |st.dctx.ephemeralPk| == BOX_PUBLICKEYBYTES
    requires NextAddr(tr).res.Ok? && NextAddr(tr).res.value.Some? && NextAddr(tr).res.value.value.height == 0
    requires |packets| > 0 && packets[0].ChunkPacket? && packets[0].address == NextAddr(tr).res.value.value.addr
    requires DecryptData(env.s, env.z, st.dctx, packets[0].data).1 == Ok(pt)
    requires env.leafHash(pt) == packets[0].address
    requires |st.pending| > 0
    ensures var lo := LeafOutput(pt, st.pending[0], pick.incomplete);
      lo.Err? ==> ReceivePartial(env, pick, fixRoot, st, tr, packets) == Err(lo.error)
    ensures var d := DecryptData(env.s, env.z, st.dctx, packets[0].data);
      var lo := LeafOutput(pt, st.pending[0], pick.incomplete);
      lo.Ok? ==> (ReceivePartial(env, pick, fixRoot, st, tr, packets) ==
                  ReceivePartial(env, pick, fixRoot, PState(d.0, st.at, st.pending[1..], st.out + lo.value), NextAddr(tr).reader, packets[1..]))
  {
  }

  /** One step of the partial loop at a height-1 block whose packet passes
      the checks: the block is filtered and the kept children pushed. */
  lemma {:induction false} PartialBlockStep(env: Env, pick: PickMap, fixRoot: bool, st: PState, tr: TreeReader, packets: seq<Packet>)
    requires TR.Valid(tr) && |st.dctx.ephemeralPk| == BOX_PUBLICKEYBYTES
    requires NextAddr(tr).res.Ok? && NextAddr(tr).res.value.Some? && NextAddr(tr).res.value.value.height == 1
    requires |packets| > 0 && packets[0].ChunkPacket? && packets[0].address == NextAddr(tr).res.value.value.addr
    requires env.blockHash(packets[0].data) == packets[0].address
    ensures var f := FilterBlock(pick.ranges, st.at, packets[0].data);
      ReceivePartial(env, pick, fixRoot, st, tr, packets)
        == ReceivePartial(env, pick, fixRoot, st.(at := f.at, pending := st.pending + f.picked),
                          PushLevel(NextAddr(tr).reader, 0, f.kept), packets[1..])
  {
  }

  /** The root of a height-1 tree: its block is checked, filtered, and the
      kept children are queued, read as a leaf block from their start. */
  lemma {:induction false} PartialRootStep(env: Env, pick: PickMap, fixRoot: bool, dctx: DecryptionContext, root: Address, addrs: seq<Address>, tail: seq<Packet>)
    requires |dctx.ephemeralPk| == BOX_PUBLICKEYBYTES
    requires WellFormed(pick.ranges) && env.blockHash(Flatten(addrs)) == root
    ensures var f := FilterBlock(pick.ranges, Cursor(0, 0), Flatten(addrs));
      && f.kept == Flatten(SelectAddrs(pick.ranges, addrs, 0))
      && f.picked == Kept(pick.ranges, 0, |addrs|)
      && ReceivePartial(env, pick, fixRoot, Start(dctx), New(1, root), [ChunkPacket(root, Flatten(addrs))] + tail)
         == ReceivePartial(env, pick, fixRoot, PState(dctx, f.at, f.picked, []),
                           TreeReader([Frame(root, 1, ADDRESS_SZ), Frame(f.kept, 0, 0)]), tail)
  {
    FilterSelects(pick.ranges, Cursor(0, 0), addrs);
    var f := FilterBlock(pick.ranges, Cursor(0, 0), Flatten(addrs));
    var tr := New(1, root);
    assert root[0..][..ADDRESS_SZ] == root;
    var n := NextAddr(tr);
    assert n.res == Ok(Some(Visit(1, root))) && n.reader == TreeReader([Frame(root, 1, ADDRESS_SZ)]);
    var packets := [ChunkPacket(root, Flatten(addrs))] + tail;
    assert packets[0] == ChunkPacket(root, Flatten(addrs)) && packets[1..] == tail;
    PartialBlockStep(env, pick, fixRoot, Start(dctx), tr, packets);
    assert PushLevel(n.reader, 0, f.kept) == TreeReader([Frame(root, 1, ADDRESS_SZ), Frame(f.kept, 0, 0)]);
    assert Start(dctx).(at := f.at, pending := [] + f.picked) == PState(dctx, f.at, f.picked, []);
  }

  /** Against an honest server, a partial restore of a height-1 tree writes,
      for the wanted children in index order, each one's plaintext or its
      wanted slices, then the trailer; the first slice out of bounds fails
      it instead. This holds both for the receive as written and for the
      corrected one, which differ only on a root of height 0. */
  lemma {:induction false} PartialHeightOne(env: Env, pick: PickMap, dctx: DecryptionContext, root: Address, addrs: seq<Address>,
                         store: map<Address, bytes>, rest: seq<Packet>)
    requires |dctx.ephemeralPk| == BOX_PUBLICKEYBYTES && Coherent(env.s, dctx)
    requires WellFormed(pick.ranges) && env.blockHash(Flatten(addrs)) == root
    requires LeavesAuthentic(env, dctx.sk, dctx.psk, store, SelectAddrs(pick.ranges, addrs, 0))
    ensures var sel := SelectAddrs(pick.ranges, addrs, 0);
      var idxs := Kept(pick.ranges, 0, |addrs|);
      |sel| == |idxs| &&
      var packets := [ChunkPacket(root, Flatten(addrs))] + (Served(store, LeafVisits(sel)) + rest);
      var r := ReceivePartialHtree(env, pick, dctx, 1, root, packets);
      var w := ReceivePartialHtreeAsWritten(env, pick, dctx, 1, root, packets);
      var ref := RunOutput(env, dctx.sk, dctx.psk, store, pick.incomplete, sel, idxs);
      && (ref.Err? ==> r == Err(ref.error) && w == Err(ref.error))
      && (ref.Ok? ==> r.Ok? && r.value == ref.value + Trailer(pick) && w.Ok? && w.value == ref.value + Trailer(pick))
  {
    SelectKeptLength(pick.ranges, addrs, 0);
    HeightOneFinish(env, pick, true, dctx, root, addrs, store, rest);
    HeightOneFinish(env, pick, false, dctx, root, addrs, store, rest);
  }

  /** `PartialHeightOne` for one setting of `fixRoot`. */
  lemma {:induction false} HeightOneFinish(env: Env, pick: PickMap, fixRoot: bool, dctx: DecryptionContext, root: Address, addrs: seq<Address>,
                                           store: map<Address, bytes>, rest: seq<Packet>)
    requires |dctx.ephemeralPk| == BOX_PUBLICKEYBYTES && Coherent(env.s, dctx)
    requires WellFormed(pick.ranges) && env.blockHash(Flatten(addrs)) == root
    requires LeavesAuthentic(env, dctx.sk, dctx.psk, store, SelectAddrs(pick.ranges, addrs, 0))
    requires |SelectAddrs(pick.ranges, addrs, 0)| == |Kept(pick.ranges, 0, |addrs|)|
    ensures var sel := SelectAddrs(pick.ranges, addrs, 0);
      var o := Finish(pick, ReceivePartial(env, pick, fixRoot, Start(dctx), New(1, root),
                                           [ChunkPacket(root, Flatten(addrs))] + (Served(store, LeafVisits(sel)) + rest)));
      var ref := RunOutput(env, dctx.sk, dctx.psk, store, pick.incomplete, sel, Kept(pick.ranges, 0, |addrs|));
      && (ref.Err? ==> o == Err(ref.error))
      && (ref.Ok? ==> o.Ok? && o.value == ref.value + Trailer(pick))
  {
    var sel := SelectAddrs(pick.ranges, addrs, 0);
    var packets := [ChunkPacket(root, Flatten(addrs))] + (Served(store, LeafVisits(sel)) + rest);
    var r0 := ReceivePartial(env, pick, fixRoot, Start(dctx), New(1, root), packets);
    var ref := RunOutput(env, dctx.sk, dctx.psk, store, pick.incomplete, sel, Kept(pick.ranges, 0, |addrs|));
    HeightOneRun(env, pick, fixRoot, dctx, root, addrs, store, rest);
    FinishRun(pick, r0, ref, Finish(pick, r0));
  }

  /** The loop of `PartialHeightOne`, before the trailer. */
  lemma {:induction false} HeightOneRun(env: Env, pick: PickMap, fixRoot: bool, dctx: DecryptionContext, root: Address, addrs: seq<Address>,
                     store: map<Address, bytes>, rest: seq<Packet>)
    requires |dctx.ephemeralPk| == BOX_PUBLICKEYBYTES && Coherent(env.s, dctx)
    requires WellFormed(pick.ranges) && env.blockHash(Flatten(addrs)) == root
    requires LeavesAuthentic(env, dctx.sk, dctx.psk, store, SelectAddrs(pick.ranges, addrs, 0))
    requires |SelectAddrs(pick.ranges, addrs, 0)| == |Kept(pick.ranges, 0, |addrs|)|
    ensures var sel := SelectAddrs(pick.ranges, addrs, 0);
      var r := ReceivePartial(env, pick, fixRoot, Start(dctx), New(1, root), [ChunkPacket(root, Flatten(addrs))] + (Served(store, LeafVisits(sel)) + rest));
      var ref := RunOutput(env, dctx.sk, dctx.psk, store, pick.incomplete, sel, Kept(pick.ranges, 0, |addrs|));
      && (ref.Err? ==> r == Err(ref.error))
      && (ref.Ok? ==> r.Ok? && r.value.out == [] + ref.value)
  {
    var sel := SelectAddrs(pick.ranges, addrs, 0);
    var tail := Served(store, LeafVisits(sel)) + rest;
    var st, block := HeightOneStart(env, pick, fixRoot, dctx, root, addrs, tail);
    var below := [Frame(root, 1, ADDRESS_SZ)];
    LeafRun(env, pick, fixRoot, st, below, block, 0, sel, store, rest);
    RunSame(ReceivePartial(env, pick, fixRoot, Start(dctx), New(1, root), [ChunkPacket(root, Flatten(addrs))] + tail),
            ReceivePartial(env, pick, fixRoot, st, TreeReader(below + [Frame(block, 0, 0)]), tail),
            RunOutput(env, dctx.sk, dctx.psk, store, pick.incomplete, sel, Kept(pick.ranges, 0, |addrs|)),
            RunOutput(env, st.dctx.sk, st.dctx.psk, store, pick.incomplete, sel, st.pending));
  }

  /** After the root block of a height-1 tree: the state and the block of
      kept addresses the run of leaves starts from. */
  lemma {:induction false} HeightOneStart(env: Env, pick: PickMap, fixRoot: bool, dctx: DecryptionContext, root: Address, addrs: seq<Address>, tail: seq<Packet>)
    returns (st: PState, block: bytes)
    requires |dctx.ephemeralPk| == BOX_PUBLICKEYBYTES
    requires WellFormed(pick.ranges) && env.blockHash(Flatten(addrs)) == root
    ensures st.dctx == dctx && st.out == [] && st.pending == Kept(pick.ranges, 0, |addrs|)
    ensures block[0..] == Flatten(SelectAddrs(pick.ranges, addrs, 0))
    ensures AllExhausted([Frame(root, 1, ADDRESS_SZ)])
    ensures TR.Valid(New(1, root)) && TR.Valid(TreeReader([Frame(root, 1, ADDRESS_SZ)] + [Frame(block, 0, 0)]))
    ensures ReceivePartial(env, pick, fixRoot, Start(dctx), New(1, root), [ChunkPacket(root, Flatten(addrs))] + tail)
         == ReceivePartial(env, pick, fixRoot, st, TreeReader([Frame(root, 1, ADDRESS_SZ)] + [Frame(block, 0, 0)]), tail)
  {
    PartialRootStep(env, pick, fixRoot, dctx, root, addrs, tail);
    var f := FilterBlock(pick.ranges, Cursor(0, 0), Flatten(addrs));
    assert [Frame(root, 1, ADDRESS_SZ)] + [Frame(f.kept, 0, 0)] == [Frame(root, 1, ADDRESS_SZ), Frame(f.kept, 0, 0)];
    assert f.kept[0..] == f.kept;
    st, block := PState(dctx, f.at, f.picked, []), f.kept;
  }

  /** Carries a run's outcome over to an equal run and an equal reference output. */
  lemma {:induction false} RunSame(r: Result<PState, ClientError>, r1: Result<PState, ClientError>, ref: Result<bytes, ClientError>, ref1: Result<bytes, ClientError>)
    requires r == r1 && ref == ref1
    requires ref1.Err? ==> r1 == Err(ref1.error)
    requires ref1.Ok? ==> r1.Ok? && r1.value.out == [] + ref1.value
    ensures ref.Err? ==> r == Err(ref.error)
    ensures ref.Ok? ==> r.Ok? && r.value.out == [] + ref.value
  {
  }

  /** The finished output of a run that started with nothing written. */
  lemma {:induction false} FinishRun(pick: PickMap, r: Result<PState, ClientError>, ref: Result<bytes, ClientError>, o: Result<bytes, ClientError>)
    requires ref.Err? ==> r == Err(ref.error)
    requires ref.Ok? ==> r.Ok? && r.value.out == [] + ref.value
    requires o == Finish(pick, r)
    ensures ref.Err? ==> o == Err(ref.error)
    ensures ref.Ok? ==> o.Ok? && o.value == ref.value + Trailer(pick)
  {
    if ref.Ok? {
      assert [] + ref.value == ref.value;
    }
  }

  /** With no chunk wanted only in part, the reference output of a run is
      the leaves' whole plaintexts, as a full restore would write them. */
  lemma {:induction false} RunOutputWhole(env: Env, sk: bytes, psk: bytes, store: map<Address, bytes>, addrs: seq<Address>, idxs: seq<nat>)
    requires |addrs| == |idxs| && LeavesAuthentic(env, sk, psk, store, addrs)
    ensures AllAuthentic(env, sk, psk, store, LeafVisits(addrs))
    ensures var ref := RunOutput(env, sk, psk, store, map[], addrs, idxs);
      ref.Ok? && ref.value == Plaintext(env, sk, psk, store, LeafVisits(addrs))
    decreases |addrs|
  {
    if |addrs| > 0 {
      RunOutputCons(env, sk, psk, store, map[], addrs, idxs);
      RunOutputWhole(env, sk, psk, store, addrs[1..], idxs[1..]);
      assert LeafVisits(addrs)[1..] == LeafVisits(addrs[1..]);
    }
  }

  // ---------------------------------------------------------------------
  // A tree of height 0

  /** A reader with nothing left ends the loop with the state unchanged. */
  lemma {:induction false} PartialDone(env: Env, pick: PickMap, fixRoot: bool, st: PState, tr: TreeReader, packets: seq<Packet>)
    requires TR.Valid(tr) && |st.dctx.ephemeralPk| == BOX_PUBLICKEYBYTES
    requires NextAddr(tr).res == Ok(None)
    ensures ReceivePartial(env, pick, fixRoot, st, tr, packets) == Ok(st)
  {
  }

  /** One step of the partial loop at a leaf that arrives with the queue
      empty, as only the root of a height-0 tree can. */
  lemma {:induction false} PartialLoneLeafStep(env: Env, pick: PickMap, fixRoot: bool, st: PState, tr: TreeReader, packets: seq<Packet>, pt: bytes)
    requires TR.Valid(tr) && |st.dctx.ephemeralPk| == BOX_PUBLICKEYBYTES
    requires NextAddr(tr).res.Ok? && NextAddr(tr).res.value.Some? && NextAddr(tr).res.value.value.height == 0
    requires |packets| > 0 && packets[0].ChunkPacket? && packets[0].address == NextAddr(tr).res.value.value.addr
    requires DecryptData(env.s, env.z, st.dctx, packets[0].data).1 == Ok(pt)
    requires env.leafHash(pt) == packets[0].address
    requires |st.pending| == 0
    ensures var d := DecryptData(env.s, env.z, st.dctx, packets[0].data);
      !fixRoot ==> (ReceivePartial(env, pick, fixRoot, st, tr, packets) ==
                    ReceivePartial(env, pick, fixRoot, st.(dctx := d.0), NextAddr(tr).reader, packets[1..]))
    ensures var d := DecryptData(env.s, env.z, st.dctx, packets[0].data);
      var f := FilterBlock(pick.ranges, st.at, packets[0].address);
      fixRoot && |f.picked| == 0 ==> (ReceivePartial(env, pick, fixRoot, st, tr, packets) ==
                                      ReceivePartial(env, pick, fixRoot, PState(d.0, f.at, [], st.out), NextAddr(tr).reader, packets[1..]))
    ensures var d := DecryptData(env.s, env.z, st.dctx, packets[0].data);
      var f := FilterBlock(pick.ranges, st.at, packets[0].address);
      fixRoot && |f.picked| > 0 ==>
        var lo := LeafOutput(pt, f.picked[0], pick.incomplete);
        && (lo.Err? ==> ReceivePartial(env, pick, fixRoot, st, tr, packets) == Err(lo.error))
        && (lo.Ok? ==> (ReceivePartial(env, pick, fixRoot, st, tr, packets) ==
                        ReceivePartial(env, pick, fixRoot, PState(d.0, f.at, [], st.out + lo.value), NextAddr(tr).reader, packets[1..])))
  {
  }

  /** The first step on a height-0 tree: the root is the only leaf. */
  lemma {:induction false} HeightZeroStep(env: Env, dctx: DecryptionContext, root: Address, store: map<Address, bytes>)
    requires |dctx.ephemeralPk| == BOX_PUBLICKEYBYTES && Coherent(env.s, dctx)
    requires Authentic(env, dctx.sk, dctx.psk, store, Visit(0, root))
    ensures var n := NextAddr(New(0, root));
      && TR.Valid(New(0, root)) && TR.Valid(n.reader)
      && n.res == Ok(Some(Visit(0, root)))
      && NextAddr(n.reader).res == Ok(None)
    ensures DecryptData(env.s, env.z, dctx, store[root]).1 == Ok(LeafPlaintext(env, dctx.sk, dctx.psk, store, root))
  {
    assert root[0..][..ADDRESS_SZ] == root;
    var n := NextAddr(New(0, root));
    assert n.reader == TreeReader([Frame(root, 0, ADDRESS_SZ)]);
    assert Pop(n.reader) == TreeReader([]);
  }

  /** As written, a partial restore of a height-0 tree writes only the
      trailer, whatever the pick map wants: the root leaf finds the queue of
      picked indices empty. */
  lemma {:induction false} PartialHeightZeroAsWritten(env: Env, pick: PickMap, dctx: DecryptionContext, root: Address,
                                   store: map<Address, bytes>, rest: seq<Packet>)
    requires |dctx.ephemeralPk| == BOX_PUBLICKEYBYTES && Coherent(env.s, dctx)
    requires Authentic(env, dctx.sk, dctx.psk, store, Visit(0, root))
    ensures ReceivePartialHtreeAsWritten(env, pick, dctx, 0, root, [ChunkPacket(root, store[root])] + rest) == Ok(Trailer(pick))
  {
    HeightZeroStep(env, dctx, root, store);
    var packets := [ChunkPacket(root, store[root])] + rest;
    assert packets[0] == ChunkPacket(root, store[root]) && packets[1..] == rest;
    var pt := LeafPlaintext(env, dctx.sk, dctx.psk, store, root);
    var tr := New(0, root);
    var d := DecryptData(env.s, env.z, dctx, store[root]);
    PartialLoneLeafStep(env, pick, false, Start(dctx), tr, packets, pt);
    PartialDone(env, pick, false, Start(dctx).(dctx := d.0), NextAddr(tr).reader, rest);
    assert [] + Trailer(pick) == Trailer(pick);
  }

  /** The discrepancy on a concrete pick map: chunk 0 of a one-chunk tree
      is wanted whole, its plaintext is not empty, and none of it is written. */
  lemma {:induction false} PartialHeightZeroLosesData(env: Env, dctx: DecryptionContext, root: Address, store: map<Address, bytes>, rest: seq<Packet>)
    requires |dctx.ephemeralPk| == BOX_PUBLICKEYBYTES && Coherent(env.s, dctx)
    requires Authentic(env, dctx.sk, dctx.psk, store, Visit(0, root))
    requires |LeafPlaintext(env, dctx.sk, dctx.psk, store, root)| > 0
    ensures var pick := PickMap([ChunkRange(0, 0)], map[], false);
      var r := ReceivePartialHtreeAsWritten(env, pick, dctx, 0, root, [ChunkPacket(root, store[root])] + rest);
      InRanges(pick.ranges, 0) && r == Ok([]) && r.value != LeafPlaintext(env, dctx.sk, dctx.psk, store, root)
  {
    var pick := PickMap([ChunkRange(0, 0)], map[], false);
    PartialHeightZeroAsWritten(env, pick, dctx, root, store, rest);
    assert pick.ranges[0].startIdx <= 0 <= pick.ranges[0].endIdx;
  }

  /** With the root of a height-0 tree filtered as data chunk 0, a partial
      restore writes that chunk's output exactly when chunk 0 is wanted,
      then the trailer. */
  lemma {:induction false} PartialHeightZero(env: Env, pick: PickMap, dctx: DecryptionContext, root: Address,
                          store: map<Address, bytes>, rest: seq<Packet>)
    requires |dctx.ephemeralPk| == BOX_PUBLICKEYBYTES && Coherent(env.s, dctx)
    requires WellFormed(pick.ranges)
    requires Authentic(env, dctx.sk, dctx.psk, store, Visit(0, root))
    ensures var pt := LeafPlaintext(env, dctx.sk, dctx.psk, store, root);
      var r := ReceivePartialHtree(env, pick, dctx, 0, root, [ChunkPacket(root, store[root])] + rest);
      var lo := LeafOutput(pt, 0, pick.incomplete);
      && (!InRanges(pick.ranges, 0) ==> r == Ok(Trailer(pick)))
      && (InRanges(pick.ranges, 0) && lo.Err? ==> r == Err(lo.error))
      && (InRanges(pick.ranges, 0) && lo.Ok? ==> r.Ok? && r.value == lo.value + Trailer(pick))
  {
    var packets := [ChunkPacket(root, store[root])] + rest;
    var lo := LeafOutput(LeafPlaintext(env, dctx.sk, dctx.psk, store, root), 0, pick.incomplete);
    var ref := if InRanges(pick.ranges, 0) then lo else Ok([]);
    var r := ReceivePartial(env, pick, true, Start(dctx), New(0, root), packets);
    if InRanges(pick.ranges, 0) {
      HeightZeroWanted(env, pick, dctx, root, store, rest);
    } else {
      HeightZeroUnwanted(env, pick, dctx, root, store, rest);
    }
    FinishRun(pick, r, ref, ReceivePartialHtree(env, pick, dctx, 0, root, packets));
  }

  /** A height-0 root outside every range leaves the output empty. */
  lemma {:induction false} HeightZeroUnwanted(env: Env, pick: PickMap, dctx: DecryptionContext, root: Address,
                           store: map<Address, bytes>, rest: seq<Packet>)
    requires |dctx.ephemeralPk| == BOX_PUBLICKEYBYTES && Coherent(env.s, dctx)
    requires WellFormed(pick.ranges) && !InRanges(pick.ranges, 0)
    requires Authentic(env, dctx.sk, dctx.psk, store, Visit(0, root))
    ensures var r := ReceivePartial(env, pick, true, Start(dctx), New(0, root), [ChunkPacket(root, store[root])] + rest);
      r.Ok? && r.value.out == [] + []
  {
    HeightZeroSkip(env, pick, dctx, root, store, rest);
    var d := DecryptData(env.s, env.z, dctx, store[root]);
    var f := FilterBlock(pick.ranges, Cursor(0, 0), root);
    PartialDone(env, pick, true, PState(d.0, f.at, [], []), NextAddr(New(0, root)).reader, rest);
  }

  /** The first step on an unwanted height-0 root only decrypts and filters. */
  lemma {:induction false} HeightZeroSkip(env: Env, pick: PickMap, dctx: DecryptionContext, root: Address,
                       store: map<Address, bytes>, rest: seq<Packet>)
    requires |dctx.ephemeralPk| == BOX_PUBLICKEYBYTES && Coherent(env.s, dctx)
    requires WellFormed(pick.ranges) && !InRanges(pick.ranges, 0)
    requires Authentic(env, dctx.sk, dctx.psk, store, Visit(0, root))
    ensures var tr := New(0, root);
      var d := DecryptData(env.s, env.z, dctx, store[root]);
      var f := FilterBlock(pick.ranges, Cursor(0, 0), root);
      && TR.Valid(NextAddr(tr).reader) && NextAddr(NextAddr(tr).reader).res == Ok(None)
      && |d.0.ephemeralPk| == BOX_PUBLICKEYBYTES
      && ReceivePartial(env, pick, true, Start(dctx), tr, [ChunkPacket(root, store[root])] + rest)
         == ReceivePartial(env, pick, true, PState(d.0, f.at, [], []), NextAddr(tr).reader, rest)
  {
    HeightZeroPicked(pick, root);
    HeightZeroFirst(env, pick, dctx, root, store, rest);
  }

  /** A height-0 root inside a range is filtered like the only child of a block. */
  lemma {:induction false} HeightZeroWanted(env: Env, pick: PickMap, dctx: DecryptionContext, root: Address,
                         store: map<Address, bytes>, rest: seq<Packet>)
    requires |dctx.ephemeralPk| == BOX_PUBLICKEYBYTES && Coherent(env.s, dctx)
    requires WellFormed(pick.ranges) && InRanges(pick.ranges, 0)
    requires Authentic(env, dctx.sk, dctx.psk, store, Visit(0, root))
    ensures var lo := LeafOutput(LeafPlaintext(env, dctx.sk, dctx.psk, store, root), 0, pick.incomplete);
      var r := ReceivePartial(env, pick, true, Start(dctx), New(0, root), [ChunkPacket(root, store[root])] + rest);
      && (lo.Err? ==> r == Err(lo.error))
      && (lo.Ok? ==> r.Ok? && r.value.out == [] + lo.value)
  {
    HeightZeroPicked(pick, root);
    HeightZeroFirst(env, pick, dctx, root, store, rest);
    var lo := LeafOutput(LeafPlaintext(env, dctx.sk, dctx.psk, store, root), 0, pick.incomplete);
    if lo.Ok? {
      var tr := New(0, root);
      var d := DecryptData(env.s, env.z, dctx, store[root]);
      var f := FilterBlock(pick.ranges, Cursor(0, 0), root);
      PartialDone(env, pick, true, PState(d.0, f.at, [], [] + lo.value), NextAddr(tr).reader, rest);
    }
  }

  /** The filter run on a height-0 root picks index 0 exactly when it is wanted. */
  lemma {:induction false} HeightZeroPicked(pick: PickMap, root: Address)
    requires WellFormed(pick.ranges)
    ensures FilterBlock(pick.ranges, Cursor(0, 0), root).picked == if InRanges(pick.ranges, 0) then [0] else []
  {
    FilterSelects(pick.ranges, Cursor(0, 0), [root]);
    FlattenOne(root);
    assert Kept(pick.ranges, 1, 0) == [];
  }

  /** The first step of the corrected loop on a height-0 tree. */
  lemma {:induction false} HeightZeroFirst(env: Env, pick: PickMap, dctx: DecryptionContext, root: Address,
                        store: map<Address, bytes>, rest: seq<Packet>)
    requires |dctx.ephemeralPk| == BOX_PUBLICKEYBYTES && Coherent(env.s, dctx)
    requires Authentic(env, dctx.sk, dctx.psk, store, Visit(0, root))
    ensures var tr := New(0, root);
      TR.Valid(NextAddr(tr).reader) && NextAddr(NextAddr(tr).reader).res == Ok(None)
    ensures var tr := New(0, root);
      var packets := [ChunkPacket(root, store[root])] + rest;
      var d := DecryptData(env.s, env.z, dctx, store[root]);
      var f := FilterBlock(pick.ranges, Cursor(0, 0), root);
      var lo := LeafOutput(LeafPlaintext(env, dctx.sk, dctx.psk, store, root), 0, pick.incomplete);
      && (|f.picked| == 0 ==> ReceivePartial(env, pick, true, Start(dctx), tr, packets)
                              == ReceivePartial(env, pick, true, PState(d.0, f.at, [], []), NextAddr(tr).reader, rest))
      && (|f.picked| > 0 && f.picked[0] == 0 && lo.Err? ==> ReceivePartial(env, pick, true, Start(dctx), tr, packets) == Err(lo.error))
      && (|f.picked| > 0 && f.picked[0] == 0 && lo.Ok? ==>
            ReceivePartial(env, pick, true, Start(dctx), tr, packets)
            == ReceivePartial(env, pick, true, PState(d.0, f.at, [], [] + lo.value), NextAddr(tr).reader, rest))
  {
    HeightZeroStep(env, dctx, root, store);
    var packets := [ChunkPacket(root, store[root])] + rest;
    assert packets[0] == ChunkPacket(root, store[root]) && packets[1..] == rest;
    var pt := LeafPlaintext(env, dctx.sk, dctx.psk, store, root);
    PartialLoneLeafStep(env, pick, true, Start(dctx), New(0, root), packets, pt);
  }
}
