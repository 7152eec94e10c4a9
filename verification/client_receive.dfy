/** `receive_htree` (src/client.rs): the client walks a tree with a
    `TreeReader`, reads one chunk packet per address, checks every packet
    against the address it was asked for, and writes the plaintext of the
    leaves in order. */
module ClientReceive {
  import opened Wrappers
  import opened Bytes
  import opened HTree
  import opened TR = TreeReader
  import opened Framing
  import opened Box
  import opened Crypto
  import opened Protocol

  /** The fixed parts of a receive: the sodium and zstd primitives, the
      keyed hash a leaf's plaintext must hash to (`keyed_content_address`
      under the item's hash key), and `tree_block_address` for blocks. */
  datatype Env = Env(s: Sodium, z: ZstdBlock, leafHash: bytes -> Address, blockHash: BlockHash)

  /** The decryption state and the bytes written so far. */
  datatype Received = Received(dctx: DecryptionContext, out: bytes)

  function ReceiveHtree(env: Env, dctx: DecryptionContext, tr: TreeReader, packets: seq<Packet>, out: bytes): (r: Result<Received, ClientError>)
    requires TR.Valid(tr) && |dctx.ephemeralPk| == BOX_PUBLICKEYBYTES
    ensures r.Ok? ==> |r.value.out| >= |out| && r.value.out[..|out|] == out
    ensures r.Ok? ==> r.value.dctx.sk == dctx.sk && r.value.dctx.psk == dctx.psk
    ensures r.Ok? && Coherent(env.s, dctx) ==> Coherent(env.s, r.value.dctx)
    decreases |packets|
  {
    var n := NextAddr(tr);
    if n.res.Err? then Err(TreeFailure(n.res.error))
    else if n.res.value.None? then Ok(Received(dctx, out))
    else if |packets| == 0 then Err(EndOfStream)
    else
      var v := n.res.value.value;
      match packets[0]
      case ChunkPacket(addr, data) =>
        if v.addr != addr then Err(CorruptOrTampered)
        else if v.height == 0 then
          var d := DecryptData(env.s, env.z, dctx, data);
          match d.1
          case Err(e) => Err(DecryptFailure(e))
          case Ok(pt) =>
            if addr != env.leafHash(pt) then Err(CorruptOrTampered)
            else
              var r := ReceiveHtree(env, d.0, n.reader, packets[1..], out + pt);
              assert r.Ok? ==> r.value.out[..|out|] == (out + pt)[..|out|];
              r
        else if addr != env.blockHash(data) then Err(CorruptOrTampered)
        else ReceiveHtree(env, dctx, PushLevel(n.reader, v.height - 1, data), packets[1..], out)
      case _ => Err(ProtocolError)
  }

  // ---------------------------------------------------------------------
  // An honest server

  /** The packets an honest server sends for a walk: each visited address
      with its stored chunk. */
  function Served(store: map<Address, bytes>, visits: seq<Visit>): (r: seq<Packet>)
    requires forall i :: 0 <= i < |visits| ==> visits[i].addr in store
    ensures |r| == |visits|
    ensures forall i :: 0 <= i < |visits| ==> r[i] == ChunkPacket(visits[i].addr, store[visits[i].addr])
  {
    if |visits| == 0 then [] else [ChunkPacket(visits[0].addr, store[visits[0].addr])] + Served(store, visits[1..])
  }

  /** A stored chunk passes the check its visit makes: a leaf decrypts, for
      the holder of `sk`, to a plaintext with the leaf's keyed hash; a block
      has the block hash of its address. */
  ghost predicate Authentic(env: Env, sk: bytes, psk: bytes, store: map<Address, bytes>, v: Visit)
  {
    && v.addr in store
    && (v.height == 0 ==>
          var pt := DecryptUncached(env.s, env.z, sk, psk, store[v.addr]);
          pt.Ok? && env.leafHash(pt.value) == v.addr)
    && (v.height > 0 ==> env.blockHash(store[v.addr]) == v.addr)
  }

  ghost predicate AllAuthentic(env: Env, sk: bytes, psk: bytes, store: map<Address, bytes>, visits: seq<Visit>)
  {
    forall i :: 0 <= i < |visits| ==> Authentic(env, sk, psk, store, visits[i])
  }

  /** The concatenated plaintexts of the leaves among the visits. */
  ghost function Plaintext(env: Env, sk: bytes, psk: bytes, store: map<Address, bytes>, visits: seq<Visit>): bytes
    requires AllAuthentic(env, sk, psk, store, visits)
  {
    if |visits| == 0 then []
    else
      var v := visits[0];
      (if v.height == 0 then DecryptUncached(env.s, env.z, sk, psk, store[v.addr]).value else [])
        + Plaintext(env, sk, psk, store, visits[1..])
  }

  /** The state after a visit of the walk: the reader `next_addr` leaves,
      with the visited block pushed when it is not a leaf. */
  function Advance(tr: TreeReader, store: map<Address, bytes>): (r: TreeReader)
    requires TR.Valid(tr)
    requires NextAddr(tr).res.Ok? && NextAddr(tr).res.value.Some?
    requires NextAddr(tr).res.value.value.height > 0 ==> NextAddr(tr).res.value.value.addr in store
    ensures TR.Valid(r)
  {
    var n := NextAddr(tr);
    var v := n.res.value.value;
    if v.height == 0 then n.reader else PushLevel(n.reader, v.height - 1, store[v.addr])
  }

  /** A successful walk takes its first visit from `next_addr` and continues
      with the rest from the advanced reader; an empty one finds the reader done. */
  lemma {:induction false} WalkStep(tr: TreeReader, store: map<Address, bytes>, visits: seq<Visit>)
    requires TR.Valid(tr) && Walk(tr, store) == Ok(visits)
    ensures |visits| == 0 ==> NextAddr(tr).res == Ok(None)
    ensures |visits| > 0 ==>
      && NextAddr(tr).res == Ok(Some(visits[0]))
      && (visits[0].height > 0 ==> visits[0].addr in store)
      && Walk(Advance(tr, store), store) == Ok(visits[1..])
  {
    var n := NextAddr(tr);
    if n.res.Ok? && n.res.value.Some? {
      var v := n.res.value.value;
      if v.height == 0 {
        WalkLeafStep(tr, store);
      } else if v.addr in store {
        WalkNodeStep(tr, store);
      } else {
        WalkMissing(tr, store);
      }
    }
  }

  lemma {:induction false} WalkLeafStep(tr: TreeReader, store: map<Address, bytes>)
    requires TR.Valid(tr)
    requires NextAddr(tr).res.Ok? && NextAddr(tr).res.value.Some? && NextAddr(tr).res.value.value.height == 0
    ensures Walk(tr, store) == Prepend(NextAddr(tr).res.value.value, Walk(NextAddr(tr).reader, store))
  {
  }

  lemma {:induction false} WalkNodeStep(tr: TreeReader, store: map<Address, bytes>)
    requires TR.Valid(tr)
    requires NextAddr(tr).res.Ok? && NextAddr(tr).res.value.Some?
    requires NextAddr(tr).res.value.value.height > 0 && NextAddr(tr).res.value.value.addr in store
    ensures Walk(tr, store) == Prepend(NextAddr(tr).res.value.value, Walk(Advance(tr, store), store))
  {
  }

  lemma {:induction false} WalkMissing(tr: TreeReader, store: map<Address, bytes>)
    requires TR.Valid(tr)
    requires NextAddr(tr).res.Ok? && NextAddr(tr).res.value.Some?
    requires NextAddr(tr).res.value.value.height > 0 && NextAddr(tr).res.value.value.addr !in store
    ensures Walk(tr, store).Err?
  {
  }

  /** One step of `receive_htree` at a leaf whose packet passes the checks. */
  lemma {:induction false} ReceiveLeafStep(env: Env, dctx: DecryptionContext, tr: TreeReader, packets: seq<Packet>, out: bytes, pt: bytes)
    requires TR.Valid(tr) && |dctx.ephemeralPk| == BOX_PUBLICKEYBYTES
    requires NextAddr(tr).res.Ok? && NextAddr(tr).res.value.Some?
    requires NextAddr(tr).res.value.value.height == 0
    requires |packets| > 0 && packets[0].ChunkPacket? && packets[0].address == NextAddr(tr).res.value.value.addr
    requires DecryptData(env.s, env.z, dctx, packets[0].data).1 == Ok(pt)
    requires env.leafHash(pt) == packets[0].address
    ensures ReceiveHtree(env, dctx, tr, packets, out) ==
      ReceiveHtree(env, DecryptData(env.s, env.z, dctx, packets[0].data).0, NextAddr(tr).reader, packets[1..], out + pt)
  {
  }

  /** One step of `receive_htree` at a block whose packet passes the check. */
  lemma {:induction false} ReceiveNodeStep(env: Env, dctx: DecryptionContext, tr: TreeReader, packets: seq<Packet>, out: bytes, store: map<Address, bytes>)
    requires TR.Valid(tr) && |dctx.ephemeralPk| == BOX_PUBLICKEYBYTES
    requires NextAddr(tr).res.Ok? && NextAddr(tr).res.value.Some?
    requires NextAddr(tr).res.value.value.height > 0
    requires NextAddr(tr).res.value.value.addr in store
    requires |packets| > 0 && packets[0] == ChunkPacket(NextAddr(tr).res.value.value.addr, store[NextAddr(tr).res.value.value.addr])
    requires env.blockHash(packets[0].data) == packets[0].address
    ensures ReceiveHtree(env, dctx, tr, packets, out) == ReceiveHtree(env, dctx, Advance(tr, store), packets[1..], out)
  {
  }

  /** One step of `receive_htree` on a tampered packet. */
  lemma {:induction false} ReceiveRejectStep(env: Env, dctx: DecryptionContext, tr: TreeReader, packets: seq<Packet>, out: bytes)
    requires TR.Valid(tr) && |dctx.ephemeralPk| == BOX_PUBLICKEYBYTES && Coherent(env.s, dctx)
    requires NextAddr(tr).res.Ok? && NextAddr(tr).res.value.Some?
    requires |packets| > 0 && Tampered(env, dctx.sk, dctx.psk, NextAddr(tr).res.value.value, packets[0])
    ensures ReceiveHtree(env, dctx, tr, packets, out) == Err(CorruptOrTampered)
  {
    var p := packets[0];
    if p.address == NextAddr(tr).res.value.value.addr && NextAddr(tr).res.value.value.height == 0 {
      assert DecryptData(env.s, env.z, dctx, p.data).1 == DecryptUncached(env.s, env.z, dctx.sk, dctx.psk, p.data);
    }
  }

  lemma {:induction false} AuthenticTail(env: Env, sk: bytes, psk: bytes, store: map<Address, bytes>, visits: seq<Visit>)
    requires |visits| > 0 && AllAuthentic(env, sk, psk, store, visits)
    ensures AllAuthentic(env, sk, psk, store, visits[1..])
  {
    forall i | 0 <= i < |visits[1..]| ensures Authentic(env, sk, psk, store, visits[1..][i]) {
      assert visits[1..][i] == visits[i + 1];
    }
  }

  lemma {:induction false} ServedCons(store: map<Address, bytes>, visits: seq<Visit>, rest: seq<Packet>)
    requires |visits| > 0 && forall i :: 0 <= i < |visits| ==> visits[i].addr in store
    ensures var p := Served(store, visits) + rest;
      p[0] == ChunkPacket(visits[0].addr, store[visits[0].addr]) && p[1..] == Served(store, visits[1..]) + rest
  {
    var p := ChunkPacket(visits[0].addr, store[visits[0].addr]);
    assert Served(store, visits) == [p] + Served(store, visits[1..]);
    ConsThen(p, Served(store, visits[1..]), rest);
  }

  lemma {:induction false} Assoc<T>(a: seq<T>, b: seq<T>, c: seq<T>)
    ensures a + b + c == a + (b + c)
  {
  }

  lemma {:induction false} ConsThen<T>(x: T, t: seq<T>, rest: seq<T>)
    ensures ([x] + t + rest)[0] == x && ([x] + t + rest)[1..] == t + rest
  {
    assert [x] + t + rest == [x] + (t + rest);
  }

  /** Against an honest server, `receive_htree` succeeds and writes the
      plaintexts of the leaves the walk visits, in walk order, leaving the
      packets after the walk unread. */
  lemma {:induction false} ReceiveHonest(env: Env, dctx: DecryptionContext, tr: TreeReader, store: map<Address, bytes>,
                                         visits: seq<Visit>, rest: seq<Packet>, out: bytes)
    requires TR.Valid(tr) && |dctx.ephemeralPk| == BOX_PUBLICKEYBYTES && Coherent(env.s, dctx)
    requires Walk(tr, store) == Ok(visits)
    requires AllAuthentic(env, dctx.sk, dctx.psk, store, visits)
    ensures var r := ReceiveHtree(env, dctx, tr, Served(store, visits) + rest, out);
      r.Ok? && r.value.out == out + Plaintext(env, dctx.sk, dctx.psk, store, visits)
    decreases |visits|
  {
    WalkStep(tr, store, visits);
    if |visits| > 0 {
      var tail := visits[1..];
      AuthenticTail(env, dctx.sk, dctx.psk, store, visits);
      ServedCons(store, visits, rest);
      var dctx1, pt := HonestStep(env, dctx, tr, store, visits, Served(store, visits) + rest, out);
      var next := Advance(tr, store);
      ReceiveHonest(env, dctx1, next, store, tail, rest, out + pt);
      var later := Plaintext(env, dctx.sk, dctx.psk, store, tail);
      assert Plaintext(env, dctx.sk, dctx.psk, store, visits) == pt + later;
      assert out + pt + later == out + (pt + later);
    }
  }

  /** The first visit of a walk, answered honestly: a leaf is checked and its
      plaintext written, a block is checked and pushed. */
  lemma {:induction false} HonestStep(env: Env, dctx: DecryptionContext, tr: TreeReader, store: map<Address, bytes>,
                   visits: seq<Visit>, packets: seq<Packet>, out: bytes) returns (dctx1: DecryptionContext, pt: bytes)
    requires TR.Valid(tr) && |dctx.ephemeralPk| == BOX_PUBLICKEYBYTES && Coherent(env.s, dctx)
    requires Walk(tr, store) == Ok(visits) && |visits| > 0
    requires Authentic(env, dctx.sk, dctx.psk, store, visits[0])
    requires |packets| > 0 && packets[0] == ChunkPacket(visits[0].addr, store[visits[0].addr])
    ensures NextAddr(tr).res == Ok(Some(visits[0])) && (visits[0].height > 0 ==> visits[0].addr in store)
    ensures Walk(Advance(tr, store), store) == Ok(visits[1..])
    ensures dctx1.sk == dctx.sk && dctx1.psk == dctx.psk && |dctx1.ephemeralPk| == BOX_PUBLICKEYBYTES && Coherent(env.s, dctx1)
    ensures pt == if visits[0].height == 0 then DecryptUncached(env.s, env.z, dctx.sk, dctx.psk, store[visits[0].addr]).value else []
    ensures ReceiveHtree(env, dctx, tr, packets, out) == ReceiveHtree(env, dctx1, Advance(tr, store), packets[1..], out + pt)
  {
    WalkStep(tr, store, visits);
    var v := visits[0];
    var data := store[v.addr];
    if v.height == 0 {
      var d := DecryptData(env.s, env.z, dctx, data);
      pt := d.1.value;
      dctx1 := d.0;
      ReceiveLeafStep(env, dctx, tr, packets, out, pt);
      assert Advance(tr, store) == NextAddr(tr).reader;
    } else {
      dctx1 := dctx;
      pt := [];
      ReceiveNodeStep(env, dctx, tr, packets, out, store);
      assert out + pt == out;
    }
  }

  /** The packets of a prefix served honestly, seen one packet later. */
  lemma {:induction false} TamperedShift(env: Env, dctx: DecryptionContext, store: map<Address, bytes>, visits: seq<Visit>, k: nat, bad: Packet, rest: seq<Packet>)
    requires 0 < k < |visits|
    requires AllAuthentic(env, dctx.sk, dctx.psk, store, visits[..k])
    ensures Authentic(env, dctx.sk, dctx.psk, store, visits[0])
    ensures AllAuthentic(env, dctx.sk, dctx.psk, store, visits[1..][..k - 1]) && visits[1..][k - 1] == visits[k]
    ensures var packets := Served(store, visits[..k]) + [bad] + rest;
      && |packets| > 0 && packets[0] == ChunkPacket(visits[0].addr, store[visits[0].addr])
      && packets[1..] == Served(store, visits[1..][..k - 1]) + [bad] + rest
  {
    var prefix := visits[..k];
    var tail := visits[1..];
    assert prefix[0] == visits[0] && prefix[1..] == tail[..k - 1] && tail[k - 1] == visits[k];
    AuthenticTail(env, dctx.sk, dctx.psk, store, prefix);
    assert Authentic(env, dctx.sk, dctx.psk, store, prefix[0]);
    ServedCons(store, prefix, [bad] + rest);
    Assoc(Served(store, prefix), [bad], rest);
    Assoc(Served(store, tail[..k - 1]), [bad], rest);
  }

  /** A packet that fails the check for visit `v`: it names another address,
      or it is a leaf whose plaintext does not have the leaf's keyed hash, or
      a block whose block hash is not its address. */
  ghost predicate Tampered(env: Env, sk: bytes, psk: bytes, v: Visit, p: Packet)
  {
    && p.ChunkPacket?
    && (|| p.address != v.addr
        || (v.height == 0 && var pt := DecryptUncached(env.s, env.z, sk, psk, p.data);
                             pt.Ok? && env.leafHash(pt.value) != v.addr)
        || (v.height > 0 && env.blockHash(p.data) != v.addr))
  }

  /** `receive_htree`'s integrity checks: if the server answers the first
      `k` visits honestly and then sends a tampered packet, the receive fails
      with `CorruptOrTamperedDataError`, whatever follows. */
  lemma {:induction false} ReceiveDetectsTampering(env: Env, dctx: DecryptionContext, tr: TreeReader, store: map<Address, bytes>,
                                                   visits: seq<Visit>, k: nat, bad: Packet, rest: seq<Packet>, out: bytes)
    requires TR.Valid(tr) && |dctx.ephemeralPk| == BOX_PUBLICKEYBYTES && Coherent(env.s, dctx)
    requires Walk(tr, store) == Ok(visits) && k < |visits|
    requires AllAuthentic(env, dctx.sk, dctx.psk, store, visits[..k])
    requires Tampered(env, dctx.sk, dctx.psk, visits[k], bad)
    ensures ReceiveHtree(env, dctx, tr, Served(store, visits[..k]) + [bad] + rest, out) == Err(CorruptOrTampered)
    decreases k
  {
    WalkStep(tr, store, visits);
    var packets := Served(store, visits[..k]) + [bad] + rest;
    if k == 0 {
      assert packets[0] == bad;
      ReceiveRejectStep(env, dctx, tr, packets, out);
    } else {
      var tail := visits[1..];
      TamperedShift(env, dctx, store, visits, k, bad, rest);
      var dctx1, pt := HonestStep(env, dctx, tr, store, visits, packets, out);
      var next := Advance(tr, store);
      ReceiveDetectsTampering(env, dctx1, next, store, tail, k - 1, bad, rest, out + pt);
    }
  }
}
