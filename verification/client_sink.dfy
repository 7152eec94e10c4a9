/** `ConnectionHtreeSink::add_chunk` (src/client.rs): the send log skips
    chunks the repository already holds, and a checkpoint is taken once
    enough new bytes have been written. */
module ClientSink {
  import opened Wrappers
  import opened Bytes
  import opened HTree
  import opened Protocol

  /** The send-log session: the addresses it already knows (sent in an
      earlier session or earlier in this one), the addresses recorded in this
      session, and how many checkpoints were taken. */
  datatype SendLog = SendLog(known: set<Address>, added: seq<Address>, checkpoints: nat)

  datatype Sink = Sink(checkpointBytes: nat, dirtyBytes: nat, sendLog: Option<SendLog>)

  /** The sink after a call, the packets it wrote, and what is left to read. */
  datatype Sent = Sent(sink: Sink, out: seq<Packet>, rest: seq<Packet>)

  /** The checkpoint counter has not reached its threshold, or was just reset. */
  predicate DirtyBelow(s: Sink)
  {
    s.dirtyBytes < s.checkpointBytes || s.dirtyBytes == 0
  }

  function AddChunk(sink: Sink, addr: Address, data: bytes, incoming: seq<Packet>): (r: Result<Sent, ClientError>)
    ensures sink.sendLog.None? ==> r == Ok(Sent(sink, [ChunkPacket(addr, data)], incoming))
    ensures r.Ok? ==> r.value.sink.checkpointBytes == sink.checkpointBytes
    ensures r.Ok? ==> r.value.sink.sendLog.Some? == sink.sendLog.Some?
    ensures r.Ok? && sink.sendLog.Some? ==> DirtyBelow(r.value.sink)
    ensures sink.sendLog.Some? ==> AddChunkLogged(sink, sink.sendLog.value, addr, data, incoming, r)
  {
    match sink.sendLog
    case None => Ok(Sent(sink, [ChunkPacket(addr, data)], incoming))
    case Some(log) =>
      var cached := addr in log.known;
      var dirty := if cached then sink.dirtyBytes else sink.dirtyBytes + |data|;
      var written := if cached then [] else [ChunkPacket(addr, data)];
      var log1 := log.(known := log.known + {addr}, added := log.added + [addr]);
      if dirty >= sink.checkpointBytes then
        if |incoming| == 0 then Err(EndOfStream)
        else if incoming[0] != RSendSync then Err(ProtocolError)
        else
          var log2 := log1.(checkpoints := log.checkpoints + 1);
          Ok(Sent(sink.(dirtyBytes := 0, sendLog := Some(log2)), written + [TSendSync], incoming[1..]))
      else
        Ok(Sent(sink.(dirtyBytes := dirty, sendLog := Some(log1)), written, incoming))
  }

  /** What `add_chunk` promises with a send log:
      - the chunk is written iff its address is not known, and it is then the first packet;
      - the address is recorded and becomes known either way;
      - only a written chunk counts toward the dirty bytes;
      - when the count reaches the threshold a `TSendSync` follows, the reply
        must be `RSendSync`, the counter restarts from zero and a checkpoint is taken. */
  ghost predicate AddChunkLogged(sink: Sink, log: SendLog, addr: Address, data: bytes, incoming: seq<Packet>, r: Result<Sent, ClientError>)
  {
    var written := addr !in log.known;
    var dirty := sink.dirtyBytes + (if written then |data| else 0);
    var sync := dirty >= sink.checkpointBytes;
    && (r == Err(EndOfStream) <==> sync && |incoming| == 0)
    && (r == Err(ProtocolError) <==> sync && |incoming| > 0 && incoming[0] != RSendSync)
    && (r.Err? ==> sync)
    && (r.Ok? ==>
        var s := r.value;
        && s.sink.sendLog.Some?
        && s.sink.sendLog.value.known == log.known + {addr}
        && s.sink.sendLog.value.added == log.added + [addr]
        && (ChunkPacket(addr, data) in s.out <==> written)
        && (written ==> s.out[0] == ChunkPacket(addr, data))
        && (forall p :: p in s.out ==> p == ChunkPacket(addr, data) || p == TSendSync)
        && (TSendSync in s.out <==> sync)
        && (sync ==> s.sink.dirtyBytes == 0 && s.sink.sendLog.value.checkpoints == log.checkpoints + 1
                     && s.out[|s.out| - 1] == TSendSync && s.rest == incoming[1..])
        && (!sync ==> s.sink.dirtyBytes == dirty && s.sink.sendLog.value.checkpoints == log.checkpoints
                      && s.rest == incoming))
  }

  /** The chunks of one send, fed to the sink in order. */
  function AddChunks(sink: Sink, chunks: seq<(Address, bytes)>, incoming: seq<Packet>): (r: Result<Sent, ClientError>)
    ensures r.Ok? ==> |r.value.rest| <= |incoming|
    decreases |chunks|
  {
    if |chunks| == 0 then Ok(Sent(sink, [], incoming))
    else
      match AddChunk(sink, chunks[0].0, chunks[0].1, incoming)
      case Err(e) => Err(e)
      case Ok(s1) =>
        match AddChunks(s1.sink, chunks[1..], s1.rest)
        case Err(e) => Err(e)
        case Ok(s2) => Ok(Sent(s2.sink, s1.out + s2.out, s2.rest))
  }

  function SentAddrs(out: seq<Packet>): (r: seq<Address>)
    ensures |r| <= |out|
  {
    if |out| == 0 then []
    else if out[0].ChunkPacket? then [out[0].address] + SentAddrs(out[1..])
    else SentAddrs(out[1..])
  }

  lemma {:induction false} SentAddrsAppend(a: seq<Packet>, b: seq<Packet>)
    ensures SentAddrs(a + b) == SentAddrs(a) + SentAddrs(b)
  {
    if |a| > 0 {
      assert (a + b)[0] == a[0];
      assert (a + b)[1..] == a[1..] + b;
      SentAddrsAppend(a[1..], b);
    } else {
      assert a + b == b;
    }
  }

  predicate AllSyncReplies(incoming: seq<Packet>)
  {
    forall i :: 0 <= i < |incoming| ==> incoming[i] == RSendSync
  }

  function AddrsOf(chunks: seq<(Address, bytes)>): (r: set<Address>)
    ensures forall i :: 0 <= i < |chunks| ==> chunks[i].0 in r
    ensures forall a :: a in r ==> exists i :: 0 <= i < |chunks| && chunks[i].0 == a
  {
    if |chunks| == 0 then {}
    else
      var rest := AddrsOf(chunks[1..]);
      assert forall i :: 1 <= i < |chunks| ==> chunks[i] == chunks[1..][i - 1];
      {chunks[0].0} + rest
  }

  /** No address occurs twice and none is in `known`. */
  predicate Fresh(sent: seq<Address>, known: set<Address>)
  {
    && (forall j :: 0 <= j < |sent| ==> sent[j] !in known)
    && (forall j, k :: 0 <= j < k < |sent| ==> sent[j] != sent[k])
  }

  /** The dedup guarantee: with a send log and a server that acknowledges
      every sync, a send succeeds; afterwards the chunks' addresses are
      known, every chunk's address was either known before or is written in
      this send, and what is written was not known before, once each. */
  lemma {:induction false} AddChunksCovers(sink: Sink, chunks: seq<(Address, bytes)>, incoming: seq<Packet>)
    requires sink.sendLog.Some?
    requires AllSyncReplies(incoming) && |incoming| >= |chunks|
    ensures var r := AddChunks(sink, chunks, incoming);
      && r.Ok? && r.value.sink.sendLog.Some?
      && AllSyncReplies(r.value.rest) && |r.value.rest| >= |incoming| - |chunks|
      && r.value.sink.sendLog.value.known == sink.sendLog.value.known + AddrsOf(chunks)
      && (forall i :: 0 <= i < |chunks| ==> chunks[i].0 in sink.sendLog.value.known || chunks[i].0 in SentAddrs(r.value.out))
      && Fresh(SentAddrs(r.value.out), sink.sendLog.value.known)
    decreases |chunks|
  {
    if |chunks| > 0 {
      var log := sink.sendLog.value;
      var (addr, data) := chunks[0];
      var t1 := AddChunk(sink, addr, data, incoming).value;
      assert AllSyncReplies(t1.rest) && |t1.rest| >= |incoming| - 1;
      AddChunksCovers(t1.sink, chunks[1..], t1.rest);
      var s2 := AddChunks(t1.sink, chunks[1..], t1.rest).value;
      var log1 := t1.sink.sendLog.value;
      assert log1.known == log.known + {addr};
      var w1 := SentAddrs(t1.out);
      var w2 := SentAddrs(s2.out);
      SentAddrsAppend(t1.out, s2.out);
      FirstSent(sink, addr, data, incoming);
      assert SentAddrs(AddChunks(sink, chunks, incoming).value.out) == w1 + w2;
      forall i | 1 <= i < |chunks|
        ensures chunks[i].0 in log.known || chunks[i].0 in w1 + w2
      {
        assert chunks[1..][i - 1] == chunks[i];
      }
      FreshAppend(w1, w2, log.known, addr);
    }
  }

  /** The first chunk's contribution to what is written: itself, unless known. */
  lemma {:induction false} FirstSent(sink: Sink, addr: Address, data: bytes, incoming: seq<Packet>)
    requires sink.sendLog.Some? && AllSyncReplies(incoming) && |incoming| >= 1
    ensures AddChunk(sink, addr, data, incoming).Ok?
    ensures SentAddrs(AddChunk(sink, addr, data, incoming).value.out) ==
      if addr in sink.sendLog.value.known then [] else [addr]
  {
    var t1 := AddChunk(sink, addr, data, incoming).value;
    if addr in sink.sendLog.value.known {
      SentAddrsNone(t1.out);
    } else {
      SentAddrsFirst(t1.out, addr, data);
    }
  }

  lemma {:induction false} FreshAppend(w1: seq<Address>, w2: seq<Address>, known: set<Address>, addr: Address)
    requires w1 == if addr in known then [] else [addr]
    requires Fresh(w2, known + {addr})
    ensures Fresh(w1 + w2, known)
  {
  }

  lemma {:induction false} SentAddrsNone(out: seq<Packet>)
    requires forall p :: p in out ==> p == TSendSync
    ensures SentAddrs(out) == []
  {
    if |out| > 0 {
      assert out[0] in out;
      assert forall p :: p in out[1..] ==> p in out;
      SentAddrsNone(out[1..]);
    }
  }

  lemma {:induction false} SentAddrsFirst(out: seq<Packet>, addr: Address, data: bytes)
    requires |out| > 0 && out[0] == ChunkPacket(addr, data)
    requires forall p :: p in out ==> p == ChunkPacket(addr, data) || p == TSendSync
    requires |out| == 1 || (|out| == 2 && out[1] == TSendSync)
    ensures SentAddrs(out) == [addr]
  {
    if |out| == 2 {
      assert out[1..][1..] == [];
    }
  }
}
