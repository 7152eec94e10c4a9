/** `RollsumChunker` (src/chunker.rs): the content-defined chunker. It buffers
    input bytes and cuts a chunk when the buffer reaches `max_sz`, or when the
    rollsum signals a split and the buffer is longer than `min_sz`. */
module Chunker {
  import opened Wrappers
  import opened Bytes
  import opened Rollsum

  /** `window` is `WINDOW_SIZE` from src/rollsum.rs, which is not part of this
      model; it is kept symbolic and fixed when the chunker is built. */
  datatype Chunker = Chunker(rs: Rollsum, minSz: nat, maxSz: nat, window: nat, buf: bytes)

  /** The outcome of `add_bytes`: bytes taken, the chunk cut (if any), next state. */
  datatype Added = Added(n: nat, chunk: Option<bytes>, next: Chunker)

  /** Bounds normalised and the buffer strictly below `max_sz` (the debug assertion on entry to `add_bytes`). */
  predicate Valid(c: Chunker)
  {
    1 <= c.minSz <= c.maxSz && |c.buf| < c.maxSz
  }

  /** The chunk an `add_bytes` call emitted, as a byte string (empty when none). */
  function Emitted(a: Added): bytes
  {
    match a.chunk
    case Some(ch) => ch
    case None => []
  }

  predicate SameConfig(c: Chunker, d: Chunker)
  {
    c.minSz == d.minSz && c.maxSz == d.maxSz && c.window == d.window
  }

  /** A chunk the chunker may cut: no longer than `max_sz`, and either exactly
      `max_sz` or longer than `min_sz`. */
  predicate ChunkBounds(c: Chunker, ch: bytes)
  {
    |ch| <= c.maxSz && (|ch| == c.maxSz || |ch| > c.minSz)
  }

  /** Whether `add_bytes` cuts right after pushing the `k`-th byte of `bs`:
      the rollsum, having rolled those bytes, signals a split and the buffer
      is longer than `min_sz`, or the buffer has reached `max_sz`. */
  predicate CutAfter(c: Chunker, split: Oracle, bs: bytes, k: nat)
    requires k <= |bs|
  {
    (split(c.rs.rolled + bs[..k]) && |c.buf| + k > c.minSz) || |c.buf| + k == c.maxSz
  }

  /** The state after pushing and rolling the first byte of `bs`. */
  function Push(c: Chunker, split: Oracle, bs: bytes): Chunker
    requires |bs| > 0
  {
    c.(rs := RollByte(c.rs, split, bs[0]).0, buf := c.buf + [bs[0]])
  }

  /** The cut after the first byte is the test the loop makes on it. */
  lemma {:induction false} CutAfterFirst(c: Chunker, split: Oracle, bs: bytes)
    requires |bs| > 0
    ensures CutAfter(c, split, bs, 1) <==>
      (RollByte(c.rs, split, bs[0]).1 && |c.buf| + 1 > c.minSz) || |c.buf| + 1 == c.maxSz
  {
    assert bs[..1] == [bs[0]];
  }

  /** When the first byte does not cut, the cut decisions on `bs` are those
      on the rest of `bs`, seen from the state one byte later. */
  lemma {:induction false} CutAfterTail(c: Chunker, split: Oracle, bs: bytes, n: nat, cut: bool)
    requires 0 < |bs| && n < |bs| && !CutAfter(c, split, bs, 1) && (cut ==> n > 0)
    requires forall k :: 1 <= k <= n ==> (CutAfter(Push(c, split, bs), split, bs[1..], k) <==> k == n && cut)
    ensures forall k :: 1 <= k <= n + 1 ==> (CutAfter(c, split, bs, k) <==> k == n + 1 && cut)
  {
    var c1 := Push(c, split, bs);
    forall k | 2 <= k <= n + 1
      ensures CutAfter(c, split, bs, k) <==> CutAfter(c1, split, bs[1..], k - 1)
    {
      assert c1.rs.rolled + bs[1..][..k - 1] == c.rs.rolled + bs[..k] by {
        assert bs[..k] == [bs[0]] + bs[1..][..k - 1];
      }
    }
  }

  function Min(a: nat, b: nat): nat
  {
    if a <= b then a else b
  }

  /** `RollsumChunker::new`: a zero minimum becomes 1 and a maximum below the
      minimum is raised to it; bounds that are already sane are kept. */
  function New(minSz: nat, maxSz: nat, window: nat): (c: Chunker)
    ensures Valid(c) && c.buf == [] && c.rs == Reset() && c.window == window
    ensures minSz >= 1 ==> c.minSz == minSz
    ensures minSz == 0 ==> c.minSz == 1
    ensures maxSz >= c.minSz ==> c.maxSz == maxSz
    ensures maxSz < c.minSz ==> c.maxSz == c.minSz
  {
    var lo := if minSz == 0 then 1 else minSz;
    var hi := if maxSz < lo then lo else maxSz;
    Chunker(Reset(), lo, hi, window, [])
  }

  /** The byte-at-a-time loop of `add_bytes` over `bs`, which already fits under `max_sz`. */
  function Scan(c: Chunker, split: Oracle, bs: bytes): (r: Added)
    requires Valid(c) && |c.buf| + |bs| <= c.maxSz
    ensures Valid(r.next) && SameConfig(c, r.next)
    ensures r.n <= |bs|
    ensures Emitted(r) + r.next.buf == c.buf + bs[..r.n]
    ensures r.chunk.Some? ==> r.next.buf == [] && ChunkBounds(c, r.chunk.value)
    ensures r.chunk.Some? && |r.chunk.value| < c.maxSz ==> split(r.next.rs.rolled)
    ensures r.chunk.None? ==> r.n == |bs|
    ensures |bs| > 0 ==> r.n > 0
    ensures r.chunk.Some? ==> r.n > 0
    // every byte taken was rolled, and the rollsum is not reset by a cut
    ensures r.next.rs.rolled == c.rs.rolled + bs[..r.n]
    // the cut, if any, is at the first byte where the cut condition holds
    ensures forall k :: 1 <= k <= r.n ==> (CutAfter(c, split, bs, k) <==> k == r.n && r.chunk.Some?)
    decreases |bs|
  {
    if |bs| == 0 then
      Added(0, None, c)
    else
      var (rs', fired) := RollByte(c.rs, split, bs[0]);
      var buf' := c.buf + [bs[0]];
      CutAfterFirst(c, split, bs);
      if (fired && |buf'| > c.minSz) || |buf'| == c.maxSz then
        assert bs[..1] == [bs[0]];
        Added(1, Some(buf'), c.(rs := rs', buf := []))
      else
        var rest := Scan(Push(c, split, bs), split, bs[1..]);
        ScanCons(c, split, bs, rest);
        rest.(n := rest.n + 1)
  }

  /** The loop after a first byte that does not cut: the rest of the scan,
      counted from the state before that byte. */
  lemma {:induction false} ScanCons(c: Chunker, split: Oracle, bs: bytes, rest: Added)
    requires Valid(c) && 0 < |bs| && |c.buf| + |bs| <= c.maxSz
    requires !((RollByte(c.rs, split, bs[0]).1 && |c.buf| + 1 > c.minSz) || |c.buf| + 1 == c.maxSz)
    requires rest.n <= |bs| - 1 && (rest.chunk.Some? ==> rest.n > 0)
    requires Emitted(rest) + rest.next.buf == Push(c, split, bs).buf + bs[1..][..rest.n]
    requires rest.next.rs.rolled == Push(c, split, bs).rs.rolled + bs[1..][..rest.n]
    requires forall k :: 1 <= k <= rest.n ==>
      (CutAfter(Push(c, split, bs), split, bs[1..], k) <==> k == rest.n && rest.chunk.Some?)
    ensures Emitted(rest) + rest.next.buf == c.buf + bs[..rest.n + 1]
    ensures rest.next.rs.rolled == c.rs.rolled + bs[..rest.n + 1]
    ensures forall k :: 1 <= k <= rest.n + 1 ==> (CutAfter(c, split, bs, k) <==> k == rest.n + 1 && rest.chunk.Some?)
  {
    assert bs[..rest.n + 1] == [bs[0]] + bs[1..][..rest.n];
    CutAfterFirst(c, split, bs);
    CutAfterTail(c, split, bs, rest.n, rest.chunk.Some?);
  }

  /** `RollsumChunker::add_bytes`. */
  function AddBytes(c: Chunker, split: Oracle, input: bytes): (r: Added)
    requires Valid(c)
    ensures Valid(r.next) && SameConfig(c, r.next)
    // never more than the input, never past max_sz
    ensures r.n <= |input| && |c.buf| + r.n <= c.maxSz
    // conservation: the bytes taken are input[..n], appended in order
    ensures Emitted(r) + r.next.buf == c.buf + input[..r.n]
    ensures r.chunk.Some? ==> r.next.buf == [] && ChunkBounds(c, r.chunk.value)
    ensures r.chunk.Some? && |r.chunk.value| < c.maxSz ==> split(r.next.rs.rolled)
    // without a cut, everything that fits was taken
    ensures r.chunk.None? ==> r.n == Min(|input|, c.maxSz - |c.buf|)
    ensures |input| > 0 ==> r.n > 0
    // fast path: far below min_sz the bytes are buffered without touching the rollsum
    ensures c.minSz >= c.window && |c.buf| + Min(|input|, c.maxSz - |c.buf|) < c.minSz - c.window ==>
              r.chunk.None? && r.n == Min(|input|, c.maxSz - |c.buf|) && r.next.rs == c.rs
    // otherwise every byte taken is rolled
    ensures !(c.minSz >= c.window && |c.buf| + Min(|input|, c.maxSz - |c.buf|) < c.minSz - c.window) ==>
              r.next.rs.rolled == c.rs.rolled + input[..r.n]
    // on either path, a cut happens exactly at the first byte where the cut condition holds
    ensures forall k :: 1 <= k <= r.n ==> (CutAfter(c, split, input, k) <==> k == r.n && r.chunk.Some?)
  {
    var nBytes := if |input| + |c.buf| > c.maxSz then c.maxSz - |c.buf| else |input|;
    if c.minSz >= c.window && |c.buf| + nBytes < c.minSz - c.window then
      Added(nBytes, None, c.(buf := c.buf + input[..nBytes]))
    else
      var r := Scan(c, split, input[..nBytes]);
      assert input[..nBytes][..r.n] == input[..r.n];
      PrefixCuts(c, split, input, nBytes, r.n);
      r
  }

  /** The cut decisions over a prefix of the input are those over the input. */
  lemma {:induction false} PrefixCuts(c: Chunker, split: Oracle, input: bytes, m: nat, n: nat)
    requires n <= m <= |input|
    ensures forall k :: 1 <= k <= n ==> (CutAfter(c, split, input[..m], k) <==> CutAfter(c, split, input, k))
  {
    forall k | 1 <= k <= n
      ensures CutAfter(c, split, input[..m], k) <==> CutAfter(c, split, input, k)
    {
      assert input[..m][..k] == input[..k];
    }
  }

  /** `RollsumChunker::buffered_count`. */
  function BufferedCount(c: Chunker): nat
  {
    |c.buf|
  }

  /** `RollsumChunker::force_split`: reset the rollsum and hand out the buffer, if any. */
  function ForceSplit(c: Chunker): (r: (Option<bytes>, Chunker))
    requires Valid(c)
    ensures Valid(r.1) && SameConfig(c, r.1) && r.1.buf == [] && r.1.rs == Reset()
    ensures r.0.None? <==> c.buf == []
    ensures r.0.Some? ==> r.0.value == c.buf
  {
    (if c.buf == [] then None else Some(c.buf), c.(rs := Reset(), buf := []))
  }

  /** `RollsumChunker::finish`: whatever is still buffered. */
  function Finish(c: Chunker): bytes
  {
    c.buf
  }

  /** The chunks one stream produced and the chunker left behind. */
  datatype Fed = Fed(chunks: seq<bytes>, next: Chunker)

  function Concat(chunks: seq<bytes>): bytes
  {
    if |chunks| == 0 then [] else chunks[0] + Concat(chunks[1..])
  }

  lemma {:induction false} ConcatAppend(a: seq<bytes>, b: seq<bytes>)
    ensures Concat(a + b) == Concat(a) + Concat(b)
  {
    if |a| > 0 {
      assert (a + b)[0] == a[0];
      assert (a + b)[1..] == a[1..] + b;
      ConcatAppend(a[1..], b);
    } else {
      assert a + b == b;
    }
  }

  /** The inner loop of `send_chunks` (src/client.rs): keep calling `add_bytes`
      on the rest of the input until all of it has been taken, collecting cuts. */
  function Feed(c: Chunker, split: Oracle, input: bytes): (r: Fed)
    requires Valid(c)
    ensures Valid(r.next) && SameConfig(c, r.next)
    decreases |input|
  {
    if |input| == 0 then
      Fed([], c)
    else
      var a := AddBytes(c, split, input);
      var rest := Feed(a.next, split, input[a.n..]);
      Fed(if a.chunk.Some? then [a.chunk.value] + rest.chunks else rest.chunks, rest.next)
  }

  /** Feeding a stream loses, duplicates and reorders nothing: the chunks cut
      followed by what is still buffered are the old buffer followed by the input. */
  lemma {:induction false} FeedConserves(c: Chunker, split: Oracle, input: bytes)
    requires Valid(c)
    ensures var r := Feed(c, split, input); Concat(r.chunks) + r.next.buf == c.buf + input
    decreases |input|
  {
    if |input| > 0 {
      var a := AddBytes(c, split, input);
      var rest := Feed(a.next, split, input[a.n..]);
      FeedConserves(a.next, split, input[a.n..]);
      FeedStep(c, split, input);
      Regroup(Emitted(a), Concat(rest.chunks), rest.next.buf, a.next.buf, c.buf, input, a.n);
    }
  }

  /** The bytes taken by one call, then those of the rest, are the whole input. */
  lemma {:induction false} Regroup<T>(e: seq<T>, x: seq<T>, y: seq<T>, mid: seq<T>, pre: seq<T>, input: seq<T>, n: nat)
    requires n <= |input|
    requires x + y == mid + input[n..] && e + mid == pre + input[..n]
    ensures (e + x) + y == pre + input
  {
    assert input == input[..n] + input[n..];
    calc {
      (e + x) + y;
      e + (x + y);
      e + (mid + input[n..]);
      (e + mid) + input[n..];
      (pre + input[..n]) + input[n..];
    }
  }

  /** One step of `Feed`: its chunks are the cut of the first `add_bytes` call
      followed by the chunks of the rest. */
  lemma {:induction false} FeedStep(c: Chunker, split: Oracle, input: bytes)
    requires Valid(c) && |input| > 0
    ensures var a := AddBytes(c, split, input);
            var r := Feed(c, split, input);
            && r.next == Feed(a.next, split, input[a.n..]).next
            && Concat(r.chunks) == Emitted(a) + Concat(Feed(a.next, split, input[a.n..]).chunks)
  {
    var a := AddBytes(c, split, input);
    var rest := Feed(a.next, split, input[a.n..]);
    if a.chunk.Some? {
      ConcatCons(a.chunk.value, rest.chunks);
    }
  }

  /** Every chunk a fed stream produces respects the size bounds. */
  lemma {:induction false} FeedChunkBounds(c: Chunker, split: Oracle, input: bytes)
    requires Valid(c)
    ensures forall ch <- Feed(c, split, input).chunks :: ChunkBounds(c, ch)
    decreases |input|
  {
    if |input| > 0 {
      var a := AddBytes(c, split, input);
      FeedChunkBounds(a.next, split, input[a.n..]);
    }
  }

  lemma {:induction false} ConcatCons(ch: bytes, rest: seq<bytes>)
    ensures Concat([ch] + rest) == ch + Concat(rest)
  {
    assert ([ch] + rest)[0] == ch;
    assert ([ch] + rest)[1..] == rest;
  }

  /** No chunk is cut while the buffer cannot reach `max_sz` or pass `min_sz`. */
  lemma {:induction false} NoCutBelowMin(c: Chunker, split: Oracle, input: bytes, r: Added)
    requires Valid(c) && r == AddBytes(c, split, input)
    requires |c.buf| + |input| <= c.minSz && |c.buf| + |input| < c.maxSz
    ensures r.chunk == None && r.n == |input| && r.next.buf == c.buf + input
  {
    assert |Emitted(r)| <= |c.buf| + |input|;
    assert input[..|input|] == input;
  }

  /** test_add_bytes: with `min_sz = 1` and `max_sz = 2` the results are fixed
      whatever the rollsum says. */
  lemma {:induction false} AddBytesTest(split: Oracle, window: nat)
    ensures var c0 := New(1, 2, window);
            var r1 := AddBytes(c0, split, [0x61]);
            var r2 := AddBytes(r1.next, split, [0x62, 0x63]);
            var r3 := AddBytes(r2.next, split, [0x63]);
            && r1.n == 1 && r1.chunk == None
            && r2.n == 1 && r2.chunk == Some([0x61, 0x62])
            && r3.n == 1 && r3.chunk == None
            && Finish(r3.next) == [0x63]
  {
    var c0 := New(1, 2, window);
    var r1 := AddBytes(c0, split, [0x61]);
    NoCutBelowMin(c0, split, [0x61], r1);
    assert [0x61][..1] == [0x61];
    assert r1.next.buf == [0x61];
    var r2 := AddBytes(r1.next, split, [0x62, 0x63]);
    assert [0x62, 0x63][..1] == [0x62];
    assert r1.next.maxSz == 2;
    assert [0x61] + [0x62] == [0x61, 0x62];
    assert Scan(r1.next, split, [0x62]).chunk == Some([0x61, 0x62]);
    assert r2.n == 1 && r2.chunk == Some([0x61, 0x62]);
    var r3 := AddBytes(r2.next, split, [0x63]);
    NoCutBelowMin(r2.next, split, [0x63], r3);
    assert [0x63][..1] == [0x63];
    assert r3.next.buf == [0x63];
  }

  /** test_force_split_bytes: `force_split` on an empty chunker gives nothing,
      and otherwise hands out exactly the buffered bytes. */
  lemma {:induction false} ForceSplitTest(split: Oracle, window: nat)
    ensures var c0 := New(10, 100, window);
            var (s0, c1) := ForceSplit(c0);
            var r1 := AddBytes(c1, split, [0x61, 0x62, 0x63]);
            var (s1, c2) := ForceSplit(r1.next);
            var (s2, c3) := ForceSplit(c2);
            var r2 := AddBytes(c3, split, [0x64, 0x65, 0x66]);
            && s0 == None && r1.chunk == None
            && s1 == Some([0x61, 0x62, 0x63]) && s2 == None
            && r2.chunk == None && Finish(r2.next) == [0x64, 0x65, 0x66]
  {
    var c0 := New(10, 100, window);
    var (s0, c1) := ForceSplit(c0);
    var r1 := AddBytes(c1, split, [0x61, 0x62, 0x63]);
    NoCutBelowMin(c1, split, [0x61, 0x62, 0x63], r1);
    assert c1.buf == [];
    assert r1.next.buf == [0x61, 0x62, 0x63];
    var (s1, c2) := ForceSplit(r1.next);
    assert s1 == Some([0x61, 0x62, 0x63]);
    var (s2, c3) := ForceSplit(c2);
    assert s2 == None;
    var r2 := AddBytes(c3, split, [0x64, 0x65, 0x66]);
    NoCutBelowMin(c3, split, [0x64, 0x65, 0x66], r2);
  }
}
