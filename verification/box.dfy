/** The crypto box layer (src/crypto.rs): libsodium's
    curve25519xchacha20poly1305 box as uninterpreted functions, the nonce
    counter, and the length guards of `box_encrypt` and `box_decrypt`. */
module Box {
  import opened Wrappers
  import opened Bytes

  const BOX_NONCEBYTES: nat := 24
  const BOX_MACBYTES: nat := 16
  const BOX_PUBLICKEYBYTES: nat := 32
  const BOX_BEFORENMBYTES: nat := 32

  type Nonce = n: bytes | |n| == BOX_NONCEBYTES witness Zeros(24)

  /** The libsodium calls the engine makes, uninterpreted:
      - `seal(pt, nonce, key)`: `easy_afternm`, a MAC-prefixed ciphertext;
      - `open(ct, nonce, key)`: `open_easy_afternm`, `None` when authentication fails;
      - `beforenm(pk, sk)`: the unmixed shared key, `None` when libsodium refuses the public key;
      - `mix(key, psk)`: the keyed generichash `box_compute_key` mixes the pre-shared key in with;
      - `publicKey(sk)`: the public half of a keypair. */
  datatype Sodium = Sodium(
    seal: (bytes, bytes, bytes) -> bytes,
    open: (bytes, bytes, bytes) -> Option<bytes>,
    beforenm: (bytes, bytes) -> Option<bytes>,
    mix: (bytes, bytes) -> bytes,
    publicKey: bytes -> bytes)

  /** What the model assumes of libsodium: sealing adds a MAC, opening
      inverts sealing under the same nonce and key, and Diffie-Hellman
      agreement; public keys are 32 bytes; `beforenm` refuses the all-zero public key, whose shared point
      is the identity. No security property is assumed. */
  ghost predicate SodiumAxioms(s: Sodium)
  {
    && (forall pt, n, k :: |s.seal(pt, n, k)| == |pt| + BOX_MACBYTES)
    && (forall pt, n, k :: s.open(s.seal(pt, n, k), n, k) == Some(pt))
    && (forall sk :: |s.publicKey(sk)| == BOX_PUBLICKEYBYTES)
    && (forall a, b :: s.beforenm(s.publicKey(a), b) == s.beforenm(s.publicKey(b), a))
    && (forall sk :: s.beforenm(Zeros(BOX_PUBLICKEYBYTES), sk) == None)
  }

  /** `box_compute_key`: a failed `beforenm` yields the all-zero key,
      otherwise the shared key is mixed with the pre-shared key. */
  function ComputeKey(s: Sodium, pk: bytes, sk: bytes, psk: bytes): bytes
  {
    match s.beforenm(pk, sk)
    case None => Zeros(BOX_BEFORENMBYTES)
    case Some(unmixed) => s.mix(unmixed, psk)
  }

  /** Both ends of an exchange compute the same box key. */
  lemma {:induction false} ComputeKeyAgrees(s: Sodium, a: bytes, b: bytes, psk: bytes)
    requires SodiumAxioms(s)
    ensures ComputeKey(s, s.publicKey(a), b, psk) == ComputeKey(s, s.publicKey(b), a, psk)
  {
  }

  // ---------------------------------------------------------------------
  // The nonce counter

  /** `sodium_increment`: add one to a little-endian number, carrying out of
      each 0xff byte; the all-0xff number wraps to zero. */
  function Increment(n: bytes): (r: bytes)
    ensures |r| == |n|
    ensures LeValue(r) == if LeValue(n) + 1 < Pow256(|n|) then LeValue(n) + 1 else 0
  {
    if |n| == 0 then []
    else
      LeValueBound(n[1..]);
      if n[0] == 255 then
        var rest := Increment(n[1..]);
        assert ([0] + rest)[1..] == rest;
        [0] + rest
      else
        assert ([n[0] + 1] + n[1..])[1..] == n[1..];
        [n[0] + 1] + n[1..]
  }

  /** `BoxNonce::inc`: the 24-byte nonce read as a little-endian counter
      advances by one; past the largest value it wraps to zero. */
  function NextNonce(n: Nonce): (r: Nonce)
    ensures Advanced(n, r)
  {
    Increment(n)
  }

  /** `after`, read as a little-endian counter of the same width, is one past
      `before`, or zero when `before` was the largest value. */
  predicate Advanced(before: bytes, after: bytes)
  {
    && |after| == |before|
    && LeValue(after) == if LeValue(before) + 1 < Pow256(|before|) then LeValue(before) + 1 else 0
  }

  /** Incrementing is adding one modulo 256 to the power of the width. */
  lemma {:induction false} IncrementMod(n: bytes)
    ensures LeValue(Increment(n)) == (LeValue(n) + 1) % Pow256(|n|)
  {
    LeValueBound(n);
    WrapIsMod(LeValue(n) + 1, Pow256(|n|));
  }

  lemma {:induction false} WrapIsMod(v: nat, p: nat)
    requires 0 < v <= p
    ensures (if v < p then v else 0) == v % p
  {
  }

  // ---------------------------------------------------------------------
  // Box encryption and decryption

  datatype Sealed = Sealed(bt: bytes, nonce: Nonce)

  /** `box_encrypt` into an output buffer of `btLen` bytes: the nonce, then
      the sealed plaintext; the nonce then advances. A buffer of any other
      size is a panic, here `None`. */
  function BoxEncrypt(s: Sodium, btLen: nat, pt: bytes, nonce: Nonce, key: bytes): (r: Option<Sealed>)
    requires SodiumAxioms(s)
    ensures r.Some? <==> btLen == |pt| + BOX_NONCEBYTES + BOX_MACBYTES
    ensures r.Some? ==> |r.value.bt| == btLen && r.value.bt[..BOX_NONCEBYTES] == nonce
    ensures r.Some? ==> Advanced(nonce, r.value.nonce)
  {
    if btLen != |pt| + BOX_NONCEBYTES + BOX_MACBYTES then None
    else
      var bt := nonce + s.seal(pt, nonce, key);
      SealedLayout(s, pt, nonce, key);
      var next := NextNonce(nonce);
      Some(Sealed(bt, next))
  }

  /** The box is the nonce followed by the sealed plaintext. */
  lemma {:induction false} SealedLayout(s: Sodium, pt: bytes, nonce: Nonce, key: bytes)
    requires SodiumAxioms(s)
    ensures var bt := nonce + s.seal(pt, nonce, key);
      |bt| == |pt| + BOX_NONCEBYTES + BOX_MACBYTES && bt[..BOX_NONCEBYTES] == nonce && bt[BOX_NONCEBYTES..] == s.seal(pt, nonce, key)
  {
    var bt := nonce + s.seal(pt, nonce, key);
    assert bt[..BOX_NONCEBYTES] == nonce;
    assert bt[BOX_NONCEBYTES..] == s.seal(pt, nonce, key);
  }

  /** `box_decrypt` into a plaintext buffer of `ptLen` bytes: `None` for a
      box too short to hold a nonce and a MAC, a buffer of the wrong size, or
      a failed authentication. */
  function BoxDecrypt(s: Sodium, ptLen: nat, bt: bytes, key: bytes): (r: Option<bytes>)
    ensures |bt| < BOX_NONCEBYTES + BOX_MACBYTES ==> r == None
    ensures |bt| >= BOX_NONCEBYTES + BOX_MACBYTES && ptLen != |bt| - BOX_NONCEBYTES - BOX_MACBYTES ==> r == None
    // past both guards, the result is the box opened with its nonce prefix
    ensures |bt| >= BOX_NONCEBYTES + BOX_MACBYTES && ptLen == |bt| - BOX_NONCEBYTES - BOX_MACBYTES ==>
      r == s.open(bt[BOX_NONCEBYTES..], bt[..BOX_NONCEBYTES], key)
  {
    if |bt| < BOX_NONCEBYTES + BOX_MACBYTES then None
    else if ptLen != |bt| - BOX_NONCEBYTES - BOX_MACBYTES then None
    else s.open(bt[BOX_NONCEBYTES..], bt[..BOX_NONCEBYTES], key)
  }

  /** The box round trip: what `box_encrypt` writes, `box_decrypt` opens
      with the same key into a buffer of the plaintext's size. */
  lemma {:induction false} BoxRoundTrip(s: Sodium, pt: bytes, nonce: Nonce, key: bytes)
    requires SodiumAxioms(s)
    ensures var r := BoxEncrypt(s, |pt| + BOX_NONCEBYTES + BOX_MACBYTES, pt, nonce, key);
      r.Some? && BoxDecrypt(s, |pt|, r.value.bt, key) == Some(pt)
  {
    SealedLayout(s, pt, nonce, key);
  }

  /** The module's box_round_trip test. */
  lemma {:induction false} BoxRoundTripTest(s: Sodium, nonce: Nonce, key: bytes)
    requires SodiumAxioms(s)
    ensures var r := BoxEncrypt(s, 3 + BOX_NONCEBYTES + BOX_MACBYTES, [1, 2, 3], nonce, key);
      r.Some? && BoxDecrypt(s, 3, r.value.bt, key) == Some([1, 2, 3])
  {
    BoxRoundTrip(s, [1, 2, 3], nonce, key);
  }

  // ---------------------------------------------------------------------
  // The nonce test

  function Fill(len: nat, v: byte): (r: bytes)
    ensures |r| == len && forall i :: 0 <= i < len ==> r[i] == v
  {
    seq(len, _ => v)
  }

  /** `k` successive increments, short of wrapping. */
  function IncrementTimes(n: bytes, k: nat): (r: bytes)
    requires LeValue(n) + k < Pow256(|n|)
    ensures |r| == |n|
    ensures LeValue(r) == LeValue(n) + k
  {
    if k == 0 then n else Increment(IncrementTimes(n, k - 1))
  }

  lemma {:induction false} LeValueZeros(len: nat)
    ensures LeValue(Zeros(len)) == 0
  {
    if len > 0 {
      LeValueZeros(len - 1);
      assert Zeros(len)[1..] == Zeros(len - 1);
    }
  }

  lemma {:induction false} LeValueAllOnes(len: nat)
    ensures LeValue(Fill(len, 255)) == Pow256(len) - 1
  {
    if len > 0 {
      LeValueAllOnes(len - 1);
      assert Fill(len, 255)[1..] == Fill(len - 1, 255);
    }
  }

  lemma {:induction false} PowAtLeast(n: nat)
    requires n >= 2
    ensures Pow256(n) >= 65536
  {
    assert Pow256(n) == 256 * 256 * Pow256(n - 2);
  }

  /** test box_nonce_inc, first part: 255 increments of the zero nonce give
      `[255, 0, ...]`. */
  lemma {:induction false} NonceIncTest()
    ensures LeValue(Zeros(BOX_NONCEBYTES)) + 256 < Pow256(BOX_NONCEBYTES)
    ensures IncrementTimes(Zeros(BOX_NONCEBYTES), 255) == [255] + Zeros(BOX_NONCEBYTES - 1)
  {
    NonceIncBound();
    LeValueZeros(BOX_NONCEBYTES - 1);
    var a := [255] + Zeros(BOX_NONCEBYTES - 1);
    assert a[1..] == Zeros(BOX_NONCEBYTES - 1);
    LeValueInjective(IncrementTimes(Zeros(BOX_NONCEBYTES), 255), a);
  }

  /** test box_nonce_inc, second part: one more increment carries into the
      second byte, `[0, 1, 0, ...]`. */
  lemma {:induction false} NonceCarryTest()
    ensures LeValue(Zeros(BOX_NONCEBYTES)) + 256 < Pow256(BOX_NONCEBYTES)
    ensures IncrementTimes(Zeros(BOX_NONCEBYTES), 256) == [0, 1] + Zeros(BOX_NONCEBYTES - 2)
  {
    NonceIncBound();
    LeValueZeros(BOX_NONCEBYTES - 2);
    var b := [0, 1] + Zeros(BOX_NONCEBYTES - 2);
    assert b[1..][1..] == Zeros(BOX_NONCEBYTES - 2);
    LeValueInjective(IncrementTimes(Zeros(BOX_NONCEBYTES), 256), b);
  }

  /** test box_nonce_inc, last part: the all-0xff nonce wraps to all zeros. */
  lemma {:induction false} NonceWrapTest()
    ensures Increment(Fill(BOX_NONCEBYTES, 255)) == Zeros(BOX_NONCEBYTES)
  {
    LeValueZeros(BOX_NONCEBYTES);
    LeValueAllOnes(BOX_NONCEBYTES);
    LeValueInjective(Increment(Fill(BOX_NONCEBYTES, 255)), Zeros(BOX_NONCEBYTES));
  }

  lemma {:induction false} NonceIncBound()
    ensures LeValue(Zeros(BOX_NONCEBYTES)) == 0 && 256 < Pow256(BOX_NONCEBYTES)
  {
    PowAtLeast(BOX_NONCEBYTES);
    LeValueZeros(BOX_NONCEBYTES);
  }
}
