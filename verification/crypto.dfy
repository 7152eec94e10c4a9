/** The data encryption contexts of src/crypto.rs: each chunk is framed,
    boxed under a key derived from an ephemeral keypair and the recipient's
    key, and sent with the ephemeral public key appended; the decrypting side
    caches the key of the last ephemeral public key it saw. */
module Crypto {
  import opened Wrappers
  import opened Bytes
  import opened Framing
  import opened Box

  /** What `encrypt_data` adds to a framed chunk: nonce, MAC and the ephemeral public key. */
  const OVERHEAD: nat := BOX_NONCEBYTES + BOX_MACBYTES + BOX_PUBLICKEYBYTES

  datatype EncryptionContext = EncryptionContext(nonce: Nonce, ephemeralPk: bytes, ephemeralBk: bytes)

  /** `EncryptionContext::new`; the random nonce and the fresh ephemeral
      secret key are parameters. */
  function NewEncryptionContext(s: Sodium, recipient: bytes, psk: bytes, nonce: Nonce, ephemeralSk: bytes): (r: EncryptionContext)
    requires SodiumAxioms(s)
    ensures |r.ephemeralPk| == BOX_PUBLICKEYBYTES && r.nonce == nonce
    ensures EncKeyed(s, r, recipient, ephemeralSk, psk)
  {
    EncryptionContext(nonce, s.publicKey(ephemeralSk), ComputeKey(s, recipient, ephemeralSk, psk))
  }

  /** The context boxes with the key shared between the ephemeral secret key
      and the recipient's public key. */
  ghost predicate EncKeyed(s: Sodium, ctx: EncryptionContext, recipient: bytes, ephemeralSk: bytes, psk: bytes)
  {
    ctx.ephemeralPk == s.publicKey(ephemeralSk) && ctx.ephemeralBk == ComputeKey(s, recipient, ephemeralSk, psk)
  }

  /** `encrypt_data`: frame the plaintext, box it into the front of the
      output, append the ephemeral public key, and advance the nonce. */
  function EncryptData(s: Sodium, z: ZstdBlock, ctx: EncryptionContext, pt: bytes, compression: DataCompression): (r: (EncryptionContext, bytes))
    requires SodiumAxioms(s)
    requires |ctx.ephemeralPk| == BOX_PUBLICKEYBYTES
    requires compression == Zstd ==> |pt| <= 0xffff_ffff
    ensures OVERHEAD < |r.1| <= |pt| + 1 + OVERHEAD
    ensures compression == NoCompression ==> |r.1| == |pt| + 1 + OVERHEAD
    ensures |r.1| == |FrameChunk(z, pt, compression)| + OVERHEAD
    ensures r.1[..BOX_NONCEBYTES] == ctx.nonce
    // between the nonce and the public key: the framed chunk sealed under the context's key
    ensures r.1[BOX_NONCEBYTES..|r.1| - BOX_PUBLICKEYBYTES] == s.seal(FrameChunk(z, pt, compression), ctx.nonce, ctx.ephemeralBk)
    ensures r.1[|r.1| - BOX_PUBLICKEYBYTES..] == ctx.ephemeralPk
    ensures r.0.ephemeralPk == ctx.ephemeralPk && r.0.ephemeralBk == ctx.ephemeralBk
    ensures Advanced(ctx.nonce, r.0.nonce)
  {
    var framed := FrameChunk(z, pt, compression);
    var sealed := BoxEncrypt(s, |framed| + BOX_NONCEBYTES + BOX_MACBYTES, framed, ctx.nonce, ctx.ephemeralBk);
    var ct := sealed.value.bt + ctx.ephemeralPk;
    assert ct[..BOX_NONCEBYTES] == sealed.value.bt[..BOX_NONCEBYTES];
    assert ct[|ct| - BOX_PUBLICKEYBYTES..] == ctx.ephemeralPk;
    SealedLayout(s, framed, ctx.nonce, ctx.ephemeralBk);
    assert ct[BOX_NONCEBYTES..|ct| - BOX_PUBLICKEYBYTES] == sealed.value.bt[BOX_NONCEBYTES..];
    (ctx.(nonce := sealed.value.nonce), ct)
  }

  datatype DecryptionContext = DecryptionContext(sk: bytes, psk: bytes, ephemeralPk: bytes, ephemeralBk: bytes)

  /** `DecryptionContext::new`: the cached public key and box key start all zero. */
  function NewDecryptionContext(sk: bytes, psk: bytes): (r: DecryptionContext)
    ensures r.sk == sk && r.psk == psk
    ensures r.ephemeralPk == Zeros(BOX_PUBLICKEYBYTES) && r.ephemeralBk == Zeros(BOX_BEFORENMBYTES)
    ensures |r.ephemeralPk| == BOX_PUBLICKEYBYTES
  {
    DecryptionContext(sk, psk, Zeros(BOX_PUBLICKEYBYTES), Zeros(BOX_BEFORENMBYTES))
  }

  /** The cached box key is the one the cached public key gives. */
  ghost predicate Coherent(s: Sodium, ctx: DecryptionContext)
  {
    ctx.ephemeralBk == ComputeKey(s, ctx.ephemeralPk, ctx.sk, ctx.psk)
  }

  /** The all-zero start is coherent: libsodium refuses the all-zero public
      key, and `box_compute_key` then yields the all-zero key. */
  lemma {:induction false} NewDecryptionContextCoherent(s: Sodium, sk: bytes, psk: bytes)
    requires SodiumAxioms(s)
    ensures Coherent(s, NewDecryptionContext(sk, psk))
  {
  }

  datatype DecryptError = TooSmall | DataCorrupt | BadFrame(e: FrameError)

  /** The byte-wise comparison loop of `decrypt_data`: on the first
      differing byte the public key is copied in and the box key recomputed. */
  function RefreshKey(s: Sodium, ctx: DecryptionContext, pk: bytes): (r: DecryptionContext)
    requires |pk| == BOX_PUBLICKEYBYTES && |ctx.ephemeralPk| == BOX_PUBLICKEYBYTES
    ensures r.sk == ctx.sk && r.psk == ctx.psk && r.ephemeralPk == pk
    ensures pk == ctx.ephemeralPk ==> r == ctx
    ensures pk != ctx.ephemeralPk ==> r.ephemeralBk == ComputeKey(s, pk, ctx.sk, ctx.psk)
    ensures Coherent(s, ctx) ==> Coherent(s, r)
  {
    RefreshFrom(s, ctx, pk, 0)
  }

  function RefreshFrom(s: Sodium, ctx: DecryptionContext, pk: bytes, i: nat): (r: DecryptionContext)
    requires |pk| == BOX_PUBLICKEYBYTES && |ctx.ephemeralPk| == BOX_PUBLICKEYBYTES && i <= BOX_PUBLICKEYBYTES
    requires pk[..i] == ctx.ephemeralPk[..i]
    ensures r.sk == ctx.sk && r.psk == ctx.psk && r.ephemeralPk == pk
    ensures pk == ctx.ephemeralPk ==> r == ctx
    ensures pk != ctx.ephemeralPk ==> r.ephemeralBk == ComputeKey(s, pk, ctx.sk, ctx.psk)
    decreases BOX_PUBLICKEYBYTES - i
  {
    if i == BOX_PUBLICKEYBYTES then
      assert pk == pk[..i] && ctx.ephemeralPk == ctx.ephemeralPk[..i];
      ctx
    else if pk[i] != ctx.ephemeralPk[i] then
      ctx.(ephemeralPk := pk, ephemeralBk := ComputeKey(s, pk, ctx.sk, ctx.psk))
    else
      assert pk[..i + 1] == pk[..i] + [pk[i]];
      assert ctx.ephemeralPk[..i + 1] == ctx.ephemeralPk[..i] + [ctx.ephemeralPk[i]];
      RefreshFrom(s, ctx, pk, i + 1)
  }

  /** `decrypt_data`: too short to hold a public key, nonce and MAC is an
      error before anything changes; otherwise the trailing public key
      refreshes the cached key, the box before it is opened into a plaintext
      of the remaining size, and the plaintext is unframed. */
  function DecryptData(s: Sodium, z: ZstdBlock, ctx: DecryptionContext, ct: bytes): (r: (DecryptionContext, Result<bytes, DecryptError>))
    requires |ctx.ephemeralPk| == BOX_PUBLICKEYBYTES
    ensures r.1 == Err(TooSmall) <==> |ct| < OVERHEAD
    ensures |ct| < OVERHEAD ==> r.0 == ctx
    ensures r.0.sk == ctx.sk && r.0.psk == ctx.psk && |r.0.ephemeralPk| == BOX_PUBLICKEYBYTES
    ensures |ct| >= OVERHEAD ==> r.0.ephemeralPk == ct[|ct| - BOX_PUBLICKEYBYTES..]
    ensures Coherent(s, ctx) ==> Coherent(s, r.0)
    ensures Coherent(s, ctx) ==> r.1 == DecryptUncached(s, z, ctx.sk, ctx.psk, ct)
  {
    if |ct| < OVERHEAD then (ctx, Err(TooSmall))
    else
      var ctx1 := RefreshKey(s, ctx, ct[|ct| - BOX_PUBLICKEYBYTES..]);
      var ptLen := |ct| - BOX_NONCEBYTES - BOX_MACBYTES - BOX_PUBLICKEYBYTES;
      match BoxDecrypt(s, ptLen, ct[..|ct| - BOX_PUBLICKEYBYTES], ctx1.ephemeralBk)
      case None => (ctx1, Err(DataCorrupt))
      case Some(pt) =>
        match DecompressChunk(z, pt)
        case Err(e) => (ctx1, Err(BadFrame(e)))
        case Ok(data) => (ctx1, Ok(data))
  }

  /** Decryption without the key cache: the box key is computed afresh from
      the public key the ciphertext carries. */
  function DecryptUncached(s: Sodium, z: ZstdBlock, sk: bytes, psk: bytes, ct: bytes): Result<bytes, DecryptError>
  {
    if |ct| < OVERHEAD then Err(TooSmall)
    else
      var key := ComputeKey(s, ct[|ct| - BOX_PUBLICKEYBYTES..], sk, psk);
      match BoxDecrypt(s, |ct| - OVERHEAD, ct[..|ct| - BOX_PUBLICKEYBYTES], key)
      case None => Err(DataCorrupt)
      case Some(pt) =>
        match DecompressChunk(z, pt)
        case Err(e) => Err(BadFrame(e))
        case Ok(data) => Ok(data)
  }

  /** What an encryption context keyed for the holder of `sk` produces,
      a coherent decryption context of that holder decrypts back to the
      plaintext, whichever framing was used. */
  lemma {:induction false} EncryptThenDecrypt(s: Sodium, z: ZstdBlock, ectx: EncryptionContext, ephemeralSk: bytes,
                           dctx: DecryptionContext, pt: bytes, compression: DataCompression)
    requires SodiumAxioms(s) && ZstdRoundTrips(z)
    requires EncKeyed(s, ectx, s.publicKey(dctx.sk), ephemeralSk, dctx.psk)
    requires Coherent(s, dctx) && |dctx.ephemeralPk| == BOX_PUBLICKEYBYTES
    requires compression == Zstd ==> |pt| <= 0xffff_ffff
    ensures var ct := EncryptData(s, z, ectx, pt, compression).1;
      var d := DecryptData(s, z, dctx, ct);
      d.1 == Ok(pt) && Coherent(s, d.0) && d.0.ephemeralPk == ectx.ephemeralPk
  {
    var framed := FrameChunk(z, pt, compression);
    var sealed := BoxEncrypt(s, |framed| + BOX_NONCEBYTES + BOX_MACBYTES, framed, ectx.nonce, ectx.ephemeralBk);
    var ct := sealed.value.bt + ectx.ephemeralPk;
    assert ct == EncryptData(s, z, ectx, pt, compression).1;
    assert ct[..|ct| - BOX_PUBLICKEYBYTES] == sealed.value.bt;
    assert ct[|ct| - BOX_PUBLICKEYBYTES..] == s.publicKey(ephemeralSk);
    ComputeKeyAgrees(s, dctx.sk, ephemeralSk, dctx.psk);
    assert ComputeKey(s, ct[|ct| - BOX_PUBLICKEYBYTES..], dctx.sk, dctx.psk) == ectx.ephemeralBk;
    BoxRoundTrip(s, framed, ectx.nonce, ectx.ephemeralBk);
    assert BoxDecrypt(s, |ct| - OVERHEAD, sealed.value.bt, ectx.ephemeralBk) == Some(framed);
    FrameRoundTrip(z, pt, compression);
  }

  /** The module's data_round_trip test: two encryption contexts for one
      recipient, one uncompressed and one zstd chunk, decrypted in turn by a
      fresh decryption context. */
  lemma {:induction false} DataRoundTripTest(s: Sodium, z: ZstdBlock, sk: bytes, psk: bytes,
                          nonce1: Nonce, esk1: bytes, nonce2: Nonce, esk2: bytes)
    requires SodiumAxioms(s) && ZstdRoundTrips(z)
    ensures var pk := s.publicKey(sk);
      var e1 := NewEncryptionContext(s, pk, psk, nonce1, esk1);
      var e2 := NewEncryptionContext(s, pk, psk, nonce2, esk2);
      var ct1 := EncryptData(s, z, e1, [1, 2, 3], NoCompression).1;
      var ct2 := EncryptData(s, z, e2, [1, 2, 3], Zstd).1;
      var d1 := DecryptData(s, z, NewDecryptionContext(sk, psk), ct1);
      var d2 := DecryptData(s, z, d1.0, ct2);
      d1.1 == Ok([1, 2, 3]) && d2.1 == Ok([1, 2, 3])
  {
    var pk := s.publicKey(sk);
    var e1 := NewEncryptionContext(s, pk, psk, nonce1, esk1);
    var e2 := NewEncryptionContext(s, pk, psk, nonce2, esk2);
    var d0 := NewDecryptionContext(sk, psk);
    NewDecryptionContextCoherent(s, sk, psk);
    EncryptThenDecrypt(s, z, e1, esk1, d0, [1, 2, 3], NoCompression);
    var d1 := DecryptData(s, z, d0, EncryptData(s, z, e1, [1, 2, 3], NoCompression).1);
    EncryptThenDecrypt(s, z, e2, esk2, d1.0, [1, 2, 3], Zstd);
  }

  /** A ciphertext shorter than a public key, nonce and MAC is refused
      without touching the cache; one whose box does not open is corrupt. */
  lemma {:induction false} DecryptErrors(s: Sodium, z: ZstdBlock, ctx: DecryptionContext, ct: bytes)
    requires |ctx.ephemeralPk| == BOX_PUBLICKEYBYTES && Coherent(s, ctx)
    requires |ct| >= OVERHEAD
    requires s.open(ct[BOX_NONCEBYTES..|ct| - BOX_PUBLICKEYBYTES], ct[..BOX_NONCEBYTES],
                    ComputeKey(s, ct[|ct| - BOX_PUBLICKEYBYTES..], ctx.sk, ctx.psk)) == None
    ensures DecryptData(s, z, ctx, ct).1 == Err(DataCorrupt)
  {
    var b := ct[..|ct| - BOX_PUBLICKEYBYTES];
    assert b[BOX_NONCEBYTES..] == ct[BOX_NONCEBYTES..|ct| - BOX_PUBLICKEYBYTES];
    assert b[..BOX_NONCEBYTES] == ct[..BOX_NONCEBYTES];
  }
}
