/** The plaintext framing of a data chunk (src/crypto.rs): a one-byte footer
    says whether the chunk is stored raw or zstd-compressed, and a compressed
    chunk carries its decompressed size as a little-endian u32 before the
    footer. */
module Framing {
  import opened Wrappers
  import opened Bytes

  const CHUNK_FOOTER_NO_COMPRESSION: byte := 0
  const CHUNK_FOOTER_ZSTD_COMPRESSED: byte := 1

  datatype DataCompression = NoCompression | Zstd

  /** zstd block compression, an uninterpreted pair of functions:
      `decompress(data, capacity)` fails when the data is not a valid block
      or does not fit the capacity. */
  datatype ZstdBlock = ZstdBlock(compress: bytes -> bytes, decompress: (bytes, nat) -> Option<bytes>)

  /** The only property of zstd the model relies on: a block decompresses,
      with its original size as capacity, to what was compressed. */
  ghost predicate ZstdRoundTrips(z: ZstdBlock)
  {
    forall d :: z.decompress(z.compress(d), |d|) == Some(d)
  }

  datatype FrameError =
    | MissingFooter            // "data chunk was too small, missing footer"
    | MissingDecompressedSize  // "data footer missing decompressed size"
    | UnknownFooter            // "unknown footer type type"
    | DecompressFailed         // the error zstd itself reports

  /** `zstd_compress_chunk`: keep the compressed form only when it saves
      more than the four size bytes. */
  function ZstdCompressChunk(z: ZstdBlock, data: bytes): (r: bytes)
    requires |data| <= 0xffff_ffff
    ensures 0 < |r| <= |data| + 1
    ensures r[|r| - 1] == CHUNK_FOOTER_NO_COMPRESSION ==> r == data + [CHUNK_FOOTER_NO_COMPRESSION]
    ensures r[|r| - 1] == CHUNK_FOOTER_ZSTD_COMPRESSED ==>
      |r| >= 5 && Le32Decode(r[|r| - 5..|r| - 1]) == |data| && r[..|r| - 5] == z.compress(data)
    ensures r[|r| - 1] == CHUNK_FOOTER_NO_COMPRESSION || r[|r| - 1] == CHUNK_FOOTER_ZSTD_COMPRESSED
    // the compressed form is chosen exactly when it is shorter than the data by more than the size bytes
    ensures r[|r| - 1] == CHUNK_FOOTER_ZSTD_COMPRESSED <==> |z.compress(data)| + 4 < |data|
  {
    var compressed := z.compress(data);
    if |compressed| + 4 >= |data| then
      data + [CHUNK_FOOTER_NO_COMPRESSION]
    else
      var r := compressed + Le32(|data|) + [CHUNK_FOOTER_ZSTD_COMPRESSED];
      assert r[|r| - 5..|r| - 1] == Le32(|data|);
      Le32RoundTrip(|data|);
      r
  }

  /** The framing `encrypt_data` applies before encryption. */
  function FrameChunk(z: ZstdBlock, data: bytes, compression: DataCompression): (r: bytes)
    requires compression == Zstd ==> |data| <= 0xffff_ffff
    ensures 0 < |r| <= |data| + 1
    ensures compression == NoCompression ==> r == data + [CHUNK_FOOTER_NO_COMPRESSION]
    ensures compression == Zstd ==> r == ZstdCompressChunk(z, data)
  {
    match compression
    case NoCompression => data + [CHUNK_FOOTER_NO_COMPRESSION]
    case Zstd => ZstdCompressChunk(z, data)
  }

  /** `decompress_chunk`: strip and interpret the footer. */
  function DecompressChunk(z: ZstdBlock, data: bytes): (r: Result<bytes, FrameError>)
    ensures r == Err(MissingFooter) <==> |data| == 0
    ensures r == Err(UnknownFooter) <==>
      |data| > 0 && data[|data| - 1] != CHUNK_FOOTER_NO_COMPRESSION && data[|data| - 1] != CHUNK_FOOTER_ZSTD_COMPRESSED
    ensures r == Err(MissingDecompressedSize) <==> 0 < |data| < 5 && data[|data| - 1] == CHUNK_FOOTER_ZSTD_COMPRESSED
    ensures r == Err(DecompressFailed) ==> |data| >= 5 && data[|data| - 1] == CHUNK_FOOTER_ZSTD_COMPRESSED
    ensures r.Ok? && data[|data| - 1] == CHUNK_FOOTER_NO_COMPRESSION ==> r.value + [CHUNK_FOOTER_NO_COMPRESSION] == data
    ensures r.Ok? && data[|data| - 1] == CHUNK_FOOTER_ZSTD_COMPRESSED ==>
      z.decompress(data[..|data| - 5], LeValue(data[|data| - 5..|data| - 1])) == Some(r.value)
  {
    if |data| == 0 then Err(MissingFooter)
    else
      var footer := data[|data| - 1];
      var body := data[..|data| - 1];
      if footer == CHUNK_FOOTER_NO_COMPRESSION then Ok(body)
      else if footer == CHUNK_FOOTER_ZSTD_COMPRESSED then
        if |body| < 4 then Err(MissingDecompressedSize)
        else
          var size := Le32Decode(body[|body| - 4..]);
          assert body[|body| - 4..] == data[|data| - 5..|data| - 1];
          assert body[..|body| - 4] == data[..|data| - 5];
          match z.decompress(body[..|body| - 4], size)
          case None => Err(DecompressFailed)
          case Some(d) => Ok(d)
      else Err(UnknownFooter)
  }

  /** Framing round trip for both modes, given only that zstd round-trips. */
  lemma {:induction false} FrameRoundTrip(z: ZstdBlock, data: bytes, compression: DataCompression)
    requires ZstdRoundTrips(z)
    requires compression == Zstd ==> |data| <= 0xffff_ffff
    ensures DecompressChunk(z, FrameChunk(z, data, compression)) == Ok(data)
  {
    var framed := FrameChunk(z, data, compression);
    if framed[|framed| - 1] == CHUNK_FOOTER_NO_COMPRESSION {
      assert framed[..|framed| - 1] == data;
    } else {
      assert z.decompress(z.compress(data), |data|) == Some(data);
    }
  }

  /** The three decoding failures the footer check reports. */
  lemma {:induction false} DecodeErrors(z: ZstdBlock)
    ensures DecompressChunk(z, []) == Err(MissingFooter)
    ensures DecompressChunk(z, [7, 7, 7, 1]) == Err(MissingDecompressedSize)
    ensures DecompressChunk(z, [1, 2, 3, 2]) == Err(UnknownFooter)
  {
  }
}
