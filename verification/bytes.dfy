/** Byte strings and the little-endian integer encodings the engine uses. */
module Bytes {

  type byte = x: int | 0 <= x < 256

  type bytes = seq<byte>

  function Zeros(n: nat): (z: bytes)
    ensures |z| == n
    ensures forall i :: 0 <= i < n ==> z[i] == 0
  {
    seq(n, _ => 0)
  }

  function Pow256(n: nat): (p: nat)
    ensures p >= 1
  {
    if n == 0 then 1 else 256 * Pow256(n - 1)
  }

  /** The unsigned integer a byte string denotes, least significant byte first. */
  function LeValue(b: bytes): nat
  {
    if |b| == 0 then 0 else b[0] + 256 * LeValue(b[1..])
  }

  /** The `len`-byte little-endian representation of `n`, reduced modulo 256^len. */
  function LeBytes(n: nat, len: nat): (b: bytes)
    ensures |b| == len
    ensures LeValue(b) == n % Pow256(len)
  {
    if len == 0 then []
    else
      var rest := LeBytes(n / 256, len - 1);
      assert ([n % 256] + rest)[1..] == rest;
      ModSplit(n, Pow256(len - 1));
      [n % 256] + rest
  }

  /** Reducing modulo `256 * p` keeps the low byte and reduces the rest modulo `p`. */
  lemma {:induction false} ModSplit(n: nat, p: nat)
    requires p >= 1
    ensures n % (256 * p) == n % 256 + 256 * ((n / 256) % p)
  {
    var q, r := n / 256, n % 256;
    assert n == 256 * p * (q / p) + (256 * (q % p) + r);
    ModUnique(n, 256 * p, q / p, 256 * (q % p) + r);
  }

  lemma {:induction false} ModUnique(n: int, m: int, k: int, b: int)
    requires m > 0 && n == m * k + b && 0 <= b < m
    ensures n % m == b
  {
    var d := n / m;
    assert m * d + n % m == m * k + b;
    assert m * (d - k) == b - n % m;
    if d > k {
      MulAtLeast(m, d - k);
    } else if d < k {
      MulAtLeast(m, k - d);
    }
  }

  lemma {:induction false} MulAtLeast(m: int, x: int)
    requires m > 0 && x >= 1
    ensures m * x >= m
  {
  }

  lemma {:induction false} LeValueBound(b: bytes)
    ensures LeValue(b) < Pow256(|b|)
  {
    if |b| > 0 {
      LeValueBound(b[1..]);
    }
  }

  /** Decoding the encoding of an in-range value gives the value back. */
  lemma {:induction false} LeValueOfLeBytes(n: nat, len: nat)
    requires n < Pow256(len)
    ensures LeValue(LeBytes(n, len)) == n
  {
    ModUnique(n, Pow256(len), 0, n);
  }

  /** Encoding the value of a byte string gives the byte string back. */
  lemma {:induction false} LeBytesOfLeValue(b: bytes)
    ensures LeBytes(LeValue(b), |b|) == b
  {
    if |b| > 0 {
      LeBytesOfLeValue(b[1..]);
      assert (b[0] + 256 * LeValue(b[1..])) / 256 == LeValue(b[1..]);
    }
  }

  /** Two byte strings of one length with one value are equal. */
  lemma {:induction false} LeValueInjective(a: bytes, b: bytes)
    requires |a| == |b| && LeValue(a) == LeValue(b)
    ensures a == b
  {
    LeBytesOfLeValue(a);
    LeBytesOfLeValue(b);
  }

  /** The four size bytes `zstd_compress_chunk` appends: `sz & 0xff`, then
      `(sz & 0xff00) >> 8`, `(sz & 0xff0000) >> 16` and `(sz & 0xff000000) >> 24`. */
  function Le32(sz: nat): (r: bytes)
    requires sz <= 0xffff_ffff
    ensures |r| == 4 && LeValue(r) == sz
  {
    var r := [sz % 0x100, (sz / 0x100) % 0x100, (sz / 0x1_0000) % 0x100, sz / 0x100_0000];
    LeValueOfFour(r);
    r
  }

  /** `decompress_chunk`'s reading of the four bytes before the footer:
      `(b3 << 24) | (b2 << 16) | (b1 << 8) | b0`; the shifted fields do not overlap,
      so the bitwise or is a sum. */
  function Le32Decode(b: bytes): (sz: nat)
    requires |b| == 4
    ensures sz <= 0xffff_ffff && sz == LeValue(b)
  {
    LeValueOfFour(b);
    (b[3] as int) * 0x100_0000 + (b[2] as int) * 0x1_0000 + (b[1] as int) * 0x100 + (b[0] as int)
  }

  lemma {:induction false} LeValueOfFour(b: bytes)
    requires |b| == 4
    ensures LeValue(b) == b[0] as int + 0x100 * (b[1] as int) + 0x1_0000 * (b[2] as int) + 0x100_0000 * (b[3] as int)
  {
    assert LeValue(b[3..]) == b[3] as int by {
      assert b[3..][1..] == [];
    }
    assert LeValue(b[2..]) == b[2] as int + 0x100 * (b[3] as int) by {
      assert b[2..][1..] == b[3..];
    }
    assert LeValue(b[1..]) == b[1] as int + 0x100 * (b[2] as int) + 0x1_0000 * (b[3] as int) by {
      assert b[1..][1..] == b[2..];
    }
  }

  lemma {:induction false} Le32RoundTrip(sz: nat)
    requires sz <= 0xffff_ffff
    ensures Le32Decode(Le32(sz)) == sz
  {
  }

  lemma {:induction false} Le32DecodeRoundTrip(b: bytes)
    requires |b| == 4
    ensures Le32(Le32Decode(b)) == b
  {
    LeValueInjective(Le32(Le32Decode(b)), b);
  }
}
