/** The rolling checksum the chunker and the tree writer consult.
    Its implementation (src/rollsum.rs) is not part of this model: a rollsum is
    represented by the bytes rolled into it since its last reset, and its split
    decision by an oracle over those bytes. Every deterministic rolling checksum
    is such an oracle; no windowing property is assumed. */
module Rollsum {
  import opened Bytes

  /** Whether the checksum signals a split after rolling exactly these bytes since a reset. */
  type Oracle = bytes -> bool

  datatype Rollsum = Rollsum(rolled: bytes)

  /** `Rollsum::reset`, and the state of a fresh `Rollsum::new`. */
  function Reset(): Rollsum
  {
    Rollsum([])
  }

  /** `Rollsum::roll_byte`: roll one byte in and report the split decision. */
  function RollByte(rs: Rollsum, split: Oracle, b: byte): (Rollsum, bool)
  {
    var rolled := rs.rolled + [b];
    (Rollsum(rolled), split(rolled))
  }

  /** Rolling every byte of `bs` in order, as the tree writer does with an
      address: the split decision is whether any prefix rolled so far
      signalled a split. */
  function RollBytes(rs: Rollsum, split: Oracle, bs: bytes): (r: (Rollsum, bool))
    ensures r.0.rolled == rs.rolled + bs
    ensures r.1 <==> exists i :: 0 < i <= |bs| && split(rs.rolled + bs[..i])
    decreases |bs|
  {
    if |bs| == 0 then (rs, false)
    else
      var (rs1, f1) := RollByte(rs, split, bs[0]);
      var (rs2, f2) := RollBytes(rs1, split, bs[1..]);
      assert rs.rolled + bs[..1] == rs1.rolled;
      assert rs1.rolled + bs[1..] == rs.rolled + bs;
      assert f2 || f1 <==> exists i :: 0 < i <= |bs| && split(rs.rolled + bs[..i]) by {
        if f2 {
          var j :| 0 < j <= |bs[1..]| && split(rs1.rolled + bs[1..][..j]);
          assert rs1.rolled + bs[1..][..j] == rs.rolled + bs[..j + 1];
        }
        if exists i :: 0 < i <= |bs| && split(rs.rolled + bs[..i]) {
          var i :| 0 < i <= |bs| && split(rs.rolled + bs[..i]);
          if i > 1 {
            assert rs1.rolled + bs[1..][..i - 1] == rs.rolled + bs[..i];
          }
        }
      }
      (rs2, f2 || f1)
  }
}
