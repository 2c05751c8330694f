/** Little-endian fields in a byte buffer whose positions and values are numbers. */
module Bytes {

  type uint8 = b: int | 0 <= b < 0x100
  type uint16 = n: int | 0 <= n < 0x1_0000
  type uint32 = n: int | 0 <= n < 0x1_0000_0000
  type uint64 = n: int | 0 <= n < 0x1_0000_0000_0000_0000

  const TWO_32: int := 0x1_0000_0000
  const TWO_64: int := 0x1_0000_0000_0000_0000

  function Enc16(v: uint16): (b: seq<uint8>)
    ensures |b| == 2
  {
    [v % 0x100, v / 0x100]
  }

  function Enc32(v: uint32): (b: seq<uint8>)
    ensures |b| == 4
  {
    Enc16(v % 0x1_0000) + Enc16(v / 0x1_0000)
  }

  function Enc64(v: uint64): (b: seq<uint8>)
    ensures |b| == 8
  {
    Enc32(v % TWO_32) + Enc32(v / TWO_32)
  }

  function U16(m: seq<uint8>, o: nat): (v: uint16)
    requires o + 2 <= |m|
  {
    m[o] as int + 0x100 * m[o + 1] as int
  }

  function U32(m: seq<uint8>, o: nat): (v: uint32)
    requires o + 4 <= |m|
  {
    U16(m, o) as int + 0x1_0000 * U16(m, o + 2) as int
  }

  function U64(m: seq<uint8>, o: nat): (v: uint64)
    requires o + 8 <= |m|
  {
    U32(m, o) as int + TWO_32 * U32(m, o + 4) as int
  }

  /** The buffer with the bytes s stored at offset o. */
  function Put(m: seq<uint8>, o: nat, s: seq<uint8>): (m': seq<uint8>)
    requires o + |s| <= |m|
    ensures |m'| == |m|
    ensures forall i :: 0 <= i < |m| ==> m'[i] == if o <= i < o + |s| then s[i - o] else m[i]
  {
    m[..o] + s + m[o + |s|..]
  }

  /** The four bytes at o are v, lowest byte first. */
  predicate IsLe32(m: seq<uint8>, o: nat, v: uint32)
    requires o + 4 <= |m|
  {
    v == m[o] as int + 0x100 * m[o + 1] as int + 0x1_0000 * m[o + 2] as int + 0x100_0000 * m[o + 3] as int
  }

  lemma Enc32IsLe(m: seq<uint8>, o: nat, v: uint32)
    requires o + 4 <= |m| && m[o..o + 4] == Enc32(v)
    ensures IsLe32(m, o, v)
  {
    hide U16, Enc32;
    ReadBack32(m, o, v);
    TwoHalves(m, o);
  }

  lemma TwoHalves(m: seq<uint8>, o: nat)
    requires o + 4 <= |m|
    ensures IsLe32(m, o, U32(m, o))
  {
  }

  lemma ReadBack16(m: seq<uint8>, o: nat, v: uint16)
    requires o + 2 <= |m| && m[o..o + 2] == Enc16(v)
    ensures U16(m, o) == v
  {
    assert m[o] == m[o..o + 2][0] && m[o + 1] == m[o..o + 2][1];
  }

  lemma ReadBack32(m: seq<uint8>, o: nat, v: uint32)
    requires o + 4 <= |m| && m[o..o + 4] == Enc32(v)
    ensures U32(m, o) == v
  {
    hide U16, Enc16;
    assert m[o..o + 2] == m[o..o + 4][..2] && m[o + 2..o + 4] == m[o..o + 4][2..];
    ReadBack16(m, o, v % 0x1_0000);
    ReadBack16(m, o + 2, v / 0x1_0000);
  }

  lemma ReadBack64(m: seq<uint8>, o: nat, v: uint64)
    requires o + 8 <= |m| && m[o..o + 8] == Enc64(v)
    ensures U64(m, o) == v
  {
    hide U32, Enc32;
    assert m[o..o + 4] == m[o..o + 8][..4] && m[o + 4..o + 8] == m[o..o + 8][4..];
    ReadBack32(m, o, v % TWO_32);
    ReadBack32(m, o + 4, v / TWO_32);
  }

  lemma PutFrame(m: seq<uint8>, o: nat, s: seq<uint8>, p: nat)
    requires o + |s| <= |m|
    ensures p + 4 <= |m| && (p + 4 <= o || o + |s| <= p) ==> U32(Put(m, o, s), p) == U32(m, p)
    ensures p + 2 <= |m| && (p + 2 <= o || o + |s| <= p) ==> U16(Put(m, o, s), p) == U16(m, p)
  {
  }
}
