/** Byte sequences: what a write at an offset makes of one. */
module Bytes {
  type Byte = x: nat | x < 256

  function Min(a: nat, b: nat): nat {
    if a < b then a else b
  }

  function Max(a: nat, b: nat): nat {
    if a < b then b else a
  }

  /** The byte sequence a write of data at off makes of c. */
  function Overwrite(c: seq<Byte>, off: nat, data: seq<Byte>): (r: seq<Byte>)
    requires off <= |c|
    ensures |r| == Max(|c|, off + |data|)
    ensures r[off..off + |data|] == data
  {
    c[..off] + data + (if off + |data| < |c| then c[off + |data|..] else [])
  }

  // ---- Little-endian words ----

  function Word32(s: seq<Byte>, p: nat): (v: nat)
    requires p + 4 <= |s|
    ensures v < 0x1_0000_0000
  {
    (s[p] as int) + 0x100 * (s[p + 1] as int) + 0x1_0000 * (s[p + 2] as int) + 0x100_0000 * (s[p + 3] as int)
  }

  function PutWord32(s: seq<Byte>, p: nat, v: nat): (r: seq<Byte>)
    requires p + 4 <= |s| && v < 0x1_0000_0000
    ensures |r| == |s|
  {
    s[..p] + [v % 0x100, v / 0x100 % 0x100, v / 0x1_0000 % 0x100, v / 0x100_0000] + s[p + 4..]
  }

  lemma Nested(v: nat)
    ensures v / 0x1_0000 == v / 0x100 / 0x100 && v / 0x100_0000 == v / 0x100 / 0x100 / 0x100
  {}

  lemma LowByte(v: nat)
    ensures v == v % 0x100 + 0x100 * (v / 0x100)
  {}

  /** A word is its four bytes. */
  lemma FourBytes(v: nat)
    requires v < 0x1_0000_0000
    ensures v
         == v % 0x100 + 0x100 * (v / 0x100 % 0x100) + 0x1_0000 * (v / 0x1_0000 % 0x100) + 0x100_0000 * (v / 0x100_0000)
    ensures v / 0x100_0000 < 0x100
  {
    Nested(v);
    LowByte(v);
    LowByte(v / 0x100);
    LowByte(v / 0x100 / 0x100);
  }

  lemma Put32Same(s: seq<Byte>, p: nat, v: nat)
    requires p + 4 <= |s| && v < 0x1_0000_0000
    ensures Word32(PutWord32(s, p, v), p) == v
  {
    FourBytes(v);
  }

  lemma Put32Other(s: seq<Byte>, p: nat, v: nat, q: nat)
    requires p + 4 <= |s| && v < 0x1_0000_0000 && q + 4 <= |s| && (q + 4 <= p || p + 4 <= q)
    ensures Word32(PutWord32(s, p, v), q) == Word32(s, q)
  {}
}
