/**
  VFAT long names, kernel/fat32.c: the 32-byte directory entries dwrite_lfn() prints and the state
  machines of dlookup() and freaddir() that parse them back. A directory is its sequence of 32-byte
  entries in cluster-chain order.
*/
module Lfn {
  import opened Bytes

  const PER_ENTRY: nat := 13
  const BUF: nat := 260
  const NAME_MAX: nat := 255
  const ATTR_LONG_NAME: nat := 0x0F
  const PAD: nat := 0xFFFF

  type Ushort = x: nat | x < 0x1_0000
  type Raw = e: seq<Byte> | |e| == 32 witness seq(32, _ => 0)
  type Name = seq<Byte>

  /** A C string of ASCII characters. */
  predicate Ascii(name: Name) {
    forall i | 0 <= i < |name| :: 0 < name[i] < 128
  }

  // ---- One entry ----

  predicate IsLast(e: Raw) {
    e[0] / 64 % 2 == 1
  }

  function SeqOf(e: Raw): nat {
    if IsLast(e) then e[0] - 64 else e[0]
  }

  predicate IsLong(e: Raw) {
    e[11] == ATTR_LONG_NAME
  }

  /** Where character i of a long-name entry is: name1[5], name2[6], name3[2]. */
  function CharPos(i: nat): (p: nat)
    requires i < PER_ENTRY
    ensures p < 31
  {
    if i < 5 then 1 + 2 * i else if i < 11 then 14 + 2 * (i - 5) else 28 + 2 * (i - 11)
  }

  function CharAt(e: Raw, i: nat): Ushort
    requires i < PER_ENTRY
  {
    (e[CharPos(i)] as int) + 0x100 * (e[CharPos(i) + 1] as int)
  }

  function Chars(e: Raw): (c: seq<Ushort>)
    ensures |c| == PER_ENTRY
  {
    seq(PER_ENTRY, i requires 0 <= i < PER_ENTRY => CharAt(e, i))
  }

  /** lfn_checksum(): a rotating sum of the short name. */
  function Checksum(short: seq<Byte>): Byte {
    if short == [] then 0
    else var s := Checksum(short[..|short| - 1]);
         (s % 2 * 128 + s / 2 + short[|short| - 1]) % 256
  }

  /** The entry dwrite_lfn() builds from 13 characters. */
  function LongEntry(first: Byte, cksum: Byte, c: seq<Ushort>): (e: Raw)
    requires |c| == PER_ENTRY
  {
    seq(32, p requires 0 <= p < 32 => LongByte(first, cksum, c, p))
  }

  function LongByte(first: Byte, cksum: Byte, c: seq<Ushort>, p: nat): Byte
    requires |c| == PER_ENTRY && p < 32
  {
    if p == 0 then first
    else if p <= 10 then HalfOf(c[(p - 1) / 2], (p - 1) % 2)
    else if p == 11 then ATTR_LONG_NAME
    else if p == 12 then 0
    else if p == 13 then cksum
    else if p <= 25 then HalfOf(c[5 + (p - 14) / 2], (p - 14) % 2)
    else if p <= 27 then 0
    else HalfOf(c[11 + (p - 28) / 2], (p - 28) % 2)
  }

  function HalfOf(c: Ushort, half: nat): Byte {
    if half == 0 then c % 0x100 else c / 0x100
  }

  lemma LongEntryReads(first: Byte, cksum: Byte, c: seq<Ushort>)
    requires |c| == PER_ENTRY
    ensures var e := LongEntry(first, cksum, c); e[0] == first && IsLong(e) && e[13] == cksum && Chars(e) == c
  {
    var e := LongEntry(first, cksum, c);
    forall i | 0 <= i < PER_ENTRY ensures CharAt(e, i) == c[i] {
      var p := CharPos(i);
      assert e[p] == LongByte(first, cksum, c, p) == HalfOf(c[i], 0);
      assert e[p + 1] == LongByte(first, cksum, c, p + 1) == HalfOf(c[i], 1);
    }
  }

  // ---- The printer ----

  function Needed(len: nat): nat {
    if len == 0 then 0 else (len + PER_ENTRY - 1) / PER_ENTRY
  }

  /** The name as 13*n characters: a terminator if there is room, then padding. */
  function Padded(name: Name, n: nat): (u: seq<Ushort>)
    requires |name| <= n * PER_ENTRY
    ensures |u| == n * PER_ENTRY
  {
    seq(n * PER_ENTRY, i requires 0 <= i < n * PER_ENTRY => if i < |name| then name[i] else if i == |name| then 0
                                                            else PAD)
  }

  function SeqByte(s: nat, n: nat): Byte
    requires 1 <= s <= n <= 20
  {
    if s == n then s + 64 else s
  }

  /** Entry number s (1..n) of the run for a name. */
  function RunEntry(name: Name, n: nat, cksum: Byte, s: nat): Raw
    requires |name| <= n * PER_ENTRY && 1 <= s <= n <= 20
  {
    LongEntry(SeqByte(s, n), cksum, Padded(name, n)[(s - 1) * PER_ENTRY..s * PER_ENTRY])
  }

  /** The directory holds the run for name at index off: entries n, n-1, ..., 1, then the short entry. */
  ghost predicate HasRun(dir: seq<Raw>, off: nat, name: Name, short: Raw) {
    var n := Needed(|name|);
    && 1 <= |name| <= NAME_MAX && Ascii(name) && off + n < |dir|
    && !IsLong(short) && short[0] != 0 && short[0] != 0xE5 && dir[off + n] == short
    && n <= 20 && |name| <= n * PER_ENTRY
    && (forall s | 1 <= s <= n :: dir[off + n - s] == RunEntry(name, n, Checksum(short[..11]), s))
  }

  lemma NeededBounds(len: nat)
    requires 1 <= len <= NAME_MAX
    ensures 1 <= Needed(len) <= 20 && len <= Needed(len) * PER_ENTRY < len + PER_ENTRY
  {}

  lemma RunEntryReads(name: Name, n: nat, cksum: Byte, s: nat)
    requires |name| <= n * PER_ENTRY && 1 <= s <= n <= 20
    ensures var e := RunEntry(name, n, cksum, s);
            && e[0] != 0 && e[0] != 0xE5 && IsLong(e) && e[13] == cksum && SeqOf(e) == s && (IsLast(e) <==> s == n)
            && Chars(e) == Padded(name, n)[(s - 1) * PER_ENTRY..s * PER_ENTRY]
  {
    hide LongEntry, Padded, Chars, IsLong;
    LongEntryReads(SeqByte(s, n), cksum, Padded(name, n)[(s - 1) * PER_ENTRY..s * PER_ENTRY]);
  }

  // ---- Characters back to a name ----

  /** The decoding of dlookup(): stops at NUL or padding, drops non-ASCII. */
  function Decode(u: seq<Ushort>, len: nat): (name: Name)
    decreases |u|
  {
    if u == [] || len >= NAME_MAX || u[0] == 0 || u[0] == PAD then []
    else if u[0] < 128 then [u[0]] + Decode(u[1..], len + 1)
    else Decode(u[1..], len)
  }

  /** The decoding of freaddir(): stops at NUL, skips padding and non-ASCII. */
  function DecodeDir(u: seq<Ushort>, len: nat): (name: Name)
    decreases |u|
  {
    if u == [] || len >= NAME_MAX || u[0] == 0 then []
    else if u[0] < 128 then [u[0]] + DecodeDir(u[1..], len + 1)
    else DecodeDir(u[1..], len)
  }

  ghost predicate StartsWith(u: seq<Ushort>, name: Name) {
    |name| <= |u| && forall i | 0 <= i < |name| :: u[i] == name[i]
  }

  /** A name followed by a terminator, or by nothing, decodes to itself in both readers. */
  lemma {:induction false} DecodeName(u: seq<Ushort>, name: Name, len: nat)
    requires Ascii(name) && StartsWith(u, name) && len + |name| <= NAME_MAX
    ensures |u| == |name| || u[|name|] == 0 ==> Decode(u, len) == name && DecodeDir(u, len) == name
    ensures DecodeDir(u, len) == name + DecodeDir(u[|name|..], len + |name|)
    decreases |name|
  {
    if name == [] {
      assert u[0..] == u;
    } else {
      DecodeName(u[1..], name[1..], len + 1);
      assert u[1..][|name| - 1..] == u[|name|..];
      assert name == [name[0]] + name[1..];
      assert u[0] == name[0];
    }
  }

  lemma PaddedStarts(name: Name, n: nat, u: seq<Ushort>)
    requires Ascii(name) && |name| <= n * PER_ENTRY <= |u| && u[..n * PER_ENTRY] == Padded(name, n)
    ensures StartsWith(u, name) && (|name| < n * PER_ENTRY ==> u[|name|] == 0)
  {
    assert forall i | 0 <= i < n * PER_ENTRY :: u[i] == u[..n * PER_ENTRY][i];
  }
}
