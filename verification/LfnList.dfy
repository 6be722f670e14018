/**
  freaddir() of kernel/fat32.c: the next short entry, and the long name it collects walking back over
  the entries before it.
*/
module LfnList {
  import opened Bytes
  import opened Lfn
  import opened LfnLookup

  /** Entry e continues a long name backwards: the next sequence number, the same checksum. */
  predicate Continues(e: Raw, s: nat, cksum: Byte) {
    e[0] != 0 && e[0] != 0xE5 && IsLong(e) && e[13] == cksum && SeqOf(e) == s
  }

  /** The characters freaddir() collects walking back from index p, expecting sequence number s. */
  function LongChars(dir: seq<Raw>, p: nat, s: nat, cksum: Byte): (c: seq<Ushort>)
    requires p <= |dir|
  {
    if p == 0 || !Continues(dir[p - 1], s, cksum) then []
    else Chars(dir[p - 1]) + LongChars(dir, p - 1, s + 1, cksum)
  }

  /** The short name, lower case, with a dot before a non-empty extension. */
  function ShortName(short: seq<Byte>): Name
    requires |short| == 11
  {
    LowerUntilSpace(short[..8]) + (if short[8] != 32 then [46] + LowerUntilSpace(short[8..]) else [])
  }

  function LowerUntilSpace(s: seq<Byte>): Name {
    if s == [] || s[0] == 32 then [] else [Lower(s[0])] + LowerUntilSpace(s[1..])
  }

  /** A sequence number is at most 191, so the walk back ends. */
  lemma {:induction false} LongCharsBound(dir: seq<Raw>, p: nat, s: nat, cksum: Byte)
    requires p <= |dir| && 1 <= s <= 192
    ensures |LongChars(dir, p, s, cksum)| <= (192 - s) * PER_ENTRY
  {
    hide Chars;
    if p > 0 && Continues(dir[p - 1], s, cksum) {
      LongCharsBound(dir, p - 1, s + 1, cksum);
    }
  }

  /** The collected characters as they are read back: past the 260 of the buffer nothing was stored. */
  function Kept(c: seq<Ushort>, junk: Mem): (u: seq<Ushort>)
    requires |c| <= MEM
    ensures |u| == |c| && forall i | 0 <= i < |c| :: u[i] == if i < BUF then c[i] else junk[i]
  {
    seq(|c|, i requires 0 <= i < |c| => if i < BUF then c[i] else junk[i])
  }

  /** The name freaddir() reports for the short entry at index p. */
  function NameAt(dir: seq<Raw>, p: nat, junk: Mem): Name
    requires p < |dir|
  {
    var c := LongChars(dir, p, 1, Checksum(dir[p][..11]));
    LongCharsBound(dir, p, 1, Checksum(dir[p][..11]));
    if c == [] then ShortName(dir[p][..11]) else DecodeDir(Kept(c, junk), 0)
  }

  /** The first short entry from index i on. */
  function NextLive(dir: seq<Raw>, i: nat): (r: Found)
    ensures r.At? ==> i <= r.index < |dir|
    decreases |dir| - i
  {
    if i >= |dir| || dir[i][0] == 0 then None
    else if dir[i][0] == 0xE5 || IsLong(dir[i]) then NextLive(dir, i + 1)
    else At(i)
  }

  lemma {:induction false} RunIsSkipped(dir: seq<Raw>, off: nat, name: Name, short: Raw, s: nat)
    requires HasRun(dir, off, name, short) && s <= Needed(|name|)
    ensures NextLive(dir, off + Needed(|name|) - s) == At(off + Needed(|name|))
  {
    hide Needed, RunEntry, Checksum;
    if s > 0 {
      RunEntryReads(name, Needed(|name|), Checksum(short[..11]), s);
      RunIsSkipped(dir, off, name, short, s - 1);
    }
  }

  /** Walking back over the run collects the padded name, then goes on with what precedes the run. */
  lemma {:induction false} RunChars(dir: seq<Raw>, off: nat, name: Name, short: Raw, s: nat)
    requires HasRun(dir, off, name, short) && 1 <= s <= Needed(|name|) + 1
    ensures var n, cksum := Needed(|name|), Checksum(short[..11]);
            LongChars(dir, off + n - s + 1, s, cksum)
            == Padded(name, n)[(s - 1) * PER_ENTRY..] + LongChars(dir, off, n + 1, cksum)
    decreases Needed(|name|) + 1 - s
  {
    hide Needed, RunEntry, Checksum, Padded, Chars;
    var n, cksum := Needed(|name|), Checksum(short[..11]);
    var u := Padded(name, n);
    if s <= n {
      RunEntryReads(name, n, cksum, s);
      RunChars(dir, off, name, short, s + 1);
      assert u[(s - 1) * PER_ENTRY..] == u[(s - 1) * PER_ENTRY..s * PER_ENTRY] + u[s * PER_ENTRY..];
    } else {
      assert u[n * PER_ENTRY..] == [];
    }
  }

  /** What freaddir() reads behind the n entries of a run: the entries before it as a continuation. */
  function Rest(dir: seq<Raw>, off: nat, n: nat, cksum: Byte, junk: Mem): seq<Ushort>
    requires off <= |dir| && n <= 20
  {
    LongCharsBound(dir, off, n + 1, cksum);
    Kept(seq(n * PER_ENTRY, _ => 0) + LongChars(dir, off, n + 1, cksum), junk)[n * PER_ENTRY..]
  }

  /**
    freaddir() reports the name verbatim exactly when its length is not a multiple of 13 (the run then
    carries a terminator) or the entries before the run, read as a continuation of it, spell nothing.
  */
  lemma ReaddirVerbatimIff(dir: seq<Raw>, off: nat, name: Name, short: Raw, junk: Mem)
    requires HasRun(dir, off, name, short)
    ensures var n := Needed(|name|);
            NameAt(dir, off + n, junk) == name <==>
              |name| % PER_ENTRY != 0 || DecodeDir(Rest(dir, off, n, Checksum(short[..11]), junk), |name|) == []
  {
    hide RunEntry, Checksum, Padded, Chars, LongChars, DecodeDir, Needed;
    var n, cksum := Needed(|name|), Checksum(short[..11]);
    NeededBounds(|name|);
    WholeRows(|name|);
    RunChars(dir, off, name, short, 1);
    var u, rest := Padded(name, n), LongChars(dir, off, n + 1, cksum);
    assert u[0..] == u;
    LongCharsBound(dir, off, n + 1, cksum);
    CutSum(u, rest, junk);
    DecodePadded(name, n, Kept(u + rest, junk));
  }

  lemma WholeRows(len: nat)
    requires 1 <= len <= NAME_MAX
    ensures len % PER_ENTRY == 0 <==> len == Needed(len) * PER_ENTRY
  {}

  lemma CutSum(u: seq<Ushort>, rest: seq<Ushort>, junk: Mem)
    requires |u| <= BUF && |u| + |rest| <= MEM
    ensures var c := Kept(u + rest, junk); c[..|u|] == u && c[|u|..] == Kept(seq(|u|, _ => 0) + rest, junk)[|u|..]
  {}

  lemma DecodePadded(name: Name, n: nat, c: seq<Ushort>)
    requires Ascii(name) && |name| <= NAME_MAX && |name| <= n * PER_ENTRY <= |c|
    requires c[..n * PER_ENTRY] == Padded(name, n)
    ensures DecodeDir(c, 0) == name <==> |name| < n * PER_ENTRY || DecodeDir(c[n * PER_ENTRY..], |name|) == []
  {
    hide Padded;
    PaddedStarts(name, n, c);
    DecodeName(c, name, 0);
    LongerOnly(name, DecodeDir(c[|name|..], |name|));
  }

  lemma LongerOnly(a: Name, b: Name)
    ensures a + b == a <==> b == []
  {
    if b != [] { assert |a + b| > |a|; } else { assert a + b == a; }
  }

  /**
    No entry of the same checksum numbered n+1 before the run: every name of 1..255 characters is
    reported verbatim.
  */
  lemma ReaddirVerbatim(dir: seq<Raw>, off: nat, name: Name, short: Raw, junk: Mem)
    requires HasRun(dir, off, name, short)
    requires off == 0 || !Continues(dir[off - 1], Needed(|name|) + 1, Checksum(short[..11]))
    ensures NameAt(dir, off + Needed(|name|), junk) == name
  {
    hide Checksum, Needed, RunEntry, Padded, Continues, NameAt;
    NeededBounds(|name|);
    ReaddirVerbatimIff(dir, off, name, short, junk);
    assert LongChars(dir, off, Needed(|name|) + 1, Checksum(short[..11])) == [];
    assert Rest(dir, off, Needed(|name|), Checksum(short[..11]), junk) == [];
  }

  /** Such an entry, if it starts with an ordinary character, lengthens a name of a multiple of 13 characters. */
  lemma OrphanLengthens(dir: seq<Raw>, off: nat, name: Name, short: Raw, junk: Mem)
    requires HasRun(dir, off, name, short) && |name| % PER_ENTRY == 0 && 0 < off
    requires Continues(dir[off - 1], Needed(|name|) + 1, Checksum(short[..11])) && 0 < CharAt(dir[off - 1], 0) < 128
    ensures NameAt(dir, off + Needed(|name|), junk) != name
  {
    hide Checksum, Padded, LongChars, DecodeDir, NameAt, RunEntry, Chars;
    NeededBounds(|name|);
    ReaddirVerbatimIff(dir, off, name, short, junk);
    var n := Needed(|name|);
    FirstOrphan(dir, off, n + 1, Checksum(short[..11]));
    FirstDecoded(Rest(dir, off, n, Checksum(short[..11]), junk), |name|);
  }

  lemma FirstChar(e: Raw)
    ensures Chars(e)[0] == CharAt(e, 0)
  {}

  lemma FirstOrphan(dir: seq<Raw>, p: nat, s: nat, cksum: Byte)
    requires 0 < p <= |dir| && Continues(dir[p - 1], s, cksum)
    ensures var c := LongChars(dir, p, s, cksum); |c| > 0 && c[0] == CharAt(dir[p - 1], 0)
  {
    assert Chars(dir[p - 1])[0] == CharAt(dir[p - 1], 0);
  }

  lemma FirstDecoded(u: seq<Ushort>, len: nat)
    requires u != [] && 0 < u[0] < 128 && len < NAME_MAX
    ensures DecodeDir(u, len) != []
  {}

  /** A directory in which freaddir() does not report a 13-character name verbatim. */
  lemma OrphanExample(name: Name, short: Raw, junk: Mem) returns (dir: seq<Raw>)
    requires |name| == PER_ENTRY && Ascii(name) && !IsLong(short) && short[0] != 0 && short[0] != 0xE5
    ensures HasRun(dir, 1, name, short) && NameAt(dir, 2, junk) != name
  {
    hide Checksum, Padded, NameAt, LongEntry, Chars;
    var cksum, c := Checksum(short[..11]), seq(PER_ENTRY, _ => 98);
    var orphan := LongEntry(2, cksum, c);
    LongEntryReads(2, cksum, c);
    dir := [orphan, RunEntry(name, 1, cksum, 1), short];
    assert Chars(orphan)[0] == CharAt(orphan, 0) by { FirstChar(orphan); }
    OrphanLengthens(dir, 1, name, short, junk);
  }
}
