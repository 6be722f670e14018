/**
  The loops of kernel/fat32.c over directory entries: dwrite_lfn() writing a run, dlookup() and
  freaddir() reading, each proved against LfnLookup and LfnList. The character buffer is the first 260
  elements of the memory it lies in; what a loop reads past it is whatever that memory holds.
*/
module LfnDir {
  import opened Bytes
  import opened Lfn
  import opened LfnLookup
  import opened LfnList

  /** lfn_checksum() */
  method LfnChecksum(short: seq<Byte>) returns (sum: Byte)
    requires |short| == 11
    ensures sum == Checksum(short)
  {
    sum := 0;
    for i := 0 to 11
      invariant sum == Checksum(short[..i])
    {
      assert short[..i + 1][..i] == short[..i];
      sum := (sum % 2 * 128 + sum / 2 + short[i]) % 256;
    }
    assert short[..11] == short;
  }

  /** ncasecmp() on two strings shorter than its bound, as an equality test. */
  method Ncasecmp(a: Name, b: Name) returns (same: bool)
    ensures same <==> SameNoCase(a, b)
  {
    var i := 0;
    while i < |a| && i < |b|
      invariant i <= |a| && i <= |b| && forall k | 0 <= k < i :: Lower(a[k]) == Lower(b[k])
    {
      if Lower(a[i]) != Lower(b[i]) {
        return false;
      }
      i := i + 1;
    }
    same := |a| == |b|;
  }

  /** Storing the characters of entry number s, as far as they fit the buffer. */
  method StoreChars(buf: array<Ushort>, e: Raw, s: nat, ghost cells: Cells, ghost junk: Mem)
    requires buf.Length == MEM && buf[..] == Fill(cells, junk)
    modifies buf
    ensures buf[..] == Fill(Put(cells, s, Chars(e)), junk)
  {
    hide Fill, Put, Chars;
    var base := (s - 1) * PER_ENTRY;
    for i := 0 to PER_ENTRY
      invariant forall k | 0 <= k < MEM ::
        buf[k] == if k < BUF && 0 <= k - base < i then CharAt(e, k - base) else old(buf[k])
    {
      if 0 <= base + i < BUF {
        buf[base + i] := CharAt(e, i);
      }
    }
    forall k | 0 <= k < MEM ensures buf[k] == Fill(Put(cells, s, Chars(e)), junk)[k] {
      assert old(buf[..])[k] == Fill(cells, junk)[k];
      if 0 <= k - base < PER_ENTRY { assert Chars(e)[k - base] == CharAt(e, k - base) by { CharsAt(e, k - base); } }
    }
  }

  lemma CharsAt(e: Raw, i: nat)
    requires i < PER_ENTRY
    ensures Chars(e)[i] == CharAt(e, i)
  {}

  /** dlookup() turning the buffer into a string. */
  method DecodeBuf(u: seq<Ushort>) returns (name: Name)
    ensures name == Decode(u, 0)
  {
    name := [];
    var i := 0;
    while i < |u| && |name| < NAME_MAX
      invariant i <= |u| && name + Decode(u[i..], |name|) == Decode(u, 0)
    {
      if u[i] == 0 || u[i] == PAD {
        assert Decode(u[i..], |name|) == [];
        return;
      }
      assert u[i..][1..] == u[i + 1..];
      if u[i] < 128 {
        assert name + ([u[i] as Byte] + Decode(u[i + 1..], |name| + 1))
             == (name + [u[i] as Byte]) + Decode(u[i + 1..], |name| + 1);
        name := name + [u[i]];
      }
      i := i + 1;
    }
    assert Decode(u[i..], |name|) == [];
  }

  /** freaddir() turning the buffer into a string. */
  method DecodeDirBuf(u: seq<Ushort>) returns (name: Name)
    ensures name == DecodeDir(u, 0)
  {
    name := [];
    var i := 0;
    while i < |u| && |name| < NAME_MAX
      invariant i <= |u| && name + DecodeDir(u[i..], |name|) == DecodeDir(u, 0)
    {
      if u[i] == 0 {
        assert DecodeDir(u[i..], |name|) == [];
        return;
      }
      assert u[i..][1..] == u[i + 1..];
      if u[i] != PAD && u[i] < 128 {
        assert name + ([u[i] as Byte] + DecodeDir(u[i + 1..], |name| + 1))
             == (name + [u[i] as Byte]) + DecodeDir(u[i + 1..], |name| + 1);
        name := name + [u[i]];
      }
      i := i + 1;
    }
    assert DecodeDir(u[i..], |name|) == [];
  }

  class Directory {
    var entries: seq<Raw>

    constructor (entries: seq<Raw>)
      ensures this.entries == entries
    {
      this.entries := entries;
    }

    /** dwrite_raw(): fails when the chain ends before the entry. */
    method DwriteRaw(i: nat, e: Raw) returns (ok: bool)
      modifies this
      ensures ok <==> i < |old(entries)|
      ensures entries == if ok then old(entries)[i := e] else old(entries)
    {
      ok := i < |entries|;
      if ok {
        entries := entries[i := e];
      }
    }

    /** dwrite_lfn(): the run for a name that needs `cnt` long entries, or just the short entry. */
    method DwriteLfn(off: nat, cnt: nat, name: Name, de: Raw) returns (ok: bool)
      requires cnt == 0 || (cnt == Needed(|name|) && 1 <= |name| <= NAME_MAX && Ascii(name))
      requires !IsLong(de) && de[0] != 0 && de[0] != 0xE5
      modifies this
      ensures ok <==> off + cnt < |old(entries)|
      ensures |entries| == |old(entries)|
      ensures forall k | 0 <= k < |entries| && !(off <= k <= off + cnt) :: entries[k] == old(entries)[k]
      ensures ok ==> entries[off + cnt] == de && (cnt > 0 ==> HasRun(entries, off, name, de))
    {
      hide Checksum, RunEntry, Padded;
      if cnt == 0 {
        ok := DwriteRaw(off, de);
        return;
      }
      NeededBounds(|name|);
      var cksum := LfnChecksum(de[..11]);
      var uname := Uname(name, cnt);
      var s: nat := cnt;
      while s > 0
        invariant s <= cnt && |entries| == |old(entries)|
        invariant s < cnt ==> off + cnt - s - 1 < |entries|
        invariant forall k | 0 <= k < |entries| && !(off <= k < off + cnt - s) :: entries[k] == old(entries)[k]
        invariant forall i: nat | s < i <= cnt ::
          off + cnt - i < |entries| && entries[off + cnt - i] == RunEntry(name, cnt, cksum, i)
      {
        var first: Byte := if s == cnt then s + 64 else s;
        var e := LongEntry(first, cksum, uname[(s - 1) * PER_ENTRY..s * PER_ENTRY]);
        IsRunEntry(name, cnt, cksum, s, first, uname);
        ok := DwriteRaw(off + cnt - s, e);
        if !ok {
          return;
        }
        s := s - 1;
      }
      ok := DwriteRaw(off + cnt, de);
    }

    /** dlookup(): the index of the short entry found, over the entries in chain order. */
    method Dlookup(nm: Name, junk: Mem) returns (r: Found)
      ensures r == Lookup(entries, nm, junk)
    {
      hide Checksum, Decode, Put, Name83, DotMatch, Fill, Chars;
      var buf := new Ushort[MEM](k requires 0 <= k < MEM => junk[k]);
      var chars: nat, cksum: Byte, active, next: int := 0, 0, false, 0;
      ghost var cells := Start().cells;
      FillNothing(junk);
      assert buf[..] == junk;
      var i := 0;
      while i < |entries|
        invariant i <= |entries| && buf[..] == Fill(cells, junk)
        invariant Scan(entries, i, Pending(cells, chars, cksum, active, next), nm, junk) == Lookup(entries, nm, junk)
      {
        var e := entries[i];
        ghost var st := Pending(cells, chars, cksum, active, next);
        if e[0] == 0 {
          return None;
        }
        if e[0] == 0xE5 {
          chars, active := 0, false;
        } else if IsLong(e) {
          var s := SeqOf(e);
          if IsLast(e) {
            active, cksum, next, chars := true, e[13], s - 1, s * PER_ENTRY;
            StoreChars(buf, e, s, cells, junk);
            cells := Put(cells, s, Chars(e));
          } else if active && e[13] == cksum && s == next {
            StoreChars(buf, e, s, cells, junk);
            cells := Put(cells, s, Chars(e));
            next := next - 1;
          } else {
            active, chars := false, 0;
          }
        } else {
          var hit := false;
          if active && chars > 0 {
            var sum := LfnChecksum(e[..11]);
            if sum == cksum {
              var str := DecodeBuf(buf[..Min(chars, MEM)]);
              assert buf[..][..Min(chars, MEM)] == buf[..Min(chars, MEM)];
              hit := Ncasecmp(nm, str);
            }
          }
          assert hit <==> LongMatch(e, st, nm, junk);
          if hit || DotMatch(nm, e[..11]) || Name83(nm) == e[..11] {
            return At(i);
          }
          chars, active := 0, false;
        }
        assert After(e, st) == Pending(cells, chars, cksum, active, next);
        i := i + 1;
      }
      r := None;
    }

    /** freaddir(): the next short entry from index i on and its name; the caller resumes behind it. */
    method Freaddir(i0: nat, junk: Mem) returns (r: Found, name: Name)
      ensures r == NextLive(entries, i0)
      ensures r.At? ==> name == NameAt(entries, r.index, junk)
    {
      hide Checksum, DecodeDir, LongChars, ShortName, NameAt;
      name := [];
      var i := i0;
      while i < |entries|
        invariant i0 <= i && NextLive(entries, i) == NextLive(entries, i0)
        decreases |entries| - i
      {
        var e := entries[i];
        if e[0] == 0 {
          return None, [];
        }
        if e[0] != 0xE5 && !IsLong(e) {
          name := LongName(i, junk);
          return At(i), name;
        }
        i := i + 1;
      }
      r := None;
    }

    /** The backward walk of freaddir() from the short entry at index p. */
    method LongName(p: nat, junk: Mem) returns (name: Name)
      requires p < |entries|
      ensures name == NameAt(entries, p, junk)
    {
      hide Checksum, DecodeDir, ShortName, Put, Fill, Chars, Collects, Kept, Start;
      var buf := new Ushort[MEM](k requires 0 <= k < MEM => junk[k]);
      var cksum := LfnChecksum(entries[p][..11]);
      var back, expected := p, 1;
      ghost var cells, all, got: seq<Ushort> := Start().cells, LongChars(entries, p, 1, cksum), [];
      LongCharsBound(entries, p, 1, cksum);
      FillNothing(junk);
      assert buf[..] == junk;
      while back > 0
        invariant 0 <= back <= p && expected >= 1 && |got| == (expected - 1) * PER_ENTRY
        invariant all == got + LongChars(entries, back, expected, cksum) && buf[..] == Fill(cells, junk)
        invariant Collects(cells, got)
      {
        back := back - 1;
        var e := entries[back];
        if e[0] == 0 || e[0] == 0xE5 || !IsLong(e) || e[13] != cksum || SeqOf(e) != expected {
          assert LongChars(entries, back + 1, expected, cksum) == [];
          break;
        }
        StoreChars(buf, e, expected, cells, junk);
        Collected(cells, got, e, expected);
        cells, got := Put(cells, expected, Chars(e)), got + Chars(e);
        expected := expected + 1;
      }
      assert all == got;
      if expected > 1 {
        FillCollected(cells, got, junk);
        assert buf[..|got|] == Fill(cells, junk)[..|got|];
        name := DecodeDirBuf(buf[..(expected - 1) * PER_ENTRY]);
      } else {
        assert all == [];
        name := ShortName(entries[p][..11]);
      }
    }
  }

  lemma FillNothing(junk: Mem)
    ensures Fill(Start().cells, junk) == junk && Collects(Start().cells, [])
  {}

  /** The cells hold the characters collected so far, as far as they fit, and nothing else. */
  ghost predicate Collects(cells: Cells, got: seq<Ushort>) {
    forall i | 0 <= i < MEM :: cells[i] == if i < |got| && i < BUF then Char(got[i]) else Junk
  }

  lemma Collected(cells: Cells, got: seq<Ushort>, e: Raw, s: nat)
    requires 1 <= s && |got| == (s - 1) * PER_ENTRY && Collects(cells, got)
    ensures Collects(Put(cells, s, Chars(e)), got + Chars(e))
  {}

  lemma FillCollected(cells: Cells, got: seq<Ushort>, junk: Mem)
    requires Collects(cells, got) && |got| <= MEM
    ensures Fill(cells, junk)[..|got|] == Kept(got, junk)
  {}

  lemma IsRunEntry(name: Name, cnt: nat, cksum: Byte, s: nat, first: Byte, uname: seq<Ushort>)
    requires |name| <= cnt * PER_ENTRY && 1 <= s <= cnt <= 20 && |uname| == BUF
    requires uname[..cnt * PER_ENTRY] == Padded(name, cnt)
    requires first == if s == cnt then s + 64 else s
    ensures LongEntry(first, cksum, uname[(s - 1) * PER_ENTRY..s * PER_ENTRY]) == RunEntry(name, cnt, cksum, s)
  {
    hide Padded, LongEntry;
    SliceOfPrefix(uname, (s - 1) * PER_ENTRY, s * PER_ENTRY, cnt * PER_ENTRY);
  }

  lemma SliceOfPrefix(u: seq<Ushort>, lo: nat, hi: nat, end: nat)
    requires lo <= hi <= end <= |u|
    ensures u[lo..hi] == u[..end][lo..hi]
  {}

  /** dwrite_lfn() building the characters: the name, a NUL, then padding up to a multiple of 13. */
  method Uname(name: Name, cnt: nat) returns (u: seq<Ushort>)
    requires |name| <= cnt * PER_ENTRY <= BUF && |name| < BUF
    ensures |u| == BUF && u[..cnt * PER_ENTRY] == Padded(name, cnt)
  {
    var total := cnt * PER_ENTRY;
    var uname := new Ushort[BUF](_ => 0);
    var ui := 0;
    while ui < |name| && ui < total
      invariant 0 <= ui <= |name| && forall k | 0 <= k < ui :: uname[k] == name[k]
    {
      uname[ui] := name[ui];
      ui := ui + 1;
    }
    uname[ui] := 0;
    ui := ui + 1;
    while ui < total
      invariant |name| < ui <= BUF && (ui <= total || ui == |name| + 1)
      invariant forall k | 0 <= k < |name| :: uname[k] == name[k]
      invariant uname[|name|] == 0 && forall k | |name| < k < ui :: uname[k] == PAD
    {
      uname[ui] := PAD;
      ui := ui + 1;
    }
    u := uname[..];
    var goal := Padded(name, cnt);
    forall k | 0 <= k < total ensures u[k] == goal[k] {}
    assert u[..total] == goal;
  }

  /**
    The round trip through the directory: a name dlookup() did not find, written by dwrite_lfn() where
    no end marker, no torn entry and no continuation of the run precedes it, is then found at its short
    entry and listed verbatim. Each of the three calls has memory of its own.
  */
  method RoundTrip(d: Directory, off: nat, name: Name, de: Raw, ghost first: Mem, later: Mem, listing: Mem)
    returns (found: Found, listed: Found, got: Name)
    requires 1 <= |name| <= NAME_MAX && Ascii(name) && off + Needed(|name|) < |d.entries|
    requires !IsLong(de) && de[0] != 0 && de[0] != 0xE5
    requires Lookup(d.entries, name, first) == None
    requires (forall k | 0 <= k < off :: d.entries[k][0] != 0) && Clear(d.entries, off, name)
    requires off == 0 || !Continues(d.entries[off - 1], Needed(|name|) + 1, Checksum(de[..11]))
    modifies d
    ensures found == listed == At(off + Needed(|name|)) && got == name
  {
    hide Checksum, RunEntry, Needed, Lookup, NextLive, NameAt, Clear;
    NeededBounds(|name|);
    var ok := d.DwriteLfn(off, Needed(|name|), name, de);
    assert d.entries[..off] == old(d.entries)[..off];
    LookupFindsRun(old(d.entries), d.entries, off, name, de, first);
    RunIsSkipped(d.entries, off, name, de, Needed(|name|));
    ReaddirVerbatim(d.entries, off, name, de, listing);
    found := d.Dlookup(name, later);
    listed, got := d.Freaddir(off, listing);
  }
}
