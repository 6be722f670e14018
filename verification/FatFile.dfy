/**
  Files of kernel/fat32.c as byte sequences: what FAT updates keep, and what writing clusters changes.
*/
module FatFile {
  import opened Bytes
  import opened FatDisk
  import opened FatChains

  ghost predicate FatOk(g: Geometry, disk: Disk, chains: Chains, owner: Owners) {
    GeoOk(g, disk) && MirrorOk(g, disk) && ChainsOk(Table(g, disk), chains, owner)
  }

  /** Bytes the chain has room for. */
  function Cap(g: Geometry, chain: seq<nat>): nat {
    |chain| * g.bpc
  }

  lemma CapPrefix(g: Geometry, chain: seq<nat>, chain': seq<nat>)
    requires chain <= chain'
    ensures Cap(g, chain) <= Cap(g, chain')
  {
    if |chain| < |chain'| { Times(|chain|, |chain'|, g.bpc); }
  }

  /** Position j*bpc+i is inside a chain with a cluster number j. */
  lemma CapCovers(g: Geometry, chain: seq<nat>, j: nat, i: nat)
    requires j < |chain|
    ensures i <= g.bpc ==> j * g.bpc + i <= Cap(g, chain)
    ensures i < g.bpc ==> j * g.bpc + i < Cap(g, chain)
  {
    Times(j, |chain|, g.bpc);
  }

  /** Chains only grow, and only f's. */
  ghost predicate Extended(chains: Chains, chains': Chains, f: nat) {
    && chains'.Keys == chains.Keys
    && (forall h | h in chains :: chains[h] <= chains'[h] && (h != f ==> chains'[h] == chains[h]))
  }

  /** The reserved top four bits of every FAT entry stay. */
  ghost predicate TopsKept(g: Geometry, disk: Disk, disk': Disk) {
    && GeoOk(g, disk) && GeoOk(g, disk')
    && (forall k, e | 0 <= k < g.numFats && 0 <= e < g.tot + 2 ::
          Raw(g, disk', k, e) / LOW28 == Raw(g, disk, k, e) / LOW28)
  }

  lemma TopsTwice(g: Geometry, disk: Disk, disk1: Disk, disk2: Disk)
    requires TopsKept(g, disk, disk1) && TopsKept(g, disk1, disk2)
    ensures TopsKept(g, disk, disk2)
  {
    hide Raw, GeoOk;
  }

  /** Of the bytes the old chains held, exactly [off, off+cnt) of f changed; that range holds src. */
  ghost predicate Wrote(g: Geometry, disk: Disk, chains: Chains, disk': Disk, chains': Chains, f: nat, off: nat,
                        src: seq<Byte>, cnt: nat)
  {
    && Extended(chains, chains', f) && f in chains && cnt <= |src| && TopsKept(g, disk, disk')
    && (forall h, k: nat | h in chains && k < Cap(g, chains[h]) && !(h == f && off <= k < off + cnt) ::
          FileByte(g, disk', chains'[h], k) == FileByte(g, disk, chains[h], k))
    && (forall k: nat | off <= k < off + cnt ::
          k < Cap(g, chains'[f]) && FileByte(g, disk', chains'[f], k) == src[k - off])
  }

  lemma ExtendedTwice(chains: Chains, chains1: Chains, chains2: Chains, f: nat)
    requires Extended(chains, chains1, f) && Extended(chains1, chains2, f)
    ensures Extended(chains, chains2, f)
  {
    forall h | h in chains ensures chains[h] <= chains2[h] && (h != f ==> chains2[h] == chains[h]) {
      assert chains[h] <= chains1[h] <= chains2[h];
    }
  }

  lemma WroteNone(g: Geometry, disk: Disk, chains: Chains, f: nat, off: nat, src: seq<Byte>)
    requires f in chains && GeoOk(g, disk)
    ensures Wrote(g, disk, chains, disk, chains, f, off, src, 0)
  {}

  /** Writes of adjacent ranges compose. */
  lemma WroteNext(g: Geometry, disk: Disk, chains: Chains, disk1: Disk, chains1: Chains, disk2: Disk, chains2: Chains,
                  f: nat, off: nat, src: seq<Byte>, cnt: nat, m: nat)
    requires cnt + m <= |src| && Wrote(g, disk, chains, disk1, chains1, f, off, src, cnt)
    requires Wrote(g, disk1, chains1, disk2, chains2, f, off + cnt, src[cnt..cnt + m], m)
    ensures Wrote(g, disk, chains, disk2, chains2, f, off, src, cnt + m)
  {
    hide FileByte, Cap, TopsKept;
    TopsTwice(g, disk, disk1, disk2);
    ExtendedTwice(chains, chains1, chains2, f);
    forall h | h in chains ensures Cap(g, chains[h]) <= Cap(g, chains1[h]) <= Cap(g, chains2[h]) {
      CapPrefix(g, chains[h], chains1[h]);
      CapPrefix(g, chains1[h], chains2[h]);
    }
    forall h, k: nat | h in chains && k < Cap(g, chains[h]) && !(h == f && off <= k < off + (cnt + m))
      ensures FileByte(g, disk2, chains2[h], k) == FileByte(g, disk, chains[h], k)
    {
      assert FileByte(g, disk1, chains1[h], k) == FileByte(g, disk, chains[h], k);
    }
    forall k: nat | off <= k < off + (cnt + m)
      ensures k < Cap(g, chains2[f]) && FileByte(g, disk2, chains2[f], k) == src[k - off]
    {
      if k < off + cnt {
        assert FileByte(g, disk1, chains1[f], k) == src[k - off] && k < Cap(g, chains1[f]);
        assert FileByte(g, disk2, chains2[f], k) == FileByte(g, disk1, chains1[f], k);
      } else {
        assert FileByte(g, disk2, chains2[f], k) == src[cnt..cnt + m][k - (off + cnt)];
      }
    }
  }

  /** Growth of the chain first, then a write. */
  lemma WroteAfter(g: Geometry, disk: Disk, chains: Chains, disk1: Disk, chains1: Chains, disk2: Disk, chains2: Chains,
                   f: nat, off: nat, src: seq<Byte>, cnt: nat)
    requires Wrote(g, disk, chains, disk1, chains1, f, off, src, 0)
    requires Wrote(g, disk1, chains1, disk2, chains2, f, off, src, cnt)
    ensures Wrote(g, disk, chains, disk2, chains2, f, off, src, cnt)
  {
    hide FileByte, Cap, TopsKept;
    TopsTwice(g, disk, disk1, disk2);
    ExtendedTwice(chains, chains1, chains2, f);
    forall h | h in chains ensures Cap(g, chains[h]) <= Cap(g, chains1[h]) {
      CapPrefix(g, chains[h], chains1[h]);
    }
  }

  /** Contents of f. */
  function Content(g: Geometry, disk: Disk, chain: seq<nat>, size: nat): (r: seq<Byte>)
    ensures |r| == size
  {
    seq(size, k requires 0 <= k < size => FileByte(g, disk, chain, k))
  }

  /** A write that starts inside the file, in terms of whole files. */
  lemma WroteContent(g: Geometry, disk: Disk, chains: Chains, disk': Disk, chains': Chains, f: nat, off: nat,
                     src: seq<Byte>, cnt: nat, size: map<nat, nat>)
    requires Wrote(g, disk, chains, disk', chains', f, off, src, cnt) && size.Keys == chains.Keys
    requires forall h | h in chains :: size[h] <= Cap(g, chains[h])
    requires off <= size[f]
    ensures Content(g, disk', chains'[f], Max(size[f], off + cnt))
         == Overwrite(Content(g, disk, chains[f], size[f]), off, src[..cnt])
  {
    hide FileByte, Cap, TopsKept;
    var got := Content(g, disk', chains'[f], Max(size[f], off + cnt));
    var goal := Overwrite(Content(g, disk, chains[f], size[f]), off, src[..cnt]);
    forall k | 0 <= k < |got| ensures got[k] == goal[k] {
      assert got[k] == FileByte(g, disk', chains'[f], k);
    }
  }

  /** A write to f leaves the contents of every other file alone. */
  lemma WroteOthers(g: Geometry, disk: Disk, chains: Chains, disk': Disk, chains': Chains, f: nat, off: nat,
                    src: seq<Byte>, cnt: nat, size: map<nat, nat>)
    requires Wrote(g, disk, chains, disk', chains', f, off, src, cnt) && size.Keys == chains.Keys
    requires forall h | h in chains :: size[h] <= Cap(g, chains[h])
    ensures forall h | h in chains && h != f ::
      Content(g, disk', chains'[h], size[h]) == Content(g, disk, chains[h], size[h])
  {
    hide FileByte, Cap, TopsKept;
    forall h | h in chains && h != f
      ensures Content(g, disk', chains'[h], size[h]) == Content(g, disk, chains[h], size[h])
    {
      forall k | 0 <= k < size[h] ensures FileByte(g, disk', chains'[h], k) == FileByte(g, disk, chains[h], k) {}
    }
  }

  // ---- FAT updates ----

  /** Only FAT entries differ, and none in its top four bits. */
  ghost predicate FatOnly(g: Geometry, disk: Disk, disk': Disk)
    requires GeoOk(g, disk)
  {
    && |disk'| == |disk| && TopsKept(g, disk, disk')
    && (forall i | FirstData(g) * BPS <= i < |disk| :: disk'[i] == disk[i])
  }

  lemma FatOnlyTwice(g: Geometry, disk: Disk, disk1: Disk, disk2: Disk)
    requires GeoOk(g, disk) && GeoOk(g, disk1) && FatOnly(g, disk, disk1) && FatOnly(g, disk1, disk2)
    ensures FatOnly(g, disk, disk2)
  {
    hide Raw, GeoOk;
  }

  /** FAT updates touch no byte of a file. */
  lemma FatOnlyByte(g: Geometry, disk: Disk, disk': Disk, chain: seq<nat>, k: nat)
    requires GeoOk(g, disk) && FatOnly(g, disk, disk') && ClustersOk(g, chain) && k < Cap(g, chain)
    ensures FileByte(g, disk', chain, k) == FileByte(g, disk, chain, k)
  {
    hide Raw, BytePos, GeoOk;
    Positive(g, disk);
    DivRange(k, g.bpc, |chain|);
    ByteInData(g, disk, chain[k / g.bpc], k % g.bpc);
  }

  /** What write_fat() makes of the device. */
  function WithEntry(g: Geometry, disk: Disk, c: nat, v: nat): (r: Disk)
    requires GeoOk(g, disk) && c < g.tot + 2
    ensures |r| == |disk|
  {
    var r0 := SetCopy(g, disk, 0, c, v);
    if g.numFats > 1 then SetCopy(g, r0, 1, c, v) else r0
  }

  function SetCopy(g: Geometry, disk: Disk, copy: nat, c: nat, v: nat): (r: Disk)
    requires GeoOk(g, disk) && c < g.tot + 2 && copy < g.numFats
    ensures |r| == |disk| && GeoOk(g, r)
  {
    EntryInFat(g, disk, copy, c);
    PutWord32(disk, EntryPos(g, copy, c), Merge(Raw(g, disk, copy, c), v))
  }

  lemma SetCopyFacts(g: Geometry, disk: Disk, copy: nat, c: nat, v: nat)
    requires GeoOk(g, disk) && c < g.tot + 2 && copy < g.numFats
    ensures FatOnly(g, disk, SetCopy(g, disk, copy, c, v))
    ensures forall k, e | 0 <= k < g.numFats && 0 <= e < g.tot + 2 ::
              Raw(g, SetCopy(g, disk, copy, c, v), k, e) ==
              if k == copy && e == c then Merge(Raw(g, disk, copy, c), v) else Raw(g, disk, k, e)
  {
    PutEntry(g, disk, copy, c, Merge(Raw(g, disk, copy, c), v));
    var disk' := SetCopy(g, disk, copy, c, v);
    var lo := FirstData(g) * BPS;
    forall i | lo <= i < |disk| ensures disk'[i] == disk[i] {
      assert disk'[lo..][i - lo] == disk[lo..][i - lo];
    }
  }

  /** write_fat(): one entry of the table, in both copies, under its old top bits. */
  lemma EntryWritten(g: Geometry, disk: Disk, c: nat, v: nat)
    requires GeoOk(g, disk) && MirrorOk(g, disk) && c < g.tot + 2 && v < LOW28
    ensures var disk' := WithEntry(g, disk, c, v);
            && FatOnly(g, disk, disk') && MirrorOk(g, disk') && Table(g, disk') == Table(g, disk)[c := v]
  {
    hide Raw, GeoOk, SetCopy, FatOnly;
    Positive(g, disk);
    var r0 := SetCopy(g, disk, 0, c, v);
    SetCopyFacts(g, disk, 0, c, v);
    if g.numFats > 1 {
      SetCopyFacts(g, r0, 1, c, v);
      FatOnlyTwice(g, disk, r0, SetCopy(g, r0, 1, c, v));
    }
  }

  lemma Positive(g: Geometry, disk: Disk)
    requires GeoOk(g, disk)
    ensures 0 < g.numFats && 0 < g.bpc && g.tot + 2 < EOC_MIN
  {}
}
