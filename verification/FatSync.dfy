/**
  fwrite() and ftrunc() of kernel/fat32.c with the write-back of a file's size and first cluster into
  its entry in the parent directory, sync_dirent(), so that a later open finds the file as it is.
*/
module FatSync {
  import opened Bytes
  import opened FatDisk
  import opened FatChains
  import opened FatFile
  import opened Fat

  const ENTRY: nat := 32

  /** The 32 bytes of a directory at offset o. */
  function EntryAt(g: Geometry, disk: Disk, chain: seq<nat>, o: nat): (e: seq<Byte>)
    ensures |e| == ENTRY
  {
    seq<Byte>(ENTRY, k requires 0 <= k < ENTRY => FileByte(g, disk, chain, o + k))
  }

  /** DIR_FstClusHI and DIR_FstClusLO. */
  function DirFirst(e: seq<Byte>): nat
    requires |e| == ENTRY
  {
    (e[26] as int) + 0x100 * (e[27] as int) + 0x1_0000 * (e[20] as int) + 0x100_0000 * (e[21] as int)
  }

  /** DIR_FileSize */
  function DirSize(e: seq<Byte>): nat
    requires |e| == ENTRY
  {
    (e[28] as int) + 0x100 * (e[29] as int) + 0x1_0000 * (e[30] as int) + 0x100_0000 * (e[31] as int)
  }

  /** The entry with its cluster and size fields replaced. */
  function Patched(e: seq<Byte>, first: nat, size: nat): (r: seq<Byte>)
    requires |e| == ENTRY && first < 0x1_0000_0000 && size < 0x1_0000_0000
    ensures |r| == ENTRY
  {
    e[28 := size % 0x100][29 := size / 0x100 % 0x100][30 := size / 0x1_0000 % 0x100][31 := size / 0x100_0000]
     [20 := first / 0x1_0000 % 0x100][21 := first / 0x100_0000][26 := first % 0x100][27 := first / 0x100 % 0x100]
  }

  /** It reads back, and the name, the attributes and the times stay. */
  lemma PatchedReads(e: seq<Byte>, first: nat, size: nat)
    requires |e| == ENTRY && first < 0x1_0000_0000 && size < 0x1_0000_0000
    ensures var r := Patched(e, first, size);
            && DirFirst(r) == first && DirSize(r) == size
            && forall k | 0 <= k < ENTRY && k !in {20, 21, 26, 27, 28, 29, 30, 31} :: r[k] == e[k]
  {
    FourBytes(first);
    FourBytes(size);
  }

  /** The entry of file f at offset o of directory d says what the volume knows of f. */
  ghost predicate Recorded(g: Geometry, disk: Disk, chain: seq<nat>, o: nat, first: nat, size: nat) {
    var e := EntryAt(g, disk, chain, o);
    DirFirst(e) == first && DirSize(e) == size
  }

  lemma EntryWrittenTo(g: Geometry, disk: Disk, chains: Chains, disk': Disk, d: nat, o: nat, e: seq<Byte>)
    requires Wrote(g, disk, chains, disk', chains, d, o, e, ENTRY) && |e| == ENTRY
    ensures EntryAt(g, disk', chains[d], o) == e
  {
    hide FileByte, Cap, TopsKept;
    forall k | 0 <= k < ENTRY ensures EntryAt(g, disk', chains[d], o)[k] == e[k] {
      assert FileByte(g, disk', chains[d], o + k) == e[o + k - o];
    }
  }

  lemma EntryFits(o: nat, spc: nat, bpc: nat)
    requires 0 < spc && bpc == spc * BPS && o % ENTRY == 0
    ensures o % bpc % BPS + ENTRY <= BPS && 0 < bpc
  {
    Sixteen(spc);
    Multiple(o, spc * 16);
    InSector(o % bpc);
  }

  lemma Sixteen(spc: nat)
    ensures spc * BPS == spc * 16 * ENTRY
  {}

  lemma InSector(i: nat)
    requires i % ENTRY == 0
    ensures i % BPS + ENTRY <= BPS
  {}

  lemma Multiple(o: nat, n: nat)
    requires 0 < n && o % ENTRY == 0
    ensures 0 < n * ENTRY && o % (n * ENTRY) % ENTRY == 0
  {
    var m := n * ENTRY;
    var q, r := o / m, o % m;
    Division(o, m);
    Regroup(q, n);
    Less(o, q * n, r);
  }

  lemma Division(o: nat, m: nat)
    requires 0 < m
    ensures o == o / m * m + o % m && 0 <= o % m < m
  {}

  lemma Regroup(q: nat, n: nat)
    ensures q * (n * ENTRY) == (q * n) * ENTRY
  {}

  lemma Less(o: nat, k: nat, r: nat)
    requires o % ENTRY == 0 && o == k * ENTRY + r
    ensures r % ENTRY == 0
  {}

  /** Offset o lies in the clusters of the directory. */
  predicate Reaches(g: Geometry, chain: seq<nat>, o: nat) {
    0 < g.bpc && o / g.bpc < |chain|
  }

  /** The cluster walk of sync_dirent(). */
  method SeekEntry(v: FatVolume, d: nat, o: nat) returns (found: bool, c: nat, i: nat, ghost j: nat)
    requires v.Valid() && d in v.chains && v.chains[d] != [] && o % ENTRY == 0
    ensures 0 < v.g.bpc && (found <==> Reaches(v.g, v.chains[d], o))
    ensures found ==>
      && j < |v.chains[d]| && c == v.chains[d][j] && o == Spot(v.g, j, i) && i < v.g.bpc && i % BPS + ENTRY <= BPS
  {
    hide Raw, ChainsOk, FilesOk, GeoOk, Spot, Table;
    EntryInSector(v.g, v.disk, o);
    FileHead(v.g, v.first, v.size, v.chains, d);
    var skip: nat := o / v.g.bpc;
    i := o % v.g.bpc;
    c, j := v.first[d], 0;
    var k := 0;
    while k < skip
      invariant 0 <= k == j <= skip && j < |v.chains[d]| && c == v.chains[d][j]
    {
      NextInChain(Table(v.g, v.disk), v.chains, v.owner, d, j);
      var nx := v.ReadFat(c);
      if nx >= EOC_MIN {
        return false, c, i, j;
      }
      c, k, j := nx, k + 1, j + 1;
    }
    SpotIs(v.g, o, j, i);
    found := true;
  }

  /**
    sync_dirent(): the entry at offset o of directory d takes over size and first cluster of file f, and
    no other byte of any file changes. It fails, changing nothing, exactly if the directory ends before
    the entry; a file without a parent has no entry.
  */
  method SyncDirent(v: FatVolume, f: nat, hasParent: bool, d: nat, o: nat) returns (ok: bool)
    requires v.Valid() && f in v.chains && f in v.first && f in v.size
    requires v.first[f] < 0x1_0000_0000 && v.size[f] < 0x1_0000_0000
    requires hasParent ==> d in v.chains && v.chains[d] != [] && o % ENTRY == 0
    modifies v`disk
    ensures v.Valid() && (ok <==> hasParent ==> Reaches(v.g, v.chains[d], o))
    ensures !ok || !hasParent ==> v.disk == old(v.disk)
    ensures Table(v.g, v.disk) == Table(v.g, old(v.disk))
    ensures ok && hasParent ==>
      && Wrote(v.g, old(v.disk), v.chains, v.disk, v.chains, d, o,
               Patched(EntryAt(v.g, old(v.disk), v.chains[d], o), v.first[f], v.size[f]), ENTRY)
      && Recorded(v.g, v.disk, v.chains[d], o, v.first[f], v.size[f])
  {
    hide Raw, ChainsOk, Wrote, FileByte, Cap, Patched, EntryAt, Table, FilesOk, Spot, DirFirst, DirSize;
    if !hasParent {
      return true;
    }
    var c, i;
    ghost var j;
    ok, c, i, j := SeekEntry(v, d, o);
    if !ok {
      return;
    }
    var e := v.ReadPiece(d, j, c, i, ENTRY);
    ReadsEntry(v.g, v.disk, v.chains[d], o, e);
    var patched := Patched(e, v.first[f], v.size[f]);
    v.WritePiece(d, j, c, i, patched);
    EntryWrittenTo(v.g, old(v.disk), v.chains, v.disk, d, o, patched);
    PatchedReads(e, v.first[f], v.size[f]);
  }

  lemma EntryInSector(g: Geometry, disk: Disk, o: nat)
    requires GeoOk(g, disk) && o % ENTRY == 0
    ensures 0 < g.bpc && 0 <= o % g.bpc < g.bpc && o % g.bpc % BPS + ENTRY <= BPS
  {
    EntryFits(o, g.spc, g.bpc);
  }

  lemma ReadsEntry(g: Geometry, disk: Disk, chain: seq<nat>, o: nat, e: seq<Byte>)
    requires |e| == ENTRY && forall k | 0 <= k < ENTRY :: e[k] == FileByte(g, disk, chain, o + k)
    ensures e == EntryAt(g, disk, chain, o)
  {}

  /** The contents of file h. */
  function FileOf(g: Geometry, disk: Disk, chains: Chains, size: Index, h: nat): seq<Byte> {
    if h in chains && h in size then Content(g, disk, chains[h], size[h]) else []
  }

  function SizeOf(size: Index, h: nat): nat {
    if h in size then size[h] else 0
  }

  /** The fields sync_dirent() sets. */
  predicate Field(k: int) {
    k in {20, 21, 26, 27, 28, 29, 30, 31}
  }

  /** Apart from those fields of the entry at offset o, the bytes of directory d are the old ones. */
  ghost predicate OnlyFields(g: Geometry, disk: Disk, disk': Disk, chain: seq<nat>, o: nat) {
    forall k: nat | k < Cap(g, chain) && !Field(k - o) :: FileByte(g, disk', chain, k) == FileByte(g, disk, chain, k)
  }

  /**
    Apart from the files in `but`, every file and directory keeps its clusters and every byte of them,
    also those past its size.
  */
  ghost predicate Untouched(g: Geometry, disk: Disk, chains: Chains, disk': Disk, chains': Chains, but: set<nat>) {
    && (forall h | h in chains && h !in but :: h in chains' && chains'[h] == chains[h])
    && forall h, k: nat | h in chains && h !in but && k < Cap(g, chains[h]) ::
         FileByte(g, disk', chains[h], k) == FileByte(g, disk, chains[h], k)
  }

  lemma UntouchedSelf(g: Geometry, disk: Disk, chains: Chains, but: set<nat>)
    ensures Untouched(g, disk, chains, disk, chains, but)
  {}

  lemma UntouchedTwice(g: Geometry, disk: Disk, chains: Chains, disk1: Disk, chains1: Chains, disk2: Disk,
                       chains2: Chains, but: set<nat>, but': set<nat>)
    requires Untouched(g, disk, chains, disk1, chains1, but) && Untouched(g, disk1, chains1, disk2, chains2, but')
    ensures Untouched(g, disk, chains, disk2, chains2, but + but')
  {
    hide FileByte, Cap;
  }

  lemma WroteUntouched(g: Geometry, disk: Disk, chains: Chains, disk': Disk, chains': Chains, f: nat, off: nat,
                       src: seq<Byte>, cnt: nat)
    requires Wrote(g, disk, chains, disk', chains', f, off, src, cnt)
    ensures Untouched(g, disk, chains, disk', chains', {f})
  {
    hide FileByte, Cap, TopsKept;
  }

  lemma TruncUntouched(g: Geometry, disk: Disk, chains: Chains, owner: Owners, disk': Disk, f: nat)
    requires FatOk(g, disk, chains, owner) && FatOnly(g, disk, disk')
    ensures Untouched(g, disk, chains, disk', chains[f := []], {f})
  {
    hide Raw, FileByte, Cap, FatOnly;
    forall h, k: nat | h in chains && h != f && k < Cap(g, chains[h])
      ensures FileByte(g, disk', chains[h], k) == FileByte(g, disk, chains[h], k)
    {
      ChainInRange(g, Table(g, disk), chains, owner, h);
      FatOnlyByte(g, disk, disk', chains[h], k);
    }
  }

  /** Those that may change: the file and its parent. */
  function Both(f: nat, hasParent: bool, d: nat): set<nat> {
    if hasParent then {f} + {d} else {f}
  }

  lemma EntryOnly(g: Geometry, disk: Disk, chains: Chains, disk': Disk, d: nat, o: nat, first: nat, size: nat)
    requires d in chains && first < 0x1_0000_0000 && size < 0x1_0000_0000
    requires Wrote(g, disk, chains, disk', chains, d, o, Patched(EntryAt(g, disk, chains[d], o), first, size), ENTRY)
    ensures OnlyFields(g, disk, disk', chains[d], o)
  {
    hide FileByte, Cap, TopsKept, Patched;
    var e := EntryAt(g, disk, chains[d], o);
    PatchedReads(e, first, size);
    forall k: nat | k < Cap(g, chains[d]) && !Field(k - o)
      ensures FileByte(g, disk', chains[d], k) == FileByte(g, disk, chains[d], k)
    {
      if o <= k < o + ENTRY {
        assert e[k - o] == FileByte(g, disk, chains[d], o + (k - o));
        assert Patched(e, first, size)[k - o] == e[k - o];
      }
    }
  }

  lemma OnlyFieldsSelf(g: Geometry, disk: Disk, chain: seq<nat>, o: nat)
    ensures OnlyFields(g, disk, disk, chain, o)
  {}

  /** What a volume knows of a file fits the fields of an entry. */
  lemma FitsEntry(g: Geometry, disk: Disk, chains: Chains, owner: Owners, first: Index, size: Index, f: nat)
    requires FatOk(g, disk, chains, owner) && FilesOk(g, first, size, chains) && f in chains
    ensures f in first && f in size && first[f] < 0x1_0000_0000 && size[f] < 0x1_0000_0000
    ensures forall h | h in chains :: h in size && size[h] <= Cap(g, chains[h])
    ensures size.Keys == chains.Keys
  {
    hide Raw, Cap, ChainsOk;
    if chains[f] != [] { NextInChain(Table(g, disk), chains, owner, f, 0); }
  }

  /**
    The end of fwrite() and ftrunc(): unless the file is a directory, its entry is brought up to date.
    Every file and directory but the parent keeps all its bytes, and of the parent only the fields of
    the entry change.
  */
  method Sync(v: FatVolume, f: nat, isDir: bool, hasParent: bool, d: nat, o: nat)
    requires v.Valid() && f in v.chains
    requires hasParent ==> d in v.chains && d != f && v.chains[d] != [] && o % ENTRY == 0
    modifies v`disk
    ensures v.Valid() && Table(v.g, v.disk) == Table(v.g, old(v.disk))
    ensures !isDir && hasParent ==> Entered(v, f, d, o)
    ensures hasParent ==> OnlyFields(v.g, old(v.disk), v.disk, v.chains[d], o)
    ensures Untouched(v.g, old(v.disk), v.chains, v.disk, v.chains, if hasParent then {d} else {})
    ensures forall h: nat | !(hasParent && h == d) ::
      FileOf(v.g, v.disk, v.chains, v.size, h) == FileOf(v.g, old(v.disk), v.chains, v.size, h)
  {
    hide Raw, ChainsOk, Wrote, FileByte, Cap, Patched, EntryAt, FilesOk, Content, OnlyFields, Recorded, Table;
    hide Untouched;
    UntouchedSelf(v.g, v.disk, v.chains, if hasParent then {d} else {});
    FitsEntry(v.g, v.disk, v.chains, v.owner, v.first, v.size, f);
    if hasParent {
      OnlyFieldsSelf(v.g, v.disk, v.chains[d], o);
    }
    if !isDir {
      var ok := SyncDirent(v, f, hasParent, d, o);
      if ok && hasParent {
        var e := Patched(EntryAt(v.g, old(v.disk), v.chains[d], o), v.first[f], v.size[f]);
        EntryOnly(v.g, old(v.disk), v.chains, v.disk, d, o, v.first[f], v.size[f]);
        WroteUntouched(v.g, old(v.disk), v.chains, v.disk, v.chains, d, o, e, ENTRY);
        WroteOthers(v.g, old(v.disk), v.chains, v.disk, v.chains, d, o, e, ENTRY, v.size);
      }
    }
  }

  /**
    fwrite(): as FatVolume.Fwrite, and a write that does not fail leaves the file's entry with its size
    and first cluster.
  */
  method Fwrite(v: FatVolume, f: nat, isDir: bool, src: seq<Byte>, off: nat, good: nat, hasParent: bool, d: nat, o: nat)
    returns (r: int, ghost done: nat)
    requires v.Valid() && f in v.chains && off < 0x1_0000_0000 && |src| < 0x8000_0000
    requires hasParent ==> d in v.chains && d != f && v.chains[d] != [] && o % ENTRY == 0
    modifies v`disk, v`first, v`size, v`chains, v`owner
    ensures v.Valid() && v.chains.Keys == old(v.chains).Keys && (r == done || r == -1)
    ensures r == -1 ==> v.size == old(v.size) && ((done == 0 && v.NoFree()) || done <= good < |src|)
    ensures 0 <= r < |src| ==> v.NoFree()
    ensures 0 <= r && !isDir && hasParent ==> Entered(v, f, d, o)
    ensures 0 <= r ==> SizeOf(v.size, f) == Max(old(SizeOf(v.size, f)), (off + r) % 0x1_0000_0000)
    ensures 0 <= r <= |src| && off <= |old(FileOf(v.g, v.disk, v.chains, v.size, f))| && off + r < 0x1_0000_0000 ==>
      FileOf(v.g, v.disk, v.chains, v.size, f)
      == Overwrite(old(FileOf(v.g, v.disk, v.chains, v.size, f)), off, src[..r])
    ensures r <= |src|
    ensures Untouched(v.g, old(v.disk), old(v.chains), v.disk, v.chains, Both(f, hasParent, d))
    ensures forall h: nat | h != f && !(hasParent && h == d) ::
      FileOf(v.g, v.disk, v.chains, v.size, h) == old(FileOf(v.g, v.disk, v.chains, v.size, h))
    ensures hasParent ==> OnlyFields(v.g, old(v.disk), v.disk, old(v.chains)[d], o)
  {
    hide Raw, ChainsOk, GeoOk, Wrote, FileByte, Cap, FilesOk, Content, Overwrite, OnlyFields, Entered, Table, Untouched;
    FitsEntry(v.g, v.disk, v.chains, v.owner, v.first, v.size, f);
    r, done := v.Fwrite(f, src, off, good);
    KeysKept(v.g, old(v.disk), old(v.chains), v.disk, v.chains, f, off, src, done);
    FitsEntry(v.g, v.disk, v.chains, v.owner, v.first, v.size, f);
    ghost var disk1 := v.disk;
    WroteUntouched(v.g, old(v.disk), old(v.chains), v.disk, v.chains, f, off, src, done);
    UntouchedSelf(v.g, v.disk, v.chains, if hasParent then {d} else {});
    if hasParent {
      OnlyFieldsSelf(v.g, v.disk, v.chains[d], o);
    }
    if r != -1 {
      Sync(v, f, isDir, hasParent, d, o);
    }
    UntouchedTwice(v.g, old(v.disk), old(v.chains), disk1, v.chains, v.disk, v.chains, {f},
                   if hasParent then {d} else {});
    assert {f} + {} == {f};
    if hasParent {
      ParentKept(v.g, old(v.disk), old(v.chains), disk1, v.chains, v.disk, f, off, src, done, d, o);
    }
  }

  /** Unless the directory ends before it, the entry at offset o of directory d records file f. */
  ghost predicate Entered(v: FatVolume, f: nat, d: nat, o: nat)
    reads v
  {
    f in v.first && f in v.size && d in v.chains && Reaches(v.g, v.chains[d], o) ==>
      Recorded(v.g, v.disk, v.chains[d], o, v.first[f], v.size[f])
  }

  lemma ParentKept(g: Geometry, disk: Disk, chains: Chains, disk1: Disk, chains1: Chains, disk2: Disk, f: nat, off: nat,
                   src: seq<Byte>, cnt: nat, d: nat, o: nat)
    requires Wrote(g, disk, chains, disk1, chains1, f, off, src, cnt) && d in chains && d in chains1 && d != f
    requires OnlyFields(g, disk1, disk2, chains1[d], o)
    ensures OnlyFields(g, disk, disk2, chains[d], o)
  {
    hide FileByte, Cap, TopsKept;
    assert chains1[d] == chains[d];
  }

  lemma KeysKept(g: Geometry, disk: Disk, chains: Chains, disk': Disk, chains': Chains, f: nat, off: nat,
                 src: seq<Byte>, cnt: nat)
    requires Wrote(g, disk, chains, disk', chains', f, off, src, cnt)
    ensures chains'.Keys == chains.Keys && f in chains && cnt <= |src|
    ensures forall h | h in chains && h != f :: chains'[h] == chains[h]
  {
    hide FileByte, Cap, TopsKept;
  }

  /** ftrunc(): as FatVolume.Ftrunc, and the file's entry says that it is empty. */
  method Ftrunc(v: FatVolume, f: nat, isDir: bool, hasParent: bool, d: nat, o: nat)
    requires v.Valid() && f in v.chains
    requires hasParent ==> d in v.chains && d != f && v.chains[d] != [] && o % ENTRY == 0
    modifies v`disk, v`first, v`size, v`chains, v`owner
    ensures v.Valid()
    ensures v.chains == old(v.chains)[f := []] && v.size == old(v.size)[f := 0] && v.first == old(v.first)[f := 0]
    ensures forall e | 0 <= e < v.g.tot + 2 ::
      Table(v.g, v.disk)[e] == if e in old(v.chains)[f] then 0 else Table(v.g, old(v.disk))[e]
    ensures !isDir && hasParent ==> Entered(v, f, d, o)
    ensures Untouched(v.g, old(v.disk), old(v.chains), v.disk, v.chains, Both(f, hasParent, d))
    ensures forall h: nat | h != f && !(hasParent && h == d) ::
      FileOf(v.g, v.disk, v.chains, v.size, h) == old(FileOf(v.g, v.disk, v.chains, v.size, h))
  {
    hide Raw, ChainsOk, GeoOk, FatOnly, FileByte, Cap, FilesOk, Content, OnlyFields, Entered, Table, Untouched;
    FitsEntry(v.g, v.disk, v.chains, v.owner, v.first, v.size, f);
    v.Ftrunc(f);
    ghost var disk1 := v.disk;
    TruncUntouched(v.g, old(v.disk), old(v.chains), old(v.owner), v.disk, f);
    FitsEntry(v.g, v.disk, v.chains, v.owner, v.first, v.size, f);
    Sync(v, f, isDir, hasParent, d, o);
    UntouchedTwice(v.g, old(v.disk), old(v.chains), disk1, v.chains, v.disk, v.chains, {f},
                   if hasParent then {d} else {});
    assert {f} + {} == {f};
  }
}
