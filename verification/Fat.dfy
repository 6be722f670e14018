/**
  kernel/fat32.c: the FAT routines read_fat(), write_fat(), alloc_clus() and free_chain(), and file
  reading, writing and truncation over cluster chains, up to the call of sync_dirent(). Files are
  named by vnode numbers.
*/
module Fat {
  import opened Bytes
  import opened FatDisk
  import opened FatChains
  import opened FatFile

  type Index = map<nat, nat>

  function Head(chain: seq<nat>): nat {
    if chain == [] then 0 else chain[0]
  }

  /** Every vnode's first_clus heads its chain (0 if none) and its file_size fits the chain. */
  ghost predicate FilesOk(g: Geometry, first: Index, size: Index, chains: Chains) {
    && first.Keys == chains.Keys && size.Keys == chains.Keys
    && (forall f | f in chains ::
          first[f] == Head(chains[f]) && size[f] < 0x1_0000_0000 && size[f] <= Cap(g, chains[f]))
  }

  /** The file offset of byte i of cluster number j. */
  function Spot(g: Geometry, j: nat, i: nat): nat {
    j * g.bpc + i
  }

  lemma SpotFits(g: Geometry, chain: seq<nat>, j: nat, i: nat, len: nat)
    requires j < |chain| && i + len <= g.bpc
    ensures Spot(g, j, i) + len == Spot(g, j, i + len) <= Cap(g, chain)
    ensures i + len == g.bpc ==> Spot(g, j, i + len) == Spot(g, j + 1, 0)
  {
    CapCovers(g, chain, j, i + len);
    Times(j, j + 1, g.bpc);
  }

  /** Byte k of a file does not change when its chain grows. */
  lemma PrefixByte(g: Geometry, disk: Disk, chain: seq<nat>, chain': seq<nat>, k: nat)
    requires chain <= chain' && k < Cap(g, chain) && 0 < g.bpc
    ensures FileByte(g, disk, chain', k) == FileByte(g, disk, chain, k)
  {
    DivRange(k, g.bpc, |chain|);
  }

  /** FAT updates that only lengthen f's chain change no byte of any file. */
  lemma OnlyGrew(g: Geometry, disk: Disk, disk': Disk, chains: Chains, owner: Owners, chains': Chains, f: nat, off: nat,
                 src: seq<Byte>)
    requires FatOk(g, disk, chains, owner) && FatOnly(g, disk, disk') && Extended(chains, chains', f) && f in chains
    ensures Wrote(g, disk, chains, disk', chains', f, off, src, 0)
  {
    hide FileByte, Cap, Raw, GeoOk, TopsKept;
    Positive(g, disk);
    forall h, k: nat | h in chains && k < Cap(g, chains[h])
      ensures FileByte(g, disk', chains'[h], k) == FileByte(g, disk, chains[h], k)
    {
      ChainInRange(g, Table(g, disk), chains, owner, h);
      FatOnlyByte(g, disk, disk', chains[h], k);
      PrefixByte(g, disk', chains[h], chains'[h], k);
    }
  }

  class FatVolume {
    const g: Geometry
    var disk: Disk
    var first: Index
    var size: Index
    ghost var chains: Chains
    ghost var owner: Owners

    ghost predicate Linked()
      reads this
    {
      FatOk(g, disk, chains, owner)
    }

    ghost predicate Valid()
      reads this
    {
      Linked() && FilesOk(g, first, size, chains)
    }

    constructor (g: Geometry, disk: Disk, first: Index, size: Index, ghost chains: Chains, ghost owner: Owners)
      requires FatOk(g, disk, chains, owner) && FilesOk(g, first, size, chains)
      ensures Valid() && this.disk == disk && this.first == first && this.size == size && this.chains == chains
    {
      this.g, this.disk, this.first, this.size, this.chains, this.owner := g, disk, first, size, chains, owner;
    }

    /** read_fat(): the low 28 bits of entry c. */
    method ReadFat(c: nat) returns (v: nat)
      requires GeoOk(g, disk) && c < g.tot + 2
      ensures v == Table(g, disk)[c]
    {
      var fo := 4 * c;
      var p := SectorPos(g.rsvd + fo / BPS, fo % BPS);
      EntrySector(g, 0, c);
      EntryInFat(g, disk, 0, c);
      v := Word32(disk, p) % LOW28;
    }

    /** write_fat(): entry c takes v in both copies, the top four bits of each stay. */
    method WriteFat(c: nat, v: nat)
      requires GeoOk(g, disk) && MirrorOk(g, disk) && c < g.tot + 2 && v < LOW28
      modifies this`disk
      ensures FatOnly(g, old(disk), disk) && GeoOk(g, disk) && MirrorOk(g, disk)
      ensures Table(g, disk) == Table(g, old(disk))[c := v]
    {
      hide Raw, SectorPos, EntryPos, Word32, PutWord32;
      EntryWritten(g, disk, c, v);
      var fo := 4 * c;
      var sec, eo := g.rsvd + fo / BPS, fo % BPS;
      SetCopyIs(g, disk, 0, c, v);
      EntrySector(g, 0, c);
      disk := PutWord32(disk, SectorPos(sec, eo), Merge(Word32(disk, SectorPos(sec, eo)), v));
      if g.numFats > 1 {
        var s2 := sec + g.fatSz;
        SetCopyIs(g, disk, 1, c, v);
        EntrySector(g, 1, c);
        disk := PutWord32(disk, SectorPos(s2, eo), Merge(Word32(disk, SectorPos(s2, eo)), v));
      }
    }

    /** alloc_clus(): the first free cluster, marked end-of-chain; 0 exactly when there is none. */
    method AllocClus() returns (c: nat)
      requires Linked()
      modifies this`disk
      ensures Linked() && FatOnly(g, old(disk), disk)
      ensures c == 0 <==> forall e | 2 <= e < g.tot + 2 :: Table(g, old(disk))[e] != 0
      ensures c == 0 ==> disk == old(disk)
      ensures c != 0 ==>
        && 2 <= c < g.tot + 2 && c !in owner && Table(g, old(disk))[c] == 0
        && (forall e | 2 <= e < c :: Table(g, old(disk))[e] != 0)
        && Table(g, disk) == Table(g, old(disk))[c := EOC]
    {
      hide Raw, GeoOk;
      FatOnlySelf(g, disk);
      c := 2;
      while c < g.tot + 2
        modifies {}
        invariant 2 <= c <= g.tot + 2
        invariant forall e | 2 <= e < c :: Table(g, disk)[e] != 0
      {
        var v := ReadFat(c);
        if v == 0 {
          break;
        }
        c := c + 1;
      }
      if c == g.tot + 2 {
        c := 0;
        return;
      }
      FreeUnowned(Table(g, disk), chains, owner, c);
      SetUnowned(Table(g, disk), chains, owner, c, EOC);
      WriteFat(c, EOC);
    }

    /** free_chain(): every cluster of the chain becomes free and nothing else in the FAT changes. */
    method FreeChain(c0: nat, ghost f: nat)
      requires Linked() && f in chains && c0 == Head(chains[f])
      modifies this`disk, this`chains, this`owner
      ensures Linked() && FatOnly(g, old(disk), disk)
      ensures chains == old(chains)[f := []] && owner == Without(old(owner), f)
      ensures forall e | 0 <= e < g.tot + 2 ::
        Table(g, disk)[e] == if e in old(chains)[f] then 0 else Table(g, old(disk))[e]
    {
      hide Raw, GeoOk, ChainsOk, FatOnly;
      ghost var chain, table := chains[f], Table(g, disk);
      FatOnlySelf(g, disk);
      Drop(table, chains, owner, f);
      chains, owner := chains[f := []], Without(owner, f);
      var c := c0;
      ghost var j := 0;
      while 2 <= c < EOC_MIN
        modifies this`disk
        invariant Linked() && FatOnly(g, old(disk), disk) && j <= |chain| && c == Head(chain[j..])
        invariant forall e | 0 <= e < g.tot + 2 :: Table(g, disk)[e] == if e in chain[..j] then 0 else table[e]
        decreases |chain| - j
      {
        NextInChain(table, old(chains), old(owner), f, j);
        ghost var disk1 := disk;
        var n := ReadFat(c);
        SetUnowned(Table(g, disk), chains, owner, c, 0);
        WriteFat(c, 0);
        FatOnlyTwice(g, old(disk), disk1, disk);
        assert chain[..j + 1] == chain[..j] + [c];
        j := j + 1;
        assert forall e | 0 <= e < g.tot + 2 :: Table(g, disk)[e] == if e in chain[..j] then 0 else table[e];
        if n >= EOC_MIN {
          assert chain[..j] == chain;
          break;
        }
        c := n;
      }
      if j < |chain| {
        NextInChain(table, old(chains), old(owner), f, j);
      }
      assert chain[..|chain|] == chain;
    }

    /** ftrunc(): the file becomes empty and its clusters free. */
    method Ftrunc(f: nat)
      requires Valid() && f in chains
      modifies this`disk, this`first, this`size, this`chains, this`owner
      ensures Valid() && FatOnly(g, old(disk), disk)
      ensures chains == old(chains)[f := []] && size == old(size)[f := 0] && first == old(first)[f := 0]
      ensures forall e | 0 <= e < g.tot + 2 ::
        Table(g, disk)[e] == if e in old(chains)[f] then 0 else Table(g, old(disk))[e]
      ensures forall h | h in chains && h != f ::
        Content(g, disk, chains[h], size[h]) == old(Content(g, disk, chains[h], size[h]))
    {
      hide Raw, GeoOk, ChainsOk, FatOnly, Content, FilesOk, Table;
      Emptied(g, first, size, chains, f);
      NoChain(g, disk, chains, owner, f);
      FatOnlySelf(g, disk);
      if first[f] != 0 {
        FreeChain(first[f], f);
        first := first[f := 0];
      }
      size := size[f := 0];
      OthersKept(g, old(disk), disk, old(chains), old(owner), old(size), f);
      assert chains == old(chains)[f := []] && first == old(first)[f := 0];
    }

    /** The step of fwrite() that extends a chain past its last cluster c. */
    method Grow(f: nat, c: nat) returns (nx: nat)
      requires Linked() && f in chains && chains[f] != [] && c == chains[f][|chains[f]| - 1]
      modifies this`disk, this`chains, this`owner
      ensures Linked() && FatOnly(g, old(disk), disk)
      ensures nx == 0 ==> chains == old(chains) && NoFree()
      ensures nx != 0 ==> chains == old(chains)[f := old(chains)[f] + [nx]]
    {
      hide Raw, GeoOk, ChainsOk, FatOnly;
      nx := AllocClus();
      if nx == 0 {
        return;
      }
      ghost var table := Table(g, disk);
      Append(table, chains, owner, f, nx);
      LastOwned(table, chains, owner, f);
      ghost var disk1 := disk;
      InFat(g, disk, nx);
      WriteFat(c, nx);
      FatOnlyTwice(g, old(disk), disk1, disk);
      ghost var disk2 := disk;
      WriteFat(nx, EOC);
      FatOnlyTwice(g, old(disk), disk2, disk);
      assert Table(g, disk) == table[c := nx];
      chains, owner := chains[f := chains[f] + [nx]], owner[nx := Place(f, |chains[f]|)];
    }

    ghost predicate NoFree()
      reads this
      requires GeoOk(g, disk)
    {
      forall e | 2 <= e < g.tot + 2 :: Table(g, disk)[e] != 0
    }

    /** The first cluster of a file that has none. */
    method Begin(f: nat) returns (c: nat)
      requires Valid() && f in chains && first[f] == 0
      modifies this`disk, this`first, this`chains, this`owner
      ensures Valid() && FatOnly(g, old(disk), disk)
      ensures c == 0 ==> chains == old(chains) && NoFree()
      ensures c != 0 ==> chains == old(chains)[f := old(chains)[f] + [c]] && chains[f] == [c]
    {
      hide Raw, GeoOk, ChainsOk, FatOnly, FilesOk, Table;
      FileHead(g, first, size, chains, f);
      NoChain(g, disk, chains, owner, f);
      c := AllocClus();
      if c == 0 {
        return;
      }
      Append(Table(g, disk), chains, owner, f, c);
      FilesGrow(g, first, size, chains, f, c);
      assert chains[f] + [c] == [c];
      chains, owner := chains[f := [c]], owner[c := Place(f, 0)];
      first := first[f := c];
    }

    /** The first half of fwrite(): the cluster that holds offset off, extending the chain up to it. */
    method Locate(f: nat, off: nat, ghost src: seq<Byte>) returns (c: nat, i: nat, ghost j: nat)
      requires Valid() && f in chains
      modifies this`disk, this`first, this`chains, this`owner
      ensures Valid() && Wrote(g, old(disk), old(chains), disk, chains, f, off, src, 0)
      ensures c == 0 ==> NoFree()
      ensures c != 0 ==> j < |chains[f]| && c == chains[f][j] && off == Spot(g, j, i) && i < g.bpc
    {
      hide Raw, GeoOk, ChainsOk, FatOnly, FilesOk, Extended, Wrote;
      Positive(g, disk);
      FatOnlySelf(g, disk);
      FileHead(g, first, size, chains, f);
      NoChain(g, disk, chains, owner, f);
      ExtendOne(chains, chains, f, 0);
      c, i, j := first[f], off % g.bpc, 0;
      if c == 0 {
        c := Begin(f);
        ExtendOne(old(chains), old(chains), f, c);
        if c == 0 {
          OnlyGrew(g, old(disk), disk, old(chains), old(owner), chains, f, off, src);
          return;
        }
      }
      var cskip := off / g.bpc;
      var skipped := 0;
      while skipped < cskip
        modifies this`disk, this`chains, this`owner
        invariant Valid() && FatOnly(g, old(disk), disk) && Extended(old(chains), chains, f)
        invariant f in chains && skipped <= cskip && skipped < |chains[f]| && c == chains[f][skipped]
      {
        NextInChain(Table(g, disk), chains, owner, f, skipped);
        var nx := ReadFat(c);
        if nx >= EOC_MIN {
          ghost var disk1, chains1 := disk, chains;
          nx := Grow(f, c);
          FatOnlyTwice(g, old(disk), disk1, disk);
          if nx == 0 {
            OnlyGrew(g, old(disk), disk, old(chains), old(owner), chains, f, off, src);
            c := 0;
            return;
          }
          FilesGrow(g, first, size, chains1, f, nx);
          ExtendOne(old(chains), chains1, f, nx);
        }
        c := nx;
        skipped := skipped + 1;
      }
      j := skipped;
      NextInChain(Table(g, disk), chains, owner, f, j);
      DivSplit(off, g.bpc);
      OnlyGrew(g, old(disk), disk, old(chains), old(owner), chains, f, off, src);
    }

    predicate Mirrored(sec: nat) {
      g.numFats > 1 && g.rsvd <= sec < g.rsvd + g.fatSz
    }

    /** swrite(): bytes of one sector, and of its twin if it is a sector of the first FAT. */
    method Swrite(sec: nat, off: nat, data: seq<Byte>)
      requires SectorPos(sec, off) + |data| <= |disk|
      requires (Mirrored(sec) ==> SectorPos(sec + g.fatSz, off) + |data| <= |disk|)
      modifies this`disk
      ensures disk == var d := Store(old(disk), SectorPos(sec, off), data);
                      if Mirrored(sec) then Store(d, SectorPos(sec + g.fatSz, off), data) else d
    {
      disk := Store(disk, SectorPos(sec, off), data);
      if g.numFats > 1 && sec >= g.rsvd && sec < g.rsvd + g.fatSz {
        disk := Store(disk, SectorPos(sec + g.fatSz, off), data);
      }
    }

    /** One round of fwrite(): data inside a sector of cluster number j of f. */
    method WritePiece(f: nat, ghost j: nat, c: nat, i: nat, data: seq<Byte>)
      requires Linked() && f in chains && j < |chains[f]| && c == chains[f][j] && i < g.bpc && i % BPS + |data| <= BPS
      modifies this`disk
      ensures Linked() && i + |data| <= g.bpc
      ensures Wrote(g, old(disk), chains, disk, chains, f, Spot(g, j, i), data, |data|)
      ensures Table(g, disk) == Table(g, old(disk))
    {
      hide Raw, ChainsOk, SectorPos, BytePos, Wrote;
      NextInChain(Table(g, disk), chains, owner, f, j);
      SectorFits(g.spc, g.bpc, i, |data|);
      ByteInData(g, disk, c, i);
      ByteSector(g, c, i);
      DataSector(g, c, i);
      Swrite(ClusToSec(g, c) + i / BPS, i % BPS, data);
      StoreKeepsFat(g, old(disk), BytePos(g, c, i), data);
      PieceWrote(g, old(disk), disk, chains, owner, f, j, i, data);
    }

    /** What fwrite() does at the end of a cluster: follow the chain, or extend it if more is to come. */
    method Advance(f: nat, ghost j: nat, c: nat, more: bool, ghost off: nat, ghost src: seq<Byte>) returns (nx: nat)
      requires Valid() && f in chains && j < |chains[f]| && c == chains[f][j]
      modifies this`disk, this`chains, this`owner
      ensures Valid() && Wrote(g, old(disk), old(chains), disk, chains, f, off, src, 0)
      ensures more && nx == 0 ==> NoFree()
      ensures more && nx != 0 ==> j + 1 < |chains[f]| && nx == chains[f][j + 1]
    {
      hide Raw, GeoOk, ChainsOk, FatOnly, FilesOk, Wrote;
      NextInChain(Table(g, disk), chains, owner, f, j);
      WroteNone(g, disk, chains, f, off, src);
      nx := ReadFat(c);
      if nx >= EOC_MIN && more {
        nx := Grow(f, c);
        if nx != 0 {
          FilesGrow(g, first, size, old(chains), f, nx);
        }
        ExtendOne(old(chains), old(chains), f, nx);
        OnlyGrew(g, old(disk), disk, old(chains), old(owner), chains, f, off, src);
      }
    }

    /** The loop of fwrite(), from byte i0 of cluster number j0. */
    method WriteLoop(f: nat, src: seq<Byte>, ghost off: nat, good: nat, c0: nat, i0: nat, ghost j0: nat)
      returns (total: nat, ok: bool)
      requires Valid() && f in chains && j0 < |chains[f]| && c0 == chains[f][j0] && i0 < g.bpc && off == Spot(g, j0, i0)
      modifies this`disk, this`chains, this`owner
      ensures Valid() && Wrote(g, old(disk), old(chains), disk, chains, f, off, src, total)
      ensures total <= |src| && total <= good && off + total <= Cap(g, chains[f])
      ensures ok && total < |src| ==> NoFree()
      ensures !ok ==> good < |src|
    {
      hide Raw, GeoOk, ChainsOk, FatOnly, FilesOk, Wrote, Cap, Spot;
      var c: nat, i: nat := c0, i0;
      ghost var j: nat := j0;
      total, ok := 0, true;
      WroteNone(g, disk, chains, f, off, src);
      SpotFits(g, chains[f], j, i, 0);
      while total < |src|
        invariant Valid() && f in chains && total <= |src| && total <= good && off + total <= Cap(g, chains[f])
        invariant Wrote(g, old(disk), old(chains), disk, chains, f, off, src, total)
        invariant total < |src| ==> j < |chains[f]| && c == chains[f][j] && i < g.bpc && off + total == Spot(g, j, i)
      {
        NextInChain(Table(g, disk), chains, owner, f, j);
        assert c < EOC_MIN; // the first branch of the loop is never taken
        var bo := i % BPS;
        var len := Min(BPS - bo, |src| - total);
        if total + len > good {
          ok := false;
          return;
        }
        ghost var disk1, chains1 := disk, chains;
        WritePiece(f, j, c, i, src[total..total + len]);
        WroteNext(g, old(disk), old(chains), disk1, chains1, disk, chains, f, off, src, total, len);
        SpotFits(g, chains[f], j, i, len);
        total, i := total + len, i + len;
        if i >= g.bpc {
          i := 0;
          ghost var disk2, chains2 := disk, chains;
          var nx := Advance(f, j, c, total < |src|, off + total, src[total..total]);
          WroteNext(g, old(disk), old(chains), disk2, chains2, disk, chains, f, off, src, total, 0);
          StillFits(g, disk2, chains2, disk, chains, f, off + total, src[total..total]);
          if nx == 0 && total < |src| {
            break;
          }
          c, j := nx, j + 1;
        }
      }
    }

    /**
      fwrite(): src goes to off, across sectors and clusters, the chain growing as needed. -1 means no
      cluster for off, or a source that faults; a short count means the volume is full.
    */
    method Fwrite(f: nat, src: seq<Byte>, off: nat, good: nat) returns (r: int, ghost done: nat)
      requires Valid() && f in chains && off < 0x1_0000_0000 && |src| < 0x8000_0000
      modifies this`disk, this`first, this`size, this`chains, this`owner
      ensures Valid() && Wrote(g, old(disk), old(chains), disk, chains, f, off, src, done)
      ensures r == done || r == -1
      ensures r == -1 ==> size == old(size) && ((done == 0 && NoFree()) || done <= good < |src|)
      ensures 0 <= r < |src| ==> NoFree()
      ensures 0 <= r ==> size == old(size)[f := Max(old(size)[f], (off + r) % 0x1_0000_0000)]
      ensures 0 <= r && off <= old(size)[f] && off + r < 0x1_0000_0000 ==>
        Content(g, disk, chains[f], size[f]) == Overwrite(old(Content(g, disk, chains[f], size[f])), off, src[..r])
      ensures forall h | h in chains && h != f ::
        Content(g, disk, chains[h], size[h]) == old(Content(g, disk, chains[h], size[h]))
    {
      hide Raw, GeoOk, ChainsOk, FatOnly, FilesOk, Wrote, Cap, Spot, Content, Overwrite;
      FileHead(g, first, size, chains, f);
      var c, i;
      ghost var j;
      c, i, j := Locate(f, off, src);
      WroteFile(g, old(disk), old(chains), disk, chains, f, off, src, 0, first, old(first), size);
      if c == 0 {
        return -1, 0;
      }
      ghost var disk1, chains1 := disk, chains;
      var total: nat, ok: bool;
      total, ok := WriteLoop(f, src, off, good, c, i, j);
      WroteAfter(g, old(disk), old(chains), disk1, chains1, disk, chains, f, off, src, total);
      WroteFile(g, old(disk), old(chains), disk, chains, f, off, src, total, first, old(first), size);
      done := total;
      if !ok {
        return -1, total;
      }
      var end := (off + total) % 0x1_0000_0000;
      SizeFits(g, first, size, chains, f, end);
      if end > size[f] {
        size := size[f := end];
      }
      r := total;
      assert size == old(size)[f := Max(old(size)[f], end)];
    }

    /** fread(): the file from off, clamped as the 32-bit test clamps it, up to where the destination faults. */
    method Fread(f: nat, len: nat, off: nat, room: nat) returns (r: int, out: seq<Byte>)
      requires Valid() && f in chains && off < 0x1_0000_0000 && len < 0x8000_0000
      ensures f in size
      ensures var avail := ReadCount(size[f], Cap(g, chains[f]), off, len);
              && r == (if avail <= room then avail else -1)
              && |out| == Min(avail, room)
              && (forall k | 0 <= k < |out| :: out[k] == FileByte(g, disk, chains[f], off + k))
    {
      hide Raw, GeoOk, ChainsOk, FilesOk, Cap, Spot, FileByte, ReadCount;
      FileHead(g, first, size, chains, f);
      out := [];
      ghost var chain, cap := chains[f], Cap(g, chains[f]);
      ReadCountIs(size[f], cap, off, len);
      if off >= size[f] {
        return 0, [];
      }
      var want := if (off + len) % 0x1_0000_0000 > size[f] then size[f] - off else len;
      var c: nat, i: nat;
      ghost var j: nat;
      c, i, j := Seek(f, off);
      var total := 0;
      while total < want && 2 <= c < EOC_MIN
        invariant 0 <= total <= want && total == |out| <= room && off + total <= cap && j <= |chain|
        invariant if j < |chain| then c == chain[j] && i < g.bpc && off + total == Spot(g, j, i)
                  else c >= EOC_MIN && off + total == cap
        invariant forall k | 0 <= k < total :: out[k] == FileByte(g, disk, chain, off + k)
      {
        var bo := i % BPS;
        var n := Min(BPS - bo, want - total);
        var data := ReadPiece(f, j, c, i, n);
        var take := Min(n, room - total);
        out := out + data[..take];
        SpotFits(g, chain, j, i, n);
        if take < n {
          return -1, out;
        }
        NextInChain(Table(g, disk), chains, owner, f, j);
        total, i := total + n, i + n;
        if i >= g.bpc {
          i := 0;
          c := ReadFat(c);
          j := j + 1;
          SpotEnd(g, chain);
        }
      }
      if j < |chain| {
        NextInChain(Table(g, disk), chains, owner, f, j);
      }
      r := total;
    }

    /** The skip loop of fread(): the cluster that holds an offset inside the file. */
    method Seek(f: nat, off: nat) returns (c: nat, i: nat, ghost j: nat)
      requires Valid() && f in chains && f in size && off < size[f]
      ensures j < |chains[f]| && c == chains[f][j] && i < g.bpc && off == Spot(g, j, i) && size[f] <= Cap(g, chains[f])
    {
      hide Raw, GeoOk, ChainsOk, FilesOk, Cap, Spot;
      FileHead(g, first, size, chains, f);
      InFile(g, disk, first, size, chains, f, off);
      var cskip, skipped: nat := off / g.bpc, 0;
      c := first[f];
      while skipped < cskip && 2 <= c < EOC_MIN
        invariant skipped <= cskip && c == chains[f][skipped]
      {
        NextInChain(Table(g, disk), chains, owner, f, skipped);
        c := ReadFat(c);
        skipped := skipped + 1;
      }
      NextInChain(Table(g, disk), chains, owner, f, skipped);
      i, j := off % g.bpc, skipped;
      SpotIs(g, off, j, i);
    }

    /** One round of fread(): bytes of a sector of cluster number j. */
    method ReadPiece(ghost f: nat, ghost j: nat, c: nat, i: nat, len: nat) returns (data: seq<Byte>)
      requires Linked() && f in chains && j < |chains[f]| && c == chains[f][j] && i < g.bpc && i % BPS + len <= BPS
      ensures |data| == len && i + len <= g.bpc
      ensures forall k | 0 <= k < len :: data[k] == FileByte(g, disk, chains[f], Spot(g, j, i) + k)
    {
      hide Raw, ChainsOk, BytePos, FileByte, SectorPos;
      NextInChain(Table(g, disk), chains, owner, f, j);
      SectorFits(g.spc, g.bpc, i, len);
      ByteInData(g, disk, c, i);
      ByteSector(g, c, i);
      var p := SectorPos(ClusToSec(g, c) + i / BPS, i % BPS);
      data := disk[p..p + len];
      ChainInRange(g, Table(g, disk), chains, owner, f);
      forall k | 0 <= k < len ensures data[k] == FileByte(g, disk, chains[f], Spot(g, j, i) + k) {
        ByteIn(g, disk, chains[f], j, i + k);
        NextByte(g, disk, c, i, k);
      }
    }
  }

  lemma ReadCountIs(size: nat, cap: nat, off: nat, len: nat)
    ensures ReadCount(size, cap, off, len)
         == if off >= size then 0
            else Min(if (off + len) % 0x1_0000_0000 > size then size - off else len,
                     if off <= cap then cap - off else 0)
  {}

  lemma InFile(g: Geometry, disk: Disk, first: Index, size: Index, chains: Chains, f: nat, off: nat)
    requires GeoOk(g, disk) && FilesOk(g, first, size, chains) && f in chains && f in size && off < size[f]
    ensures 0 < g.bpc && off / g.bpc < |chains[f]| && off < size[f] <= Cap(g, chains[f])
  {
    DivRange(off, g.bpc, |chains[f]|);
  }

  lemma SpotIs(g: Geometry, off: nat, j: nat, i: nat)
    requires 0 < g.bpc && j == off / g.bpc && i == off % g.bpc
    ensures off == Spot(g, j, i) && i < g.bpc
  {}

  lemma SpotEnd(g: Geometry, chain: seq<nat>)
    ensures Spot(g, |chain|, 0) == Cap(g, chain)
  {}

  lemma NextByte(g: Geometry, disk: Disk, c: nat, i: nat, k: nat)
    requires 2 <= c
    ensures BytePos(g, c, i + k) == BytePos(g, c, i) + k
    ensures BytePos(g, c, i) + k < |disk| ==> ClusterByte(g, disk, c, i + k) == disk[BytePos(g, c, i) + k]
  {}

  /**
    How many bytes fread() reads: the clamp to file_size is tested on off+len modulo 2^32, and the chain
    ends the rest.
  */
  function ReadCount(size: nat, cap: nat, off: nat, len: nat): nat
  {
    if off >= size then 0
    else Min(if (off + len) % 0x1_0000_0000 > size then size - off else len, if off <= cap then cap - off else 0)
  }

  /**
    fread() clamps to file_size exactly when off+len does not wrap, or there is nothing past file_size
    to read.
  */
  lemma ClampedIff(size: nat, cap: nat, off: nat, len: nat)
    requires off < size <= cap && size < 0x1_0000_0000 && len < 0x8000_0000
    ensures ReadCount(size, cap, off, len) == Min(len, size - off)
       <==> off + len < 0x1_0000_0000 || cap == size
  {}

  /** A one-byte tail read of a nearly 4 GiB file with a huge count returns the rest of its cluster. */
  lemma WrapReadsPastSize()
    ensures ReadCount(0xFFFF_FC01, 0x1_0000_0000, 0xFFFF_FC00, 0x7FFF_FFFF) == 1024
  {}

  /** What a write means for whole files. */
  lemma WroteFile(g: Geometry, disk: Disk, chains: Chains, disk': Disk, chains': Chains, f: nat, off: nat,
                  src: seq<Byte>, cnt: nat, first': Index, first: Index, size: Index)
    requires Wrote(g, disk, chains, disk', chains', f, off, src, cnt) && FilesOk(g, first, size, chains)
    requires FilesOk(g, first', size, chains')
    ensures f in size && f in chains' && size.Keys == chains.Keys == chains'.Keys && cnt <= |src|
    ensures forall h | h in chains && h != f ::
      Content(g, disk', chains'[h], size[h]) == Content(g, disk, chains[h], size[h])
    ensures off <= size[f] ==>
      Content(g, disk', chains'[f], Max(size[f], off + cnt))
      == Overwrite(Content(g, disk, chains[f], size[f]), off, src[..cnt])
  {
    hide Content, Overwrite, Cap;
    WroteOthers(g, disk, chains, disk', chains', f, off, src, cnt, size);
    if off <= size[f] { WroteContent(g, disk, chains, disk', chains', f, off, src, cnt, size); }
  }

  lemma SizeFits(g: Geometry, first: Index, size: Index, chains: Chains, f: nat, end: nat)
    requires FilesOk(g, first, size, chains) && f in chains && end < 0x1_0000_0000 && end <= Cap(g, chains[f])
    ensures FilesOk(g, first, size[f := end], chains)
  {}

  lemma StillFits(g: Geometry, disk: Disk, chains: Chains, disk': Disk, chains': Chains, f: nat, off: nat,
                  src: seq<Byte>)
    requires Wrote(g, disk, chains, disk', chains', f, off, src, 0) && f in chains
    ensures f in chains' && Cap(g, chains[f]) <= Cap(g, chains'[f])
  {
    CapPrefix(g, chains[f], chains'[f]);
  }

  lemma SectorFits(spc: nat, bpc: nat, i: nat, len: nat)
    requires bpc == spc * BPS && i < bpc && i % BPS + len <= BPS
    ensures i + len <= bpc
  {}

  /** Data sectors are never mistaken for FAT sectors. */
  lemma DataSector(g: Geometry, c: nat, i: nat)
    requires 2 <= c && 0 < g.numFats
    ensures g.rsvd + g.fatSz <= ClusToSec(g, c) + i / BPS
  {
    Times(0, g.numFats, g.fatSz);
    Times(0, c - 1, g.spc);
  }

  lemma PieceInData(g: Geometry, disk: Disk, chains: Chains, owner: Owners, f: nat, j: nat, i: nat)
    requires FatOk(g, disk, chains, owner) && f in chains && j < |chains[f]| && i < g.bpc
    ensures 2 <= chains[f][j] && FirstData(g) * BPS <= BytePos(g, chains[f][j], i)
  {
    NextInChain(Table(g, disk), chains, owner, f, j);
    ByteInData(g, disk, chains[f][j], i);
  }

  lemma PieceWrote(g: Geometry, disk: Disk, disk': Disk, chains: Chains, owner: Owners, f: nat, j: nat, i: nat,
                   data: seq<Byte>)
    requires FatOk(g, disk, chains, owner) && f in chains && j < |chains[f]| && i < g.bpc && i + |data| <= g.bpc
    requires 2 <= chains[f][j] && BytePos(g, chains[f][j], i) + |data| <= |disk|
    requires disk' == Store(disk, BytePos(g, chains[f][j], i), data)
    ensures Wrote(g, disk, chains, disk', chains, f, j * g.bpc + i, data, |data|)
  {
    hide FileByte, GeoOk, Raw, ChainsOk, BytePos, Store;
    PieceInData(g, disk, chains, owner, f, j, i);
    StoreKeepsFat(g, disk, BytePos(g, chains[f][j], i), data);
    ChainInRange(g, Table(g, disk), chains, owner, f);
    forall h, k: nat | h in chains && k < Cap(g, chains[h])
      ensures FileByte(g, disk', chains[h], k)
           == if h == f && j * g.bpc + i <= k < j * g.bpc + i + |data| then data[k - (j * g.bpc + i)]
              else FileByte(g, disk, chains[h], k)
    {
      ChainInRange(g, Table(g, disk), chains, owner, h);
      StorePiece(g, disk, Table(g, disk), chains, owner, f, j, i, data, h, k);
    }
    CapCovers(g, chains[f], j, i + |data|);
  }

  lemma DivSplit(k: nat, b: nat)
    requires 0 < b
    ensures k == k / b * b + k % b && k % b < b
  {}

  lemma FileHead(g: Geometry, first: Index, size: Index, chains: Chains, f: nat)
    requires FilesOk(g, first, size, chains) && f in chains
    ensures f in first && f in size && first[f] == Head(chains[f])
  {}

  lemma ExtendOne(chains: Chains, chains': Chains, f: nat, c: nat)
    requires f in chains && (chains' == chains || Extended(chains, chains', f))
    ensures f in chains' && Extended(chains, chains', f) && Extended(chains, chains'[f := chains'[f] + [c]], f)
  {}

  /** One more cluster for f keeps every file's head and room. */
  lemma FilesGrow(g: Geometry, first: Index, size: Index, chains: Chains, f: nat, c: nat)
    requires FilesOk(g, first, size, chains) && f in chains
    ensures FilesOk(g, if chains[f] == [] then first[f := c] else first, size, chains[f := chains[f] + [c]])
  {
    hide Cap;
    CapPrefix(g, chains[f], chains[f] + [c]);
  }

  /** Clusters met on the way down a chain: not seen before, and followed by the next one or the end mark. */
  lemma NextInChain(table: seq<nat>, chains: Chains, owner: Owners, f: nat, j: nat)
    requires ChainsOk(table, chains, owner) && f in chains && j < |chains[f]|
    ensures 2 <= chains[f][j] < |table| < EOC_MIN && chains[f][j] !in chains[f][..j]
    ensures if j + 1 < |chains[f]| then 2 <= table[chains[f][j]] == chains[f][j + 1] < EOC_MIN
            else table[chains[f][j]] >= EOC_MIN
  {
    assert ClusterOk(table, chains, owner, f, j);
    if j + 1 < |chains[f]| { assert ClusterOk(table, chains, owner, f, j + 1); }
    forall i | 0 <= i < j ensures chains[f][i] != chains[f][j] {
      assert ClusterOk(table, chains, owner, f, i);
    }
  }

  lemma NoChain(g: Geometry, disk: Disk, chains: Chains, owner: Owners, f: nat)
    requires FatOk(g, disk, chains, owner) && f in chains
    ensures Head(chains[f]) == 0 <==> chains[f] == []
    ensures chains[f] == [] ==> chains[f := []] == chains
  {
    if chains[f] != [] { assert ClusterOk(Table(g, disk), chains, owner, f, 0); }
  }

  lemma Emptied(g: Geometry, first: Index, size: Index, chains: Chains, f: nat)
    requires FilesOk(g, first, size, chains) && f in chains
    ensures f in first && f in size && first[f] == Head(chains[f]) && size.Keys == chains.Keys
    ensures forall h | h in chains :: size[h] <= Cap(g, chains[h])
    ensures FilesOk(g, first[f := 0], size[f := 0], chains[f := []])
  {}

  lemma LastOwned(table: seq<nat>, chains: Chains, owner: Owners, f: nat)
    requires ChainsOk(table, chains, owner) && f in chains && chains[f] != []
    ensures 2 <= chains[f][|chains[f]| - 1] < |table| && chains[f][|chains[f]| - 1] in owner
  {
    assert ClusterOk(table, chains, owner, f, |chains[f]| - 1);
  }

  lemma OthersKept(g: Geometry, disk: Disk, disk': Disk, chains: Chains, owner: Owners, size: Index, f: nat)
    requires FatOk(g, disk, chains, owner) && FatOnly(g, disk, disk') && size.Keys == chains.Keys
    requires forall h | h in chains :: size[h] <= Cap(g, chains[h])
    ensures forall h | h in chains && h != f ::
      Content(g, disk', chains[h], size[h]) == Content(g, disk, chains[h], size[h])
  {
    hide FileByte, Cap, Raw, GeoOk, FatOnly;
    forall h | h in chains ensures Content(g, disk', chains[h], size[h]) == Content(g, disk, chains[h], size[h]) {
      ChainInRange(g, Table(g, disk), chains, owner, h);
      forall k | 0 <= k < size[h] ensures FileByte(g, disk', chains[h], k) == FileByte(g, disk, chains[h], k) {
        FatOnlyByte(g, disk, disk', chains[h], k);
      }
    }
  }

  lemma InFat(g: Geometry, disk: Disk, c: nat)
    requires GeoOk(g, disk) && c < g.tot + 2
    ensures c < EOC_MIN < LOW28
  {}

  lemma FatOnlySelf(g: Geometry, disk: Disk)
    requires GeoOk(g, disk)
    ensures FatOnly(g, disk, disk)
  {}

  lemma SetCopyIs(g: Geometry, disk: Disk, copy: nat, c: nat, v: nat)
    requires GeoOk(g, disk) && c < g.tot + 2 && copy < g.numFats
    ensures EntryPos(g, copy, c) + 4 <= |disk|
    ensures SetCopy(g, disk, copy, c, v)
         == PutWord32(disk, EntryPos(g, copy, c), Merge(Word32(disk, EntryPos(g, copy, c)), v))
  {
    EntryInFat(g, disk, copy, c);
  }

  /** A volume whose vnodes are all empty files is valid, whatever its FAT holds. */
  lemma BlankVolume(g: Geometry, disk: Disk, files: set<nat>)
    requires GeoOk(g, disk) && MirrorOk(g, disk)
    ensures FatOk(g, disk, map f | f in files :: [], map[])
    ensures FilesOk(g, map f | f in files :: 0, map f | f in files :: 0, map f | f in files :: [])
  {
    hide Raw;
  }
}
