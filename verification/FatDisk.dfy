/**
  The byte layout of a FAT32 volume as kernel/fat32.c addresses it: 512-byte sectors inside
  1024-byte buffer-cache blocks, little-endian FAT entries in one or two copies, clusters after them.
*/
module FatDisk {
  import opened Bytes

  const BPS: nat := 512
  const BSIZE: nat := 1024
  const SPB: nat := 2
  const LOW28: nat := 0x1000_0000
  const EOC_MIN: nat := 0x0FFF_FFF8
  const EOC: nat := 0x0FFF_FFFF

  type Disk = seq<Byte>

  /** Sectors and bytes per cluster, reserved sectors, FAT copies, sectors per FAT, clusters. */
  datatype Geometry = Geometry(spc: nat, bpc: nat, rsvd: nat, numFats: nat, fatSz: nat, tot: nat)

  function FirstData(g: Geometry): nat {
    g.rsvd + g.numFats * g.fatSz
  }

  /**
    Two one-sector copies of the FAT in one block: write_fat() waits for the buffer of the first copy,
    which it holds.
  */
  predicate SelfLocks(g: Geometry) {
    1 < g.numFats && g.fatSz == 1 && g.rsvd % SPB == 0
  }

  /** The FAT covers tot+2 entries, its copies share no block, and every cluster is on the device. */
  predicate GeoOk(g: Geometry, disk: Disk) {
    && 0 < g.spc && g.bpc == g.spc * BPS && 0 < g.numFats && 0 < g.fatSz && !SelfLocks(g)
    && 4 * (g.tot + 2) <= g.fatSz * BPS && g.tot + 2 < EOC_MIN
    && (FirstData(g) + g.tot * g.spc) * BPS <= |disk| && |disk| % BSIZE == 0
  }

  /** Byte `off` of sector `sec`, through the block that holds the sector. */
  function SectorPos(sec: nat, off: nat): nat {
    sec / SPB * BSIZE + (sec % SPB * BPS + off)
  }

  lemma SectorPosFlat(sec: nat, off: nat)
    ensures SectorPos(sec, off) == sec * BPS + off
  {}

  predicate SharesBlock(sec: nat, fatSz: nat) {
    sec / SPB == (sec + fatSz) / SPB
  }

  /** The excluded volumes are exactly those on which some FAT sector lies in one block with its copy. */
  lemma CopiesShareBlock(g: Geometry)
    requires 0 < g.fatSz
    ensures SelfLocks(g) <==> 1 < g.numFats && exists sec: nat | g.rsvd <= sec < g.rsvd + g.fatSz ::
      SharesBlock(sec, g.fatSz)
  {
    if SelfLocks(g) { assert SharesBlock(g.rsvd, g.fatSz); }
  }

  // ---- Words ----

  /** A new 28-bit value under the reserved top four bits of the old word. */
  function Merge(old28: nat, v: nat): (r: nat)
    requires old28 < 0x1_0000_0000
    ensures r < 0x1_0000_0000 && r % LOW28 == v % LOW28 && r / LOW28 == old28 / LOW28
  {
    old28 / LOW28 * LOW28 + v % LOW28
  }

  // ---- FAT entries ----

  function EntryPos(g: Geometry, copy: nat, c: nat): nat {
    (g.rsvd + copy * g.fatSz) * BPS + 4 * c
  }

  lemma EntryInFat(g: Geometry, disk: Disk, copy: nat, c: nat)
    requires GeoOk(g, disk) && copy < g.numFats && c < g.tot + 2
    ensures g.rsvd * BPS <= EntryPos(g, copy, c) && EntryPos(g, copy, c) + 4 <= FirstData(g) * BPS <= |disk|
    ensures EntryPos(g, copy, c) + 4 <= (g.rsvd + (copy + 1) * g.fatSz) * BPS
  {
    Times(copy, g.numFats, g.fatSz);
    Times(0, 1 + g.tot, g.spc);
    Beyond(g.rsvd, copy * g.fatSz, g.fatSz, (copy + 1) * g.fatSz, g.tot, c);
  }

  lemma Times(a: nat, b: nat, k: nat)
    requires a < b
    ensures (a + 1) * k == a * k + k && (a + 1) * k <= b * k && 0 <= a * k && 0 <= (b - 1) * k
  {
    Distribute(a, 1, k);
    Distribute(a + 1, b - a - 1, k);
    NatProduct(a, k);
    NatProduct(b - 1, k);
    NatProduct(b - a - 1, k);
  }

  lemma Distribute(a: nat, b: nat, k: nat)
    ensures (a + b) * k == a * k + b * k
  {}

  lemma NatProduct(a: nat, k: nat)
    ensures 0 <= a * k
  {}

  lemma Beyond(rsvd: nat, before: nat, fatSz: nat, after: nat, tot: nat, c: nat)
    requires after == before + fatSz && 4 * (tot + 2) <= fatSz * BPS && c < tot + 2
    ensures (rsvd + before) * BPS + 4 * c + 4 <= (rsvd + after) * BPS
  {}

  /** The code's route to an entry: sector and offset within it. */
  lemma EntrySector(g: Geometry, copy: nat, c: nat)
    ensures SectorPos(g.rsvd + 4 * c / BPS + copy * g.fatSz, 4 * c % BPS) == EntryPos(g, copy, c)
  {
    SectorPosFlat(g.rsvd + 4 * c / BPS + copy * g.fatSz, 4 * c % BPS);
  }

  function Raw(g: Geometry, disk: Disk, copy: nat, c: nat): nat
    requires GeoOk(g, disk) && copy < g.numFats && c < g.tot + 2
    ensures Raw(g, disk, copy, c) < 0x1_0000_0000
  {
    EntryInFat(g, disk, copy, c);
    Word32(disk, EntryPos(g, copy, c))
  }

  /** The 28-bit entries of the first copy. */
  function Table(g: Geometry, disk: Disk): (t: seq<nat>)
    requires GeoOk(g, disk)
    ensures |t| == g.tot + 2 && forall c | 0 <= c < |t| :: t[c] == Raw(g, disk, 0, c) % LOW28
  {
    seq(g.tot + 2, c requires 0 <= c < g.tot + 2 => Raw(g, disk, 0, c) % LOW28)
  }

  ghost predicate MirrorOk(g: Geometry, disk: Disk)
    requires GeoOk(g, disk)
  {
    g.numFats > 1 ==> forall c | 0 <= c < g.tot + 2 :: Raw(g, disk, 1, c) == Raw(g, disk, 0, c)
  }

  /** One copy of one entry replaced: no other entry of any copy and no byte outside the FAT changes. */
  lemma PutEntry(g: Geometry, disk: Disk, copy: nat, c: nat, v: nat)
    requires GeoOk(g, disk) && copy < g.numFats && c < g.tot + 2 && v < 0x1_0000_0000
    ensures EntryPos(g, copy, c) + 4 <= |disk| && g.rsvd * BPS <= FirstData(g) * BPS <= |disk|
    ensures var disk' := PutWord32(disk, EntryPos(g, copy, c), v);
            && GeoOk(g, disk')
            && (forall k, e | 0 <= k < g.numFats && 0 <= e < g.tot + 2 ::
                  Raw(g, disk', k, e) == if k == copy && e == c then v else Raw(g, disk, k, e))
            && disk'[FirstData(g) * BPS..] == disk[FirstData(g) * BPS..]
            && disk'[..g.rsvd * BPS] == disk[..g.rsvd * BPS]
  {
    hide EntryPos, PutWord32, Raw;
    EntryInFat(g, disk, copy, c);
    var p, disk' := EntryPos(g, copy, c), PutWord32(disk, EntryPos(g, copy, c), v);
    forall k, e | 0 <= k < g.numFats && 0 <= e < g.tot + 2
      ensures Raw(g, disk', k, e) == if k == copy && e == c then v else Raw(g, disk, k, e)
    {
      EntryKept(g, disk, copy, c, v, k, e);
    }
    OutsideKept(disk, p, v, g.rsvd * BPS, FirstData(g) * BPS);
  }

  lemma EntryKept(g: Geometry, disk: Disk, copy: nat, c: nat, v: nat, k: nat, e: nat)
    requires GeoOk(g, disk) && copy < g.numFats && c < g.tot + 2 && k < g.numFats && e < g.tot + 2 && v < 0x1_0000_0000
    requires EntryPos(g, copy, c) + 4 <= |disk|
    ensures Raw(g, PutWord32(disk, EntryPos(g, copy, c), v), k, e) == if k == copy && e == c then v
                                                                    else Raw(g, disk, k, e)
  {
    hide EntryPos, PutWord32, Word32;
    EntryInFat(g, disk, k, e);
    if k == copy && e == c {
      Put32Same(disk, EntryPos(g, copy, c), v);
    } else {
      EntriesApart(g, disk, copy, c, k, e);
      Put32Other(disk, EntryPos(g, copy, c), v, EntryPos(g, k, e));
    }
  }

  lemma OutsideKept(disk: Disk, p: nat, v: nat, lo: nat, hi: nat)
    requires p + 4 <= |disk| && v < 0x1_0000_0000 && lo <= p && p + 4 <= hi <= |disk|
    ensures PutWord32(disk, p, v)[hi..] == disk[hi..] && PutWord32(disk, p, v)[..lo] == disk[..lo]
  {}

  lemma EntriesApart(g: Geometry, disk: Disk, copy: nat, c: nat, k: nat, e: nat)
    requires GeoOk(g, disk) && copy < g.numFats && c < g.tot + 2 && k < g.numFats && e < g.tot + 2
    requires (k != copy || e != c)
    ensures EntryPos(g, copy, c) + 4 <= EntryPos(g, k, e) || EntryPos(g, k, e) + 4 <= EntryPos(g, copy, c)
  {
    if k < copy {
      EntryInFat(g, disk, k, e);
      Times(k, copy, g.fatSz);
    } else if copy < k {
      EntryInFat(g, disk, copy, c);
      Times(copy, k, g.fatSz);
    }
  }

  // ---- Data ----

  function ClusToSec(g: Geometry, c: nat): nat
    requires 2 <= c
  {
    (c - 2) * g.spc + FirstData(g)
  }

  /** Byte `i` of cluster c. */
  function BytePos(g: Geometry, c: nat, i: nat): nat
    requires 2 <= c
  {
    ClusToSec(g, c) * BPS + i
  }

  /** The code's route to byte `i` of a cluster. */
  lemma ByteSector(g: Geometry, c: nat, i: nat)
    requires 2 <= c
    ensures SectorPos(ClusToSec(g, c) + i / BPS, i % BPS) == BytePos(g, c, i)
  {
    SectorPosFlat(ClusToSec(g, c) + i / BPS, i % BPS);
  }

  lemma ByteInData(g: Geometry, disk: Disk, c: nat, i: nat)
    requires GeoOk(g, disk) && 2 <= c < g.tot + 2 && i < g.bpc
    ensures FirstData(g) * BPS <= BytePos(g, c, i) < |disk|
    ensures BytePos(g, c, i) - i + g.bpc <= |disk|
  {
    Times(c - 2, g.tot, g.spc);
  }

  lemma ClustersApart(g: Geometry, c: nat, i: nat, e: nat, j: nat)
    requires 2 <= c && 2 <= e && i < g.bpc && j < g.bpc && c != e && g.bpc == g.spc * BPS
    ensures BytePos(g, c, i) != BytePos(g, e, j)
  {
    if c < e {
      Times(c - 2, e - 2, g.spc);
    } else {
      Times(e - 2, c - 2, g.spc);
    }
  }

  function Store(d: Disk, p: nat, data: seq<Byte>): (r: Disk)
    requires p + |data| <= |d|
    ensures |r| == |d|
    ensures forall i | 0 <= i < |d| :: r[i] == if p <= i < p + |data| then data[i - p] else d[i]
  {
    d[..p] + data + d[p + |data|..]
  }

  /** A write into the data area leaves the FAT as it was. */
  lemma StoreKeepsFat(g: Geometry, disk: Disk, p: nat, data: seq<Byte>)
    requires GeoOk(g, disk) && FirstData(g) * BPS <= p && p + |data| <= |disk|
    ensures GeoOk(g, Store(disk, p, data))
    ensures forall k, e | 0 <= k < g.numFats && 0 <= e < g.tot + 2 ::
      Raw(g, Store(disk, p, data), k, e) == Raw(g, disk, k, e)
    ensures Table(g, Store(disk, p, data)) == Table(g, disk)
  {
    forall k, e | 0 <= k < g.numFats && 0 <= e < g.tot + 2
      ensures Raw(g, Store(disk, p, data), k, e) == Raw(g, disk, k, e)
    {
      EntryInFat(g, disk, k, e);
    }
  }
}
