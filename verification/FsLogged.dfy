/**
  What the loop of writei() (kernel/fs.c) hands to log_write(), and that a chunk of xv6fs_write()
  (kernel/xv6fs.c) fits the ten blocks its log operation reserves, on an image of any size.
*/
module FsLogged {
  import L = Log
  import opened Bytes
  import opened Sets
  import opened FsBlocks
  import opened FsFile
  import opened FsSpace

  const MAX_CHUNK: nat := (L.MAXOPBLOCKS - 1 - 1 - 2) / 2 * BSIZE

  /** The distinct blocks among the log_write() calls of an operation. */
  ghost function Logged(calls: seq<nat>): set<nat> {
    set b | b in calls
  }

  /** Whenever the operation calls log_write(), it has logged fewer blocks than it reserved. */
  ghost predicate Reserved(calls: seq<nat>) {
    forall k | 0 <= k < |calls| :: |Logged(calls[..k])| < L.MAXOPBLOCKS
  }

  /** One past the last file block that bytes [off, off+len) touch. */
  function BlocksEnd(off: nat, len: nat): nat {
    (off + len + BSIZE - 1) / BSIZE
  }

  /** The bitmap blocks that hold the bits of a set of blocks. */
  ghost function BitmapOf(bs: set<nat>, bmapStart: nat): set<nat> {
    set b | b in bs :: bmapStart + b / BPB
  }

  lemma {:induction false} BitmapOfSize(bs: set<nat>, bmapStart: nat)
    ensures |BitmapOf(bs, bmapStart)| <= |bs|
  {
    if bs != {} {
      var b :| b in bs;
      BitmapOfSize(bs - {b}, bmapStart);
      var rest := BitmapOf(bs - {b}, bmapStart) + {bmapStart + b / BPB};
      forall m | m in BitmapOf(bs, bmapStart) ensures m in rest {
        var x :| x in bs && m == bmapStart + x / BPB;
        assert x == b || x in bs - {b};
      }
      Smaller(BitmapOf(bs, bmapStart), rest);
    }
  }

  /**
    What a write of file blocks [lo, hi) of file n may log: the bitmap blocks of blocks it gained, n's
    own blocks in that range, its indirect block.
  */
  ghost predicate MayLog(b: nat, was: map<nat, Slot>, owner: map<nat, Slot>, n: nat, lo: nat, hi: nat,
                         bmapStart: nat) {
    || b in BitmapOf(Gained(was, owner), bmapStart)
    || (b in owner && (owner[b] == IndirectBlock(n) || OneOf(owner[b], n, lo, hi)))
  }

  /** Since `was` only such blocks were logged, and only blocks for that range were gained. */
  ghost predicate LogsOnly(logged: set<nat>, before: set<nat>, was: map<nat, Slot>, owner: map<nat, Slot>, n: nat,
                           lo: nat, hi: nat, bmapStart: nat) {
    && (forall b | b in logged :: b in before || MayLog(b, was, owner, n, lo, hi, bmapStart))
    && OwnsOnly(was, owner, n, lo, hi)
  }

  lemma LogsNone(logged: set<nat>, owner: map<nat, Slot>, n: nat, lo: nat, hi: nat, bmapStart: nat)
    ensures LogsOnly(logged, logged, owner, owner, n, lo, hi, bmapStart)
  {}

  /** A block of the range, or the indirect block, may be logged as well. */
  lemma LogsOwn(logged: set<nat>, before: set<nat>, was: map<nat, Slot>, owner: map<nat, Slot>, n: nat, bn: nat,
                bmapStart: nat, b: nat)
    requires LogsOnly(logged, before, was, owner, n, bn, bn + 1, bmapStart)
    requires b in owner && (owner[b] == FileSlot(n, bn) || owner[b] == IndirectBlock(n))
    ensures LogsOnly(logged + {b}, before, was, owner, n, bn, bn + 1, bmapStart)
  {
    hide OwnsOnly;
    assert OneOf(FileSlot(n, bn), n, bn, bn + 1);
  }

  /** Allocating block b for file block bn, or for the indirect block it needs. */
  lemma LogsAlloc(logged: set<nat>, was: map<nat, Slot>, n: nat, bn: nat, bmapStart: nat, b: nat, s: Slot)
    requires b !in was && (s == FileSlot(n, bn) || (s == IndirectBlock(n) && NDIRECT <= bn))
    ensures LogsOnly(logged + {bmapStart + b / BPB, b}, logged, was, was[b := s], n, bn, bn + 1, bmapStart)
  {
    assert OneOf(FileSlot(n, bn), n, bn, bn + 1);
    assert b in Gained(was, was[b := s]);
  }

  /** LogsOnly() survives further allocation for the same file and widens with its range. */
  lemma LogsMore(logged: set<nat>, logged': set<nat>, before: set<nat>, was: map<nat, Slot>, owner: map<nat, Slot>,
                 owner': map<nat, Slot>, n: nat, lo: nat, hi: nat, bn: nat, bmapStart: nat)
    requires LogsOnly(logged, before, was, owner, n, lo, hi, bmapStart)
    requires LogsOnly(logged', logged, owner, owner', n, bn, bn + 1, bmapStart)
    requires was.Keys <= owner.Keys && forall b | b in owner :: b in owner' && owner'[b] == owner[b]
    requires lo <= bn < hi
    ensures LogsOnly(logged', before, was, owner', n, lo, hi, bmapStart)
  {
    hide MayLog, OwnsOnly;
    OwnsBoth(was, owner, owner', n, lo, hi, bn);
    forall b | b in logged' ensures b in before || MayLog(b, was, owner', n, lo, hi, bmapStart) {
      if MayLog(b, was, owner, n, lo, hi, bmapStart) {
        MayLogLater(b, was, owner, owner', n, lo, hi, bmapStart);
      } else if MayLog(b, owner, owner', n, bn, bn + 1, bmapStart) {
        MayLogWider(b, was, owner, owner', n, lo, hi, bn, bmapStart);
      }
    }
  }

  lemma OwnsBoth(was: map<nat, Slot>, owner: map<nat, Slot>, owner': map<nat, Slot>, n: nat, lo: nat, hi: nat, bn: nat)
    requires OwnsOnly(was, owner, n, lo, hi) && OwnsOnly(owner, owner', n, bn, bn + 1) && lo <= bn < hi
    requires forall b | b in owner :: b in owner' && owner'[b] == owner[b]
    ensures OwnsOnly(was, owner', n, lo, hi)
  {
    hide InSpan;
    forall b | b in owner' && b !in was ensures InSpan(owner'[b], n, lo, hi) {
      if b !in owner { SpanWider(owner'[b], n, bn, bn + 1, lo, hi); }
    }
  }

  lemma MayLogLater(b: nat, was: map<nat, Slot>, owner: map<nat, Slot>, owner': map<nat, Slot>, n: nat, lo: nat,
                    hi: nat, bmapStart: nat)
    requires MayLog(b, was, owner, n, lo, hi, bmapStart)
    requires forall x | x in owner :: x in owner' && owner'[x] == owner[x]
    ensures MayLog(b, was, owner', n, lo, hi, bmapStart)
  {
    hide OneOf;
    if b in BitmapOf(Gained(was, owner), bmapStart) {
      var x :| x in Gained(was, owner) && b == bmapStart + x / BPB;
      assert x in Gained(was, owner');
    }
  }

  lemma MayLogWider(b: nat, was: map<nat, Slot>, owner: map<nat, Slot>, owner': map<nat, Slot>, n: nat, lo: nat,
                    hi: nat, bn: nat, bmapStart: nat)
    requires MayLog(b, owner, owner', n, bn, bn + 1, bmapStart) && was.Keys <= owner.Keys && lo <= bn < hi
    ensures MayLog(b, was, owner', n, lo, hi, bmapStart)
  {
    if b in BitmapOf(Gained(owner, owner'), bmapStart) {
      var x :| x in Gained(owner, owner') && b == bmapStart + x / BPB;
      assert x in Gained(was, owner');
    } else if OneOf(owner'[b], n, bn, bn + 1) {
      assert owner'[b] == FileSlot(n, bn);
      assert OneOf(owner'[b], n, lo, hi);
    }
  }

  // ---- Nothing is forgotten ----

  /** Every bitmap byte and every data block that changed was logged, but for the blocks in `spilled`. */
  ghost predicate LogsAll(logged: set<nat>, bitmap: seq<bv8>, blocks: Blocks, bitmap': seq<bv8>, blocks': Blocks,
                          spilled: set<nat>, bmapStart: nat) {
    && |bitmap'| == |bitmap|
    && (forall i | 0 <= i < |bitmap| && bitmap'[i] != bitmap[i] :: bmapStart + i / BSIZE in logged)
    && forall b | b in blocks && b in blocks' && blocks'[b] != blocks[b] :: b in logged || b in spilled
  }

  lemma AllMore(logged: set<nat>, logged': set<nat>, bitmap: seq<bv8>, blocks: Blocks, bitmap1: seq<bv8>,
                blocks1: Blocks, bitmap2: seq<bv8>, blocks2: Blocks, spilled: set<nat>, bmapStart: nat)
    requires LogsAll(logged, bitmap, blocks, bitmap1, blocks1, {}, bmapStart)
    requires LogsAll(logged', bitmap1, blocks1, bitmap2, blocks2, spilled, bmapStart)
    requires logged <= logged' && blocks.Keys <= blocks1.Keys
    ensures LogsAll(logged', bitmap, blocks, bitmap2, blocks2, spilled, bmapStart)
  {}

  /** The byte of block b's bit lies in the bitmap block that balloc() and bfree() log. */
  lemma ByteOfBit(b: nat)
    ensures b / 8 / BSIZE == b / BPB
  {}

  /** bfree() of one more block. */
  lemma AllFree(calls: seq<nat>, bitmap: seq<bv8>, blocks: Blocks, bitmap1: seq<bv8>, bmapStart: nat, b: nat)
    requires LogsAll(Logged(calls), bitmap, blocks, bitmap1, blocks, {}, bmapStart) && b / 8 < |bitmap1|
    ensures LogsAll(Logged(calls + [bmapStart + b / BPB]), bitmap, blocks, ClearBit(bitmap1, b), blocks, {}, bmapStart)
  {
    ByteOfBit(b);
  }

  /**
    What was logged between calls and calls' for file blocks [lo, hi) of file n: nothing but what this
    needs, and everything that changed.
  */
  ghost predicate LogsFor(calls: seq<nat>, calls': seq<nat>, bitmap: seq<bv8>, blocks: Blocks, owner: map<nat, Slot>,
                          bitmap': seq<bv8>, blocks': Blocks, owner': map<nat, Slot>, n: nat, lo: nat, hi: nat,
                          spilled: set<nat>, bmapStart: nat) {
    && calls <= calls' && owner.Keys <= owner'.Keys && blocks.Keys <= blocks'.Keys
    && LogsOnly(Logged(calls'), Logged(calls), owner, owner', n, lo, hi, bmapStart)
    && LogsAll(Logged(calls'), bitmap, blocks, bitmap', blocks', spilled, bmapStart)
  }

  lemma ForNone(calls: seq<nat>, bitmap: seq<bv8>, blocks: Blocks, owner: map<nat, Slot>, n: nat, lo: nat, hi: nat,
                bmapStart: nat)
    ensures LogsFor(calls, calls, bitmap, blocks, owner, bitmap, blocks, owner, n, lo, hi, {}, bmapStart)
  {
    LogsNone(Logged(calls), owner, n, lo, hi, bmapStart);
  }

  /** balloc() of block b for file block bn, or for the indirect block it needs. */
  lemma ForAlloc(calls: seq<nat>, bitmap: seq<bv8>, blocks: Blocks, owner: map<nat, Slot>, n: nat, bn: nat,
                 bmapStart: nat, b: nat, s: Slot)
    requires b !in owner && (s == FileSlot(n, bn) || (s == IndirectBlock(n) && NDIRECT <= bn)) && b / 8 < |bitmap|
    ensures LogsFor(calls, calls + [bmapStart + b / BPB, b], bitmap, blocks, owner, SetBit(bitmap, b),
                    blocks[b := Zeros()], owner[b := s], n, bn, bn + 1, {}, bmapStart)
  {
    hide LogsOnly;
    ByteOfBit(b);
    LogsAlloc(Logged(calls), owner, n, bn, bmapStart, b, s);
    assert Logged(calls + [bmapStart + b / BPB, b]) == Logged(calls) + {bmapStart + b / BPB, b};
  }

  /** A logged store into a block of the range, or into the indirect block. */
  lemma ForStore(calls: seq<nat>, calls1: seq<nat>, bitmap: seq<bv8>, blocks: Blocks, owner: map<nat, Slot>,
                 bitmap1: seq<bv8>, blocks1: Blocks, owner1: map<nat, Slot>, n: nat, bn: nat, bmapStart: nat, b: nat,
                 data: Block)
    requires LogsFor(calls, calls1, bitmap, blocks, owner, bitmap1, blocks1, owner1, n, bn, bn + 1, {}, bmapStart)
    requires b in owner1 && (owner1[b] == FileSlot(n, bn) || owner1[b] == IndirectBlock(n))
    ensures LogsFor(calls, calls1 + [b], bitmap, blocks, owner, bitmap1, blocks1[b := data], owner1, n, bn, bn + 1, {},
                    bmapStart)
  {
    hide LogsOnly;
    LogsOwn(Logged(calls1), Logged(calls), owner, owner1, n, bn, bmapStart, b);
    assert Logged(calls1 + [b]) == Logged(calls1) + {b};
  }

  /** A store that faulted half way and is not logged. */
  lemma ForSpill(calls: seq<nat>, calls1: seq<nat>, bitmap: seq<bv8>, blocks: Blocks, owner: map<nat, Slot>,
                 bitmap1: seq<bv8>, blocks1: Blocks, owner1: map<nat, Slot>, n: nat, bn: nat, bmapStart: nat, b: nat,
                 data: Block)
    requires LogsFor(calls, calls1, bitmap, blocks, owner, bitmap1, blocks1, owner1, n, bn, bn + 1, {}, bmapStart)
    ensures LogsFor(calls, calls1, bitmap, blocks, owner, bitmap1, blocks1[b := data], owner1, n, bn, bn + 1, {b},
                    bmapStart)
  {
    hide LogsOnly;
  }

  lemma ForOwns(calls: seq<nat>, calls1: seq<nat>, bitmap: seq<bv8>, blocks: Blocks, owner: map<nat, Slot>,
                bitmap1: seq<bv8>, blocks1: Blocks, owner1: map<nat, Slot>, n: nat, lo: nat, hi: nat,
                spilled: set<nat>, bmapStart: nat)
    requires LogsFor(calls, calls1, bitmap, blocks, owner, bitmap1, blocks1, owner1, n, lo, hi, spilled, bmapStart)
    ensures OwnsOnly(owner, owner1, n, lo, hi)
  {}

  lemma ForMore(calls: seq<nat>, calls1: seq<nat>, calls2: seq<nat>, bitmap: seq<bv8>, blocks: Blocks,
                owner: map<nat, Slot>, bitmap1: seq<bv8>, blocks1: Blocks, owner1: map<nat, Slot>, bitmap2: seq<bv8>,
                blocks2: Blocks, owner2: map<nat, Slot>, n: nat, lo: nat, hi: nat, bn: nat, spilled: set<nat>,
                bmapStart: nat)
    requires LogsFor(calls, calls1, bitmap, blocks, owner, bitmap1, blocks1, owner1, n, lo, hi, {}, bmapStart)
    requires LogsFor(calls1, calls2, bitmap1, blocks1, owner1, bitmap2, blocks2, owner2, n, bn, bn + 1, spilled,
                     bmapStart)
    requires lo <= bn < hi && forall b | b in owner1 :: b in owner2 && owner2[b] == owner1[b]
    ensures LogsFor(calls, calls2, bitmap, blocks, owner, bitmap2, blocks2, owner2, n, lo, hi, spilled, bmapStart)
  {
    hide LogsOnly, LogsAll;
    forall b | b in calls1 ensures b in calls2 {}
    LogsMore(Logged(calls1), Logged(calls2), Logged(calls), owner, owner1, owner2, n, lo, hi, bn, bmapStart);
    AllMore(Logged(calls1), Logged(calls2), bitmap, blocks, bitmap1, blocks1, bitmap2, blocks2, spilled, bmapStart);
  }

  const IPB: nat := 16 // inodes per block

  /** How many bitmap blocks the image has. */
  function BitmapBlocks(size: nat): nat {
    (size + BPB - 1) / BPB
  }

  /** A block of the file system: one of the bitmap, of the inodes or of the data. */
  ghost predicate InArea(b: nat, inodes: Inodes, first: nat, size: nat, inodeStart: nat, bmapStart: nat) {
    || first <= b < size || bmapStart <= b < bmapStart + BitmapBlocks(size)
    || exists m: nat :: m in inodes && b == m / IPB + inodeStart
  }

  /**
    What a log operation of the file system does to it: the invariants hold afterwards, and all that
    changed was logged, but for the contents of blocks in `spilled`, which hold no references.
  */
  ghost predicate Transacts(calls: seq<nat>, bitmap: seq<bv8>, blocks: Blocks, inodes: Inodes, bitmap': seq<bv8>,
                            blocks': Blocks, inodes': Inodes, owner': map<nat, Slot>, spilled: set<nat>, first: nat,
                            size: nat, inodeStart: nat, bmapStart: nat) {
    && FsOk(bitmap', blocks', inodes', owner', first, size) && SizesOk(inodes', blocks') && inodes'.Keys == inodes.Keys
    && LogsAll(Logged(calls), bitmap, blocks, bitmap', blocks', spilled, bmapStart)
    && (forall m | m in inodes && inodes'[m] != inodes[m] :: m / IPB + inodeStart in calls)
    && (forall b | b in spilled && b in owner' :: !owner'[b].IndirectBlock?)
    && (forall b | b in calls :: InArea(b, inodes, first, size, inodeStart, bmapStart))
  }

  lemma NoCalls(bitmap: seq<bv8>, blocks: Blocks, inodes: Inodes, owner: map<nat, Slot>, first: nat, size: nat,
                inodeStart: nat, bmapStart: nat)
    requires FsOk(bitmap, blocks, inodes, owner, first, size) && SizesOk(inodes, blocks)
    ensures Transacts([], bitmap, blocks, inodes, bitmap, blocks, inodes, owner, {}, first, size, inodeStart, bmapStart)
    ensures Reserved([]) && |Logged([])| == 0
  {
    hide SizesOk, OwnersOk, BitsOk;
    assert Logged([]) == {};
  }

  // ---- One chunk ----

  /** What a write logs lies in the file system. */
  lemma LogsInArea(bitmap: seq<bv8>, blocks: Blocks, inodes: Inodes, was: map<nat, Slot>, owner: map<nat, Slot>,
                   first: nat, size: nat, logged: set<nat>, n: nat, lo: nat, hi: nat, inodeStart: nat, bmapStart: nat)
    requires FsOk(bitmap, blocks, inodes, owner, first, size)
    requires LogsOnly(logged, {}, was, owner, n, lo, hi, bmapStart)
    ensures forall b | b in logged :: InArea(b, inodes, first, size, inodeStart, bmapStart)
  {
    hide OwnersOk, Bit, OwnsOnly, OneOf, BitmapOf, BitmapBlocks;
    InBitmap(bitmap, owner, first, size, Gained(was, owner), bmapStart);
  }

  /**
    A chunk of at most 3072 bytes touches at most four file blocks. If it touches four, it starts
    inside the first, which is then mapped already. So it gains at most four blocks, the indirect one
    included, and before the inode it logs at most nine: their bitmap blocks, four file blocks and the
    indirect block. With a bitmap of one block that is six.
  */
  lemma ChunkLogs(bitmap: seq<bv8>, blocks: Blocks, inodes: Inodes, owner: map<nat, Slot>, bitmap': seq<bv8>,
                  blocks': Blocks, inodes': Inodes, owner': map<nat, Slot>, first: nat, size: nat, logged: set<nat>,
                  n: nat, off: nat, len: nat, bmapStart: nat)
    requires Grew(bitmap, blocks, inodes, owner, bitmap', blocks', inodes', owner', first, size) && n in inodes
    requires SizesOk(inodes, blocks) && off <= inodes[n].size && off + len <= MAXBYTES && len <= MAX_CHUNK
    requires LogsOnly(logged, {}, owner, owner', n, off / BSIZE, BlocksEnd(off, len), bmapStart)
    ensures |logged| <= 5 + Min(4, BitmapBlocks(size))
  {
    hide OwnersOk, BitsOk, BitmapOf, MayLog, OwnsOnly, SizesOk, Five, OneOf, BlocksEnd, BitmapBlocks, Range;
    GrewKeys(bitmap, blocks, inodes, owner, bitmap', blocks', inodes', owner', first, size);
    var five, map' := Five(inodes', blocks', n, off / BSIZE), BitmapOf(Gained(owner, owner'), bmapStart);
    forall b | b in logged ensures b in five + map' {
      OneOfFive(bitmap', blocks', inodes', owner, owner', first, size, n, off, len, bmapStart, b);
    }
    Smaller(logged, five + map');
    BitmapOfSize(Gained(owner, owner'), bmapStart);
    ChunkGains(bitmap, blocks, inodes, owner, bitmap', blocks', inodes', owner', first, size, n, off, len);
    InBitmap(bitmap', owner', first, size, Gained(owner, owner'), bmapStart);
    Smaller(map', Range(bmapStart, BitmapBlocks(size)));
  }

  lemma InBitmap(bitmap: seq<bv8>, owner: map<nat, Slot>, first: nat, size: nat, bs: set<nat>, bmapStart: nat)
    requires BitsOk(bitmap, owner, first, size) && bs <= owner.Keys
    ensures BitmapOf(bs, bmapStart) <= Range(bmapStart, BitmapBlocks(size))
  {
    hide Bit;
    forall m | m in BitmapOf(bs, bmapStart) ensures m in Range(bmapStart, BitmapBlocks(size)) {
      var b :| b in bs && m == bmapStart + b / BPB;
      BitInBitmap(b, size);
    }
  }

  lemma BitInBitmap(b: nat, size: nat)
    requires b < size
    ensures b / BPB < BitmapBlocks(size)
  {}

  /**
    The log_write() calls of a chunk: those before the inode, then the inode's block. Each is made with
    allowance left.
  */
  lemma ChunkFits(calls: seq<nat>, inodeBlock: nat, size: nat)
    requires |Logged(calls)| <= 5 + Min(4, BitmapBlocks(size))
    ensures Reserved(calls + [inodeBlock])
    ensures |Logged(calls + [inodeBlock])| <= 6 + Min(4, BitmapBlocks(size))
  {
    hide BitmapBlocks;
    var all := calls + [inodeBlock];
    forall k | 0 <= k < |all| ensures |Logged(all[..k])| < L.MAXOPBLOCKS {
      Smaller(Logged(all[..k]), Logged(calls));
    }
    assert Logged(all) == Logged(calls) + {inodeBlock};
  }

  /** The slots a chunk can fill: the indirect block and three file blocks from bn on. */
  function Four(n: nat, bn: nat): (r: set<Slot>)
    ensures |r| <= 4
  {
    {IndirectBlock(n), FileSlot(n, bn), FileSlot(n, bn + 1), FileSlot(n, bn + 2)}
  }

  lemma ChunkGains(bitmap: seq<bv8>, blocks: Blocks, inodes: Inodes, owner: map<nat, Slot>, bitmap': seq<bv8>,
                   blocks': Blocks, inodes': Inodes, owner': map<nat, Slot>, first: nat, size: nat, n: nat, off: nat,
                   len: nat)
    requires Grew(bitmap, blocks, inodes, owner, bitmap', blocks', inodes', owner', first, size) && n in inodes
    requires SizesOk(inodes, blocks) && off <= inodes[n].size && off + len <= MAXBYTES && len <= MAX_CHUNK
    requires OwnsOnly(owner, owner', n, off / BSIZE, BlocksEnd(off, len))
    ensures |Gained(owner, owner')| <= 4
  {
    hide Bit, BitsOk, Ref, InSpan, SizesOk, Four, BlocksEnd;
    var got, bn := Image(owner', Gained(owner, owner')), off / BSIZE + if off % BSIZE == 0 then 0 else 1;
    forall s | s in got ensures s in Four(n, bn) {
      var b :| b in owner' && b !in owner && owner'[b] == s;
      assert InSpan(s, n, off / BSIZE, BlocksEnd(off, len));
      InFour(inodes, blocks, n, off, len, s);
      FilledGained(bitmap, blocks, inodes, owner, bitmap', blocks', inodes', owner', first, size, s);
    }
    Smaller(got, Four(n, bn));
    SlotsSize(inodes', blocks', owner', Gained(owner, owner'));
  }

  /** A slot of the span is one of the four, or that of the block the chunk starts inside. */
  lemma InFour(inodes: Inodes, blocks: Blocks, n: nat, off: nat, len: nat, s: Slot)
    requires InodesOk(inodes) && n in inodes && SizesOk(inodes, blocks) && off <= inodes[n].size
    requires len <= MAX_CHUNK && off + len <= MAXBYTES && InSpan(s, n, off / BSIZE, BlocksEnd(off, len))
    ensures SlotOk(inodes, s)
    ensures s in Four(n, off / BSIZE + if off % BSIZE == 0 then 0 else 1) || Ref(inodes, blocks, s) != 0
  {
    hide Ref, SizesOk;
    if s != IndirectBlock(n) {
      var bn: nat :| off / BSIZE <= bn < BlocksEnd(off, len) && s == FileSlot(n, bn);
      ChunkSpan(off, len, bn);
      if off % BSIZE != 0 && bn == off / BSIZE {
        MappedStart(inodes, blocks, n, off);
      }
    }
  }

  /** A block that a write starts inside exists. */
  lemma MappedStart(inodes: Inodes, blocks: Blocks, n: nat, off: nat)
    requires InodesOk(inodes) && n in inodes && SizesOk(inodes, blocks) && off <= inodes[n].size && off % BSIZE != 0
    requires off / BSIZE < MAXFILE
    ensures Ref(inodes, blocks, FileSlot(n, off / BSIZE)) != 0
  {
    hide Ref;
    assert MappedTo(inodes, blocks, n, inodes[n].size);
    assert off / BSIZE * BSIZE < off;
  }

  lemma ChunkSpan(off: nat, len: nat, bn: nat)
    requires len <= MAX_CHUNK && off + len <= MAXBYTES && off / BSIZE <= bn < BlocksEnd(off, len)
    ensures bn < MAXFILE && bn <= off / BSIZE + 3 && (off % BSIZE == 0 ==> bn <= off / BSIZE + 2)
    ensures off % BSIZE != 0 ==> off / BSIZE * BSIZE < off
  {}

  function DataRef(inodes: Inodes, blocks: Blocks, n: nat, bn: nat): nat
    requires InodesOk(inodes) && n in inodes
  {
    if bn < MAXFILE then Ref(inodes, blocks, FileSlot(n, bn)) else 0
  }

  /** The indirect block and four consecutive file blocks. */
  function Five(inodes: Inodes, blocks: Blocks, n: nat, lo: nat): (r: set<nat>)
    requires InodesOk(inodes) && n in inodes
    ensures |r| <= 5
  {
    {Ref(inodes, blocks, IndirectBlock(n)), DataRef(inodes, blocks, n, lo), DataRef(inodes, blocks, n, lo + 1),
     DataRef(inodes, blocks, n, lo + 2), DataRef(inodes, blocks, n, lo + 3)}
  }

  lemma OneOfFive(bitmap: seq<bv8>, blocks: Blocks, inodes: Inodes, was: map<nat, Slot>, owner: map<nat, Slot>,
                  first: nat, size: nat, n: nat, off: nat, len: nat, bmapStart: nat, b: nat)
    requires FsOk(bitmap, blocks, inodes, owner, first, size) && n in inodes && off + len <= MAXBYTES
    requires len <= MAX_CHUNK && MayLog(b, was, owner, n, off / BSIZE, BlocksEnd(off, len), bmapStart)
    ensures b in Five(inodes, blocks, n, off / BSIZE) || b in BitmapOf(Gained(was, owner), bmapStart)
  {
    hide BitsOk, OneOf, Five, BitmapOf;
    if b in owner && OneOf(owner[b], n, off / BSIZE, BlocksEnd(off, len)) {
      DataOfFive(bitmap, blocks, inodes, owner, first, size, n, off, len, b);
    } else if b !in BitmapOf(Gained(was, owner), bmapStart) {
      assert Ref(inodes, blocks, IndirectBlock(n)) == b;
      FirstOfFive(inodes, blocks, n, off / BSIZE);
    }
  }

  lemma DataOfFive(bitmap: seq<bv8>, blocks: Blocks, inodes: Inodes, owner: map<nat, Slot>, first: nat, size: nat,
                   n: nat, off: nat, len: nat, b: nat)
    requires FsOk(bitmap, blocks, inodes, owner, first, size) && n in inodes && off + len <= MAXBYTES
    requires len <= MAX_CHUNK
    requires b in owner && OneOf(owner[b], n, off / BSIZE, BlocksEnd(off, len))
    ensures b in Five(inodes, blocks, n, off / BSIZE)
  {
    hide BitsOk, Five;
    var bn: nat :| off / BSIZE <= bn < BlocksEnd(off, len) && owner[b] == FileSlot(n, bn);
    ChunkSpan(off, len, bn);
    assert DataRef(inodes, blocks, n, bn) == b;
    InFive(inodes, blocks, n, off / BSIZE, bn);
  }

  lemma InFive(inodes: Inodes, blocks: Blocks, n: nat, lo: nat, bn: nat)
    requires InodesOk(inodes) && n in inodes && lo <= bn <= lo + 3
    ensures DataRef(inodes, blocks, n, bn) in Five(inodes, blocks, n, lo)
  {
    hide DataRef;
    assert bn == lo || bn == lo + 1 || bn == lo + 2 || bn == lo + 3;
  }

  lemma FirstOfFive(inodes: Inodes, blocks: Blocks, n: nat, lo: nat)
    requires InodesOk(inodes) && n in inodes
    ensures Ref(inodes, blocks, IndirectBlock(n)) in Five(inodes, blocks, n, lo)
  {
    hide Ref, DataRef;
  }
}
