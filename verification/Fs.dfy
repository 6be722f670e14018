/**
  The block layer of the xv6 file system, kernel/fs.c: balloc(), bfree(), bmap(), itrunc(), readi()
  and writei() over a bitmap, inodes and blocks updated in place, and the chunked write loop of
  kernel/xv6fs.c that must fit each chunk in one log reservation.
*/
module Fs {
  import opened Bytes
  import opened FsBlocks
  import opened FsFile
  import opened FsLogged
  import opened FsSpace
  import opened Sets


  /**
    Why a write of len bytes whose source faults at byte `good` stopped after tot bytes: short of the
    fault it stopped at an unmapped block of a full disk; otherwise tot is the last block boundary
    before the fault, and the bytes from there to the fault have landed as well.
  */
  ghost predicate Outcome(inodes: Inodes, blocks: Blocks, full: bool, n: nat, off: nat, len: nat, good: nat, tot: nat,
                          landed: nat)
    requires InodesOk(inodes) && n in inodes && off + len <= MAXBYTES
  {
    && tot <= landed <= len && tot <= good && Boundary(off, len, tot)
    && (landed == tot < len && tot < good ==>
          full && (off + tot) / BSIZE < MAXFILE && Ref(inodes, blocks, FileSlot(n, (off + tot) / BSIZE)) == 0)
    && (landed != tot ==>
          && landed == good < len && (off + good) % BSIZE != 0
          && (off + tot) / BSIZE == (off + good) / BSIZE < MAXFILE
          && Ref(inodes, blocks, FileSlot(n, (off + good) / BSIZE)) != 0)
  }

  /** A count writei() can return: none, all, or up to the end of a block. */
  predicate Boundary(off: nat, len: nat, tot: nat) {
    tot == 0 || tot == len || (off + tot) % BSIZE == 0
  }

  /** Copying a round's m bytes leads from boundary to boundary. */
  lemma BoundaryNext(off: nat, len: nat, tot: nat, m: nat)
    requires tot < len && m == Min(len - tot, BSIZE - (off + tot) % BSIZE)
    ensures 0 < m && Boundary(off, len, tot + m)
  {
    if m < len - tot { BlockDone(off + tot, m); }
  }

  lemma OutcomeDone(inodes: Inodes, blocks: Blocks, full: bool, n: nat, off: nat, len: nat, good: nat)
    requires InodesOk(inodes) && n in inodes && off + len <= MAXBYTES && len <= good
    ensures Outcome(inodes, blocks, full, n, off, len, good, len, len)
  {}

  lemma OutcomeFull(inodes: Inodes, blocks: Blocks, full: bool, n: nat, off: nat, len: nat, good: nat, tot: nat)
    requires InodesOk(inodes) && n in inodes && off + len <= MAXBYTES && tot < len && tot <= good
    requires Boundary(off, len, tot)
    requires full && (off + tot) / BSIZE < MAXFILE && Ref(inodes, blocks, FileSlot(n, (off + tot) / BSIZE)) == 0
    ensures Outcome(inodes, blocks, full, n, off, len, good, tot, tot)
  {}

  lemma OutcomeFault(inodes: Inodes, blocks: Blocks, full: bool, n: nat, off: nat, len: nat, good: nat, tot: nat)
    requires InodesOk(inodes) && n in inodes && off + len <= MAXBYTES && tot < len && tot <= good
    requires Boundary(off, len, tot)
    requires good - tot < Min(len - tot, BSIZE - (off + tot) % BSIZE)
    requires (off + tot) / BSIZE < MAXFILE && Ref(inodes, blocks, FileSlot(n, (off + tot) / BSIZE)) != 0
    ensures Outcome(inodes, blocks, full, n, off, len, good, tot, good)
  {
    InsideBlock(off + tot, good - tot);
  }

  lemma OutcomeResized(inodes: Inodes, blocks: Blocks, full: bool, n: nat, off: nat, len: nat, good: nat, tot: nat,
                       landed: nat, bytes: nat)
    requires InodesOk(inodes) && n in inodes && off + len <= MAXBYTES
    requires Outcome(inodes, blocks, full, n, off, len, good, tot, landed)
    ensures Outcome(inodes[n := inodes[n].(size := bytes)], blocks, full, n, off, len, good, tot, landed)
  {}

  /** The block a faulting source left changed but unlogged, if any. */
  function Spilled(inodes: Inodes, blocks: Blocks, n: nat, off: nat, tot: nat, landed: nat): set<nat>
    requires InodesOk(inodes) && n in inodes
  {
    if landed == tot then {} else {DataRef(inodes, blocks, n, (off + tot) / BSIZE)}
  }

  lemma SpilledResized(inodes: Inodes, blocks: Blocks, n: nat, off: nat, tot: nat, landed: nat, bytes: nat)
    requires InodesOk(inodes) && n in inodes
    ensures Spilled(inodes[n := inodes[n].(size := bytes)], blocks, n, off, tot, landed)
         == Spilled(inodes, blocks, n, off, tot, landed)
  {}

  /** A chunk as writei() leaves it: every log_write() had allowance left, and nothing was forgotten. */
  lemma ChunkRecorded(calls: seq<nat>, bitmap: seq<bv8>, blocks: Blocks, inodes: Inodes, owner: map<nat, Slot>,
                      bitmap': seq<bv8>, blocks': Blocks, inodes': Inodes, owner': map<nat, Slot>, first: nat,
                      size: nat, n: nat, off: nat, len: nat, r: nat, landed: nat, inodeStart: nat, bmapStart: nat)
    requires Grew(bitmap, blocks, inodes, owner, bitmap', blocks', inodes', owner', first, size) && n in inodes
    requires SizesOk(inodes, blocks) && off <= inodes[n].size && off + len <= MAXBYTES && len <= MAX_CHUNK
    requires SizesOk(inodes', blocks') && (forall m | m in inodes && m != n :: inodes'[m] == inodes[m])
    requires calls != [] && calls[|calls| - 1] == n / IPB + inodeStart
    requires LogsFor([], calls[..|calls| - 1], bitmap, blocks, owner, bitmap', blocks', owner', n, off / BSIZE,
                     BlocksEnd(off, len), Spilled(inodes', blocks', n, off, r, landed), bmapStart)
    ensures Reserved(calls) && |Logged(calls)| <= 6 + Min(4, BitmapBlocks(size))
    ensures Transacts(calls, bitmap, blocks, inodes, bitmap', blocks', inodes', owner',
                      Spilled(inodes', blocks', n, off, r, landed), first, size, inodeStart, bmapStart)
  {
    hide BitsOk, Ref, SizesOk, LogsOnly, BlocksEnd, BitmapBlocks, Reserved;
    var most, last := calls[..|calls| - 1], calls[|calls| - 1];
    assert calls == most + [last] && Logged([]) == {};
    ChunkLogs(bitmap, blocks, inodes, owner, bitmap', blocks', inodes', owner', first, size, Logged(most), n, off, len,
              bmapStart);
    LogsInArea(bitmap', blocks', inodes', owner, owner', first, size, Logged(most), n, off / BSIZE,
               BlocksEnd(off, len), inodeStart, bmapStart);
    forall b | b in calls ensures InArea(b, inodes, first, size, inodeStart, bmapStart) {
      assert b == last || b in Logged(most);
    }
    ChunkFits(most, last, size);
  }

  ghost predicate AllUsed(bitmap: seq<bv8>, size: nat) {
    forall b | 0 <= b < size :: Bit(bitmap, b)
  }

  function AddrSlot(n: nat, i: nat): Slot {
    if i < NDIRECT then Direct(n, i) else IndirectBlock(n)
  }

  /** Where bmap() finds the block number. */
  lemma SlotRefs(inodes: Inodes, blocks: Blocks, n: nat, bn: nat)
    requires InodesOk(inodes) && n in inodes && bn < MAXFILE
    ensures bn < NDIRECT ==> Ref(inodes, blocks, FileSlot(n, bn)) == inodes[n].addrs[bn]
    ensures Ref(inodes, blocks, IndirectBlock(n)) == inodes[n].addrs[NDIRECT]
    ensures bn >= NDIRECT && Ref(inodes, blocks, FileSlot(n, bn)) != 0 ==> inodes[n].addrs[NDIRECT] != 0
  {}

  lemma SameRefl(inodes: Inodes, blocks: Blocks)
    requires InodesOk(inodes)
    ensures SameBytes(inodes, blocks, inodes, blocks)
  {}

  /** Bit bi of the bitmap block that starts at b. */
  lemma ScanBit(bitmap: seq<bv8>, b: nat, bi: nat)
    requires b % BPB == 0 && b + bi < 8 * |bitmap|
    ensures bi / 8 <= |bitmap| - 1 - b / 8 && bi % 8 < 8 && (b + bi) / 8 < |bitmap|
    ensures bitmap[b / 8 + bi / 8] & Mask(bi % 8) != 0 <==> Bit(bitmap, b + bi)
  {
    assert b / 8 + bi / 8 == (b + bi) / 8 && bi % 8 == (b + bi) % 8;
  }

  /** Truncation logs bitmap blocks, and all whose bits it cleared. */
  ghost predicate FreesOnly(calls: seq<nat>, calls': seq<nat>, bitmap: seq<bv8>, bitmap': seq<bv8>, blocks: Blocks,
                            size: nat, bmapStart: nat) {
    && calls <= calls' && LogsAll(Logged(calls'), bitmap, blocks, bitmap', blocks, {}, bmapStart)
    && forall k | |calls| <= k < |calls'| :: bmapStart <= calls'[k] < bmapStart + BitmapBlocks(size)
  }

  lemma FreesNone(calls: seq<nat>, bitmap: seq<bv8>, blocks: Blocks, size: nat, bmapStart: nat)
    ensures FreesOnly(calls, calls, bitmap, bitmap, blocks, size, bmapStart)
  {}

  lemma FreesNext(calls: seq<nat>, calls': seq<nat>, bitmap: seq<bv8>, bitmap': seq<bv8>, blocks: Blocks,
                  owner: map<nat, Slot>, first: nat, size: nat, bmapStart: nat, b: nat)
    requires FreesOnly(calls, calls', bitmap, bitmap', blocks, size, bmapStart)
    requires BitsOk(bitmap', owner, first, size) && b in owner
    ensures b / 8 < |bitmap'|
    ensures FreesOnly(calls, calls' + [bmapStart + b / BPB], bitmap, ClearBit(bitmap', b), blocks, size, bmapStart)
  {
    hide Bit, BitmapBlocks, LogsAll, ClearBit;
    AllFree(calls', bitmap, blocks, bitmap', bmapStart, b);
    BitInBitmap(b, size);
  }

  /** A truncation as itrunc() leaves it. */
  lemma TruncRecorded(calls: seq<nat>, bitmap: seq<bv8>, blocks: Blocks, inodes: Inodes, bitmap': seq<bv8>,
                      inodes': Inodes, owner': map<nat, Slot>, first: nat, size: nat, n: nat, inodeStart: nat,
                      bmapStart: nat)
    requires FsOk(bitmap', blocks, inodes', owner', first, size) && SizesOk(inodes', blocks) && n in inodes
    requires inodes' == inodes[n := Inode(0, seq(NDIRECT + 1, _ => 0))]
    requires calls != [] && calls[|calls| - 1] == n / IPB + inodeStart
    requires FreesOnly([], calls[..|calls| - 1], bitmap, bitmap', blocks, size, bmapStart)
    ensures Transacts(calls, bitmap, blocks, inodes, bitmap', blocks, inodes', owner', {}, first, size, inodeStart,
                      bmapStart)
  {
    hide OwnersOk, BitsOk, SizesOk, BitmapBlocks;
    var most := calls[..|calls| - 1];
    assert calls == most + [calls[|calls| - 1]];
    forall b | b in most ensures InArea(b, inodes, first, size, inodeStart, bmapStart) {
      var k :| 0 <= k < |most| && most[k] == b;
    }
  }

  lemma FreesTwice(calls: seq<nat>, calls1: seq<nat>, calls2: seq<nat>, bitmap: seq<bv8>, bitmap1: seq<bv8>,
                   bitmap2: seq<bv8>, blocks: Blocks, size: nat, bmapStart: nat)
    requires FreesOnly(calls, calls1, bitmap, bitmap1, blocks, size, bmapStart)
    requires FreesOnly(calls1, calls2, bitmap1, bitmap2, blocks, size, bmapStart)
    ensures FreesOnly(calls, calls2, bitmap, bitmap2, blocks, size, bmapStart)
  {
    hide BitmapBlocks, LogsAll;
    forall b | b in calls1 ensures b in calls2 {}
    AllMore(Logged(calls1), Logged(calls2), bitmap, blocks, bitmap1, blocks, bitmap2, blocks, {}, bmapStart);
  }

  lemma IndirectOwned(bitmap: seq<bv8>, blocks: Blocks, inodes: Inodes, owner: map<nat, Slot>, first: nat, size: nat,
                      n: nat)
    requires FsOk(bitmap, blocks, inodes, owner, first, size) && n in inodes && inodes[n].addrs[NDIRECT] != 0
    ensures var a := inodes[n].addrs[NDIRECT]; a in blocks && a in owner && owner[a] == IndirectBlock(n)
  {
    assert Ref(inodes, blocks, IndirectBlock(n)) == inodes[n].addrs[NDIRECT];
  }

  // ---- Truncation ----

  /** Whether itrunc() on file n has already freed the block of slot s. */
  predicate Gone(s: Slot, n: nat, direct: nat, entries: nat, indirect: bool) {
    s.inum == n && match s
                   case Direct(_, i) => i < direct
                   case Entry(_, j) => j < entries
                   case IndirectBlock(_) => indirect
  }

  /** The owners left of `before` when exactly the Gone() slots have given up their blocks. */
  ghost predicate Freed(before: map<nat, Slot>, now: map<nat, Slot>, n: nat, direct: nat, entries: nat,
                        indirect: bool) {
    && (forall b :: b in now <==> b in before && !Gone(before[b], n, direct, entries, indirect))
    && (forall b | b in now :: now[b] == before[b])
  }

  function Cleared(addrs: seq<Word>, i: nat): seq<Word>
    requires i <= |addrs|
  {
    seq(i, _ => 0) + addrs[i..]
  }

  lemma ClearedNext(addrs: seq<Word>, i: nat)
    requires i < |addrs|
    ensures Cleared(addrs, i)[i := 0] == Cleared(addrs, i + 1)
    ensures addrs[i] == 0 ==> Cleared(addrs, i) == Cleared(addrs, i + 1)
  {}

  lemma WithAddrIs(inodes: Inodes, n: nat, i: nat, b: Word)
    requires InodesOk(inodes) && n in inodes && i <= NDIRECT
    ensures WithAddr(inodes, n, i, b) == inodes[n := Inode(inodes[n].size, inodes[n].addrs[i := b])]
  {}

  lemma FreedNone(owner: map<nat, Slot>, n: nat)
    ensures Freed(owner, owner, n, 0, 0, false)
  {}

  /** One more slot of n given up: its block if it had one, otherwise nothing. */
  lemma FreedNext(bitmap: seq<bv8>, blocks: Blocks, inodes: Inodes, owner: map<nat, Slot>, first: nat, size: nat,
                  before: map<nat, Slot>, n: nat, direct: nat, entries: nat, indirect: bool, s: Slot)
    requires FsOk(bitmap, blocks, inodes, owner, first, size) && n in inodes
    requires Freed(before, owner, n, direct, entries, indirect)
    requires s.inum == n && SlotOk(inodes, s)
    requires match s
             case Direct(_, i) => i == direct
             case Entry(_, j) => j == entries
             case IndirectBlock(_) => !indirect
    ensures var b := Ref(inodes, blocks, s);
            Freed(before, if b != 0 then owner - {b} else owner, n,
                  if s.Direct? then direct + 1 else direct, if s.Entry? then entries + 1 else entries,
                  indirect || s.IndirectBlock?)
  {
    hide BitsOk;
    var b := Ref(inodes, blocks, s);
    forall c | c in before && before[c] == s ensures b != 0 && c == b {
      assert !Gone(s, n, direct, entries, indirect) && c in owner;
    }
  }

  lemma ClearWord(b: Block, j: nat)
    requires j < NINDIRECT
    ensures forall k | 0 <= k < NINDIRECT :: GetWord(PutWord(b, j, 0), k) == if k == j then 0 else GetWord(b, k)
  {
    forall k | 0 <= k < NINDIRECT ensures GetWord(PutWord(b, j, 0), k) == if k == j then 0 else GetWord(b, k) {
      PutGet(b, j, 0, k);
    }
  }

  /** Without an indirect block there is nothing more to free. */
  lemma NoEntries(bitmap: seq<bv8>, blocks: Blocks, inodes: Inodes, owner: map<nat, Slot>, first: nat, size: nat,
                  before: map<nat, Slot>, n: nat)
    requires FsOk(bitmap, blocks, inodes, owner, first, size) && n in inodes && inodes[n].addrs[NDIRECT] == 0
    requires Freed(before, owner, n, NDIRECT, 0, false)
    ensures Freed(before, owner, n, NDIRECT, NINDIRECT, true)
  {
    forall b | b in owner ensures !Gone(owner[b], n, NDIRECT, NINDIRECT, true) {
      assert Ref(inodes, blocks, owner[b]) == b;
    }
  }

  /** Freeing the indirect block: what its stale words say no longer matters. */
  lemma FreeIndirect(bitmap: seq<bv8>, blocks: Blocks, view: Blocks, inodes: Inodes, owner: map<nat, Slot>, first: nat,
                     size: nat, n: nat)
    requires FsOk(bitmap, view, inodes, owner, first, size) && n in inodes
    requires var a := inodes[n].addrs[NDIRECT];
             && a != 0 && a in view && a in blocks && blocks == view[a := blocks[a]]
             && (forall k | 0 <= k < NINDIRECT :: GetWord(view[a], k) == 0)
    ensures var a := inodes[n].addrs[NDIRECT];
            && a in owner && Bit(bitmap, a)
            && FsOk(ClearBit(bitmap, a), blocks, WithAddr(inodes, n, NDIRECT, 0), owner - {a}, first, size)
  {
    hide BitsOk, Bit;
    var a := inodes[n].addrs[NDIRECT];
    DetachAddr(bitmap, view, inodes, owner, first, size, n, NDIRECT);
    var inodes' := WithAddr(inodes, n, NDIRECT, 0);
    forall m | m in inodes' ensures inodes'[m].addrs[NDIRECT] != a {
      assert Ref(inodes, view, IndirectBlock(m)) == inodes[m].addrs[NDIRECT];
    }
    ContentsFree(ClearBit(bitmap, a), view, inodes', owner - {a}, first, size, a, blocks[a]);
  }

  /** Once every slot of n is gone, the bits that changed are exactly those of its blocks. */
  lemma AllFreed(bitmap: seq<bv8>, owner: map<nat, Slot>, bitmap0: seq<bv8>, owner0: map<nat, Slot>, first: nat,
                 size: nat, inodes: Inodes, inodes0: Inodes, blocks: Blocks, n: nat)
    requires FsOk(bitmap, blocks, inodes, owner, first, size) && FsOk(bitmap0, blocks, inodes0, owner0, first, size)
    requires Freed(owner0, owner, n, NDIRECT, NINDIRECT, true)
    ensures forall b :: b in owner <==> b in owner0 && owner0[b].inum != n
    ensures forall b | 0 <= b < size :: Bit(bitmap, b) <==> Bit(bitmap0, b) && !(b in owner0 && owner0[b].inum == n)
  {
    forall b | b in owner0 ensures Gone(owner0[b], n, NDIRECT, NINDIRECT, true) <==> owner0[b].inum == n {
      assert SlotOk(inodes0, owner0[b]);
    }
  }

  lemma OthersSame(inodes: Inodes, inodes': Inodes, blocks: Blocks, n: nat)
    requires InodesOk(inodes) && InodesOk(inodes') && n in inodes && n in inodes' && inodes' == inodes[n := inodes'[n]]
    ensures forall m, k: nat | m in inodes && m != n && k < MAXBYTES ::
              FileByte(inodes', blocks, m, k) == FileByte(inodes, blocks, m, k)
    ensures SizesOk(inodes, blocks) && inodes'[n].size == 0 ==> SizesOk(inodes', blocks)
  {}

  // ---- Reading and writing ----

  lemma InsideBlock(at: nat, take: nat)
    requires at % BSIZE + take < BSIZE
    ensures (at + take) % BSIZE == at % BSIZE + take
  {}

  lemma BlockDone(at: nat, m: nat)
    requires at % BSIZE + m == BSIZE
    ensures (at + m) % BSIZE == 0
  {}

  lemma InBlock(at: nat)
    ensures at / BSIZE * BSIZE <= at && (at < MAXBYTES ==> at / BSIZE < MAXFILE)
  {}

  lemma MappedBlock(bitmap: seq<bv8>, blocks: Blocks, inodes: Inodes, owner: map<nat, Slot>, first: nat, size: nat,
                    n: nat, at: nat)
    requires FsOk(bitmap, blocks, inodes, owner, first, size) && SizesOk(inodes, blocks) && n in inodes
    requires at < inodes[n].size
    ensures at / BSIZE < MAXFILE && Ref(inodes, blocks, FileSlot(n, at / BSIZE)) != 0
    ensures Ref(inodes, blocks, FileSlot(n, at / BSIZE)) in blocks
  {
    InBlock(at);
    assert SlotOk(inodes, FileSlot(n, at / BSIZE));
  }

  /** The block of a mapped file block holds that stretch of the file. */
  lemma MappedData(blocks: Blocks, inodes: Inodes, n: nat, at: nat, len: nat)
    requires InodesOk(inodes) && n in inodes && inodes[n].size <= MAXBYTES
    requires at + len <= inodes[n].size && at % BSIZE + len <= BSIZE && at < inodes[n].size
    requires Ref(inodes, blocks, FileSlot(n, at / BSIZE)) != 0 && Ref(inodes, blocks, FileSlot(n, at / BSIZE)) in blocks
    ensures var a := Ref(inodes, blocks, FileSlot(n, at / BSIZE));
            blocks[a][at % BSIZE..at % BSIZE + len] == Content(inodes, blocks, n)[at..at + len]
  {
    hide Ref;
    var a := Ref(inodes, blocks, FileSlot(n, at / BSIZE));
    var here, there := blocks[a][at % BSIZE..at % BSIZE + len], Content(inodes, blocks, n)[at..at + len];
    forall i | 0 <= i < len ensures here[i] == there[i] {
      assert (at + i) / BSIZE == at / BSIZE && (at + i) % BSIZE == at % BSIZE + i;
    }
  }

  lemma Appended(c: seq<Byte>, off: nat, at: nat, len: nat)
    requires off <= at && at + len <= |c|
    ensures c[off..at] + c[at..at + len] == c[off..at + len]
  {}

  /** The size field takes no part in which blocks are referenced. */
  lemma Resize(bitmap: seq<bv8>, blocks: Blocks, inodes: Inodes, owner: map<nat, Slot>, first: nat, size: nat, n: nat,
               bytes: nat)
    requires FsOk(bitmap, blocks, inodes, owner, first, size) && n in inodes
    ensures var inodes' := inodes[n := inodes[n].(size := bytes)];
            && FsOk(bitmap, blocks, inodes', owner, first, size)
            && (forall s | SlotOk(inodes, s) :: Ref(inodes', blocks, s) == Ref(inodes, blocks, s))
            && SameBytes(inodes, blocks, inodes', blocks)
  {
    hide BitsOk;
    var inodes' := inodes[n := inodes[n].(size := bytes)];
    forall s | SlotOk(inodes, s) ensures Ref(inodes', blocks, s) == Ref(inodes, blocks, s) {}
    forall m, k: nat | m in inodes && k < MAXBYTES
      ensures FileByte(inodes', blocks, m, k) == FileByte(inodes, blocks, m, k)
    {
      assert SlotOk(inodes, FileSlot(m, k / BSIZE));
    }
  }

  /** File n may have gained blocks; no block lost its owner and no other inode changed. */
  ghost predicate Grows(inodes: Inodes, owner: map<nat, Slot>, inodes': Inodes, owner': map<nat, Slot>, n: nat)
    requires InodesOk(inodes)
  {
    && InodesOk(inodes') && inodes'.Keys == inodes.Keys
    && (forall m | m in inodes && m != n :: inodes'[m] == inodes[m])
    && (forall b | b in owner :: b in owner' && owner'[b] == owner[b])
  }

  lemma GrowsFacts(inodes: Inodes, owner: map<nat, Slot>, inodes': Inodes, owner': map<nat, Slot>, n: nat)
    requires InodesOk(inodes) && Grows(inodes, owner, inodes', owner', n)
    ensures InodesOk(inodes') && inodes'.Keys == inodes.Keys
    ensures forall b | b in owner :: b in owner' && owner'[b] == owner[b]
  {}

  lemma GrowsTwice(inodes: Inodes, owner: map<nat, Slot>, inodes1: Inodes, owner1: map<nat, Slot>, inodes2: Inodes,
                   owner2: map<nat, Slot>, n: nat)
    requires InodesOk(inodes) && InodesOk(inodes1)
    requires Grows(inodes, owner, inodes1, owner1, n) && Grows(inodes1, owner1, inodes2, owner2, n)
    ensures Grows(inodes, owner, inodes2, owner2, n)
  {}

  /** A chunk at off+i continues a write that has reached i. */
  lemma ChunkNext(inodes: Inodes, blocks: Blocks, inodes1: Inodes, blocks1: Blocks, inodes2: Inodes, blocks2: Blocks,
                  n: nat, off: nat, src: seq<Byte>, i: nat, n1: nat, cnt: nat)
    requires InodesOk(inodes) && InodesOk(inodes1) && InodesOk(inodes2) && inodes1.Keys == inodes.Keys == inodes2.Keys
    requires cnt <= n1 && i + n1 <= |src| && Wrote(inodes, blocks, inodes1, blocks1, n, off, src, i)
    requires Wrote(inodes1, blocks1, inodes2, blocks2, n, off + i, src[i..i + n1], cnt)
    ensures Wrote(inodes, blocks, inodes2, blocks2, n, off, src, i + cnt)
  {
    assert Wrote(inodes1, blocks1, inodes2, blocks2, n, off + i, src[i..i + cnt], cnt);
    WroteNext(inodes, blocks, inodes1, blocks1, inodes2, blocks2, n, off, src, i, cnt);
  }

  lemma WroteNone(inodes: Inodes, blocks: Blocks, n: nat, off: nat, src: seq<Byte>)
    requires InodesOk(inodes)
    ensures Wrote(inodes, blocks, inodes, blocks, n, off, src, 0)
  {}

  /** What one more round logged and gained. */
  lemma LogsRound(calls: seq<nat>, calls1: seq<nat>, calls2: seq<nat>, bitmap: seq<bv8>, blocks: Blocks,
                  owner: map<nat, Slot>, bitmap1: seq<bv8>, blocks1: Blocks, owner1: map<nat, Slot>,
                  bitmap2: seq<bv8>, blocks2: Blocks, owner2: map<nat, Slot>, n: nat, off: nat, len: nat, tot: nat,
                  m: nat, spilled: set<nat>, bmapStart: nat)
    requires LogsFor(calls, calls1, bitmap, blocks, owner, bitmap1, blocks1, owner1, n, off / BSIZE,
                     BlocksEnd(off, len), {}, bmapStart)
    requires LogsFor(calls1, calls2, bitmap1, blocks1, owner1, bitmap2, blocks2, owner2, n, (off + tot) / BSIZE,
                     (off + tot) / BSIZE + 1, spilled, bmapStart)
    requires OwnsOnly(owner, owner1, n, off / BSIZE, (off + tot) / BSIZE + 1) && 0 < m <= len - tot
    requires forall b | b in owner1 :: b in owner2 && owner2[b] == owner1[b]
    ensures LogsFor(calls, calls2, bitmap, blocks, owner, bitmap2, blocks2, owner2, n, off / BSIZE,
                    BlocksEnd(off, len), spilled, bmapStart)
    ensures OwnsOnly(owner, owner2, n, off / BSIZE, (off + tot) / BSIZE + 1)
  {
    hide LogsFor, OwnsOnly;
    var bn := (off + tot) / BSIZE;
    Touched(off, tot, m, len);
    ForMore(calls, calls1, calls2, bitmap, blocks, owner, bitmap1, blocks1, owner1, bitmap2, blocks2, owner2, n,
            off / BSIZE, BlocksEnd(off, len), bn, spilled, bmapStart);
    ForOwns(calls1, calls2, bitmap1, blocks1, owner1, bitmap2, blocks2, owner2, n, bn, bn + 1, spilled, bmapStart);
    OwnsMore(owner, owner1, owner2, n, off / BSIZE, bn + 1, bn, bn + 1);
  }

  /** The round at off+tot stays in a block the range touches. */
  lemma Touched(off: nat, tot: nat, m: nat, len: nat)
    requires 0 < m <= len - tot
    ensures off / BSIZE <= (off + tot) / BSIZE < BlocksEnd(off, len)
  {}

  /** After a round that mapped the block of `at`, the file is mapped up to at+m. */
  lemma MapGrows(bitmap: seq<bv8>, inodes: Inodes, blocks: Blocks, owner: map<nat, Slot>, bitmap': seq<bv8>,
                 inodes': Inodes, blocks': Blocks, owner': map<nat, Slot>, first: nat, size: nat, n: nat, bytes: nat,
                 at: nat, m: nat)
    requires FsOk(bitmap, blocks, inodes, owner, first, size) && FsOk(bitmap', blocks', inodes', owner', first, size)
    requires Grows(inodes, owner, inodes', owner', n) && n in inodes
    requires at <= bytes <= MAXBYTES && at % BSIZE + m <= BSIZE && at + m <= MAXBYTES && 0 < m
    requires MappedTo(inodes, blocks, n, bytes)
    ensures MappedTo(inodes', blocks', n, bytes)
    ensures at / BSIZE < MAXFILE
    ensures Ref(inodes', blocks', FileSlot(n, at / BSIZE)) != 0 ==> MappedTo(inodes', blocks', n, Max(bytes, at + m))
  {
    hide BitsOk;
    InBlock(at);
    forall bn: nat | bn * BSIZE < bytes ensures Ref(inodes', blocks', FileSlot(n, bn)) != 0 {
      var s := FileSlot(n, bn);
      assert SlotOk(inodes, s);
      assert owner'[Ref(inodes, blocks, s)] == s;
    }
    forall bn: nat | bytes <= bn * BSIZE < at + m ensures bn == at / BSIZE {}
  }

  lemma Resized(inodes: Inodes, blocks: Blocks, n: nat, bytes: nat)
    requires InodesOk(inodes) && SizesOk(inodes, blocks) && n in inodes && bytes <= MAXBYTES
    requires MappedTo(inodes, blocks, n, bytes)
    ensures SizesOk(inodes[n := inodes[n].(size := bytes)], blocks)
  {
    var inodes' := inodes[n := inodes[n].(size := bytes)];
    forall m, bn: nat | m in inodes && bn * BSIZE < inodes'[m].size ensures Ref(inodes', blocks, FileSlot(m, bn)) != 0 {
      assert Ref(inodes, blocks, FileSlot(m, bn)) != 0;
    }
  }

  /** Where the loop of writei() is: blocks for off+tot bytes exist and src[..landed] is in the file. */
  ghost predicate Progress(inodes0: Inodes, blocks0: Blocks, owner0: map<nat, Slot>, inodes: Inodes, blocks: Blocks,
                           owner: map<nat, Slot>, n: nat, off: nat, src: seq<Byte>, tot: nat, landed: nat)
    requires InodesOk(inodes0) && InodesOk(inodes)
  {
    && Grows(inodes0, owner0, inodes, owner, n) && n in inodes && inodes[n].size == inodes0[n].size <= MAXBYTES
    && off + tot <= MAXBYTES && landed <= |src| && off <= inodes[n].size
    && MappedTo(inodes, blocks, n, Max(inodes[n].size, off + tot))
    && Wrote(inodes0, blocks0, inodes, blocks, n, off, src, landed)
  }

  lemma Started(inodes: Inodes, blocks: Blocks, owner: map<nat, Slot>, n: nat, off: nat, src: seq<Byte>)
    requires InodesOk(inodes) && SizesOk(inodes, blocks) && n in inodes && off <= inodes[n].size
    requires off + |src| <= MAXBYTES
    ensures Progress(inodes, blocks, owner, inodes, blocks, owner, n, off, src, 0, 0) && Boundary(off, |src|, 0)
  {
    hide MappedTo;
    WroteNone(inodes, blocks, n, off, src);
    assert Max(inodes[n].size, off) == inodes[n].size;
  }

  /** One round: nothing landed if the block could not be mapped, otherwise `take` more bytes. */
  lemma Round(bitmap1: seq<bv8>, inodes1: Inodes, blocks1: Blocks, owner1: map<nat, Slot>, bitmap: seq<bv8>,
              inodes: Inodes, blocks: Blocks, owner: map<nat, Slot>, first: nat, size: nat, inodes0: Inodes,
              blocks0: Blocks, owner0: map<nat, Slot>, n: nat, off: nat, src: seq<Byte>, tot: nat, m: nat, take: nat)
    requires FsOk(bitmap1, blocks1, inodes1, owner1, first, size) && FsOk(bitmap, blocks, inodes, owner, first, size)
    requires InodesOk(inodes0) && Progress(inodes0, blocks0, owner0, inodes1, blocks1, owner1, n, off, src, tot, tot)
    requires Grows(inodes1, owner1, inodes, owner, n) && n in inodes1 && inodes[n].size == inodes1[n].size
    requires take <= m && 0 < m <= |src| - tot && (off + tot) % BSIZE + m <= BSIZE && off + |src| <= MAXBYTES
    requires (off + tot) / BSIZE < MAXFILE
    requires var addr := Ref(inodes, blocks, FileSlot(n, (off + tot) / BSIZE));
             if addr == 0 then SameBytes(inodes1, blocks1, inodes, blocks)
             else Wrote(inodes1, blocks1, inodes, blocks, n, off + tot, src[tot..tot + take], take)
    ensures var addr := Ref(inodes, blocks, FileSlot(n, (off + tot) / BSIZE));
            Progress(inodes0, blocks0, owner0, inodes, blocks, owner, n, off, src, tot, if addr == 0 then tot
                                                                                        else tot + take)
            && (addr != 0 && take == m ==>
                  Progress(inodes0, blocks0, owner0, inodes, blocks, owner, n, off, src, tot + m, tot + m))
  {
    hide OwnersOk, BitsOk, Ref, FileByte, MappedTo, Wrote, SameBytes;
    GrowsTwice(inodes0, owner0, inodes1, owner1, inodes, owner, n);
    MapGrows(bitmap1, inodes1, blocks1, owner1, bitmap, inodes, blocks, owner, first, size, n,
             Max(inodes[n].size, off + tot), off + tot, m);
    if Ref(inodes, blocks, FileSlot(n, (off + tot) / BSIZE)) == 0 {
      WroteSame(inodes0, blocks0, inodes1, blocks1, inodes, blocks, n, off, src, tot);
    } else {
      WroteNext(inodes0, blocks0, inodes1, blocks1, inodes, blocks, n, off, src, tot, take);
    }
  }

  /** The last step of writei(): raising the size to the bytes written. */
  lemma SizeSet(bitmap: seq<bv8>, blocks: Blocks, inodes: Inodes, owner: map<nat, Slot>, first: nat, size: nat,
                inodes0: Inodes, blocks0: Blocks, owner0: map<nat, Slot>, n: nat, off: nat, src: seq<Byte>, good: nat,
                tot: nat, landed: nat)
    requires FsOk(bitmap, blocks, inodes, owner, first, size) && SizesOk(inodes, blocks) && n in inodes
    requires InodesOk(inodes0) && Progress(inodes0, blocks0, owner0, inodes, blocks, owner, n, off, src, tot, landed)
    requires off + |src| <= MAXBYTES && tot <= landed
    requires Outcome(inodes, blocks, AllUsed(bitmap, size), n, off, |src|, good, tot, landed)
    ensures var inodes' := if off + tot > inodes[n].size then inodes[n := inodes[n].(size := off + tot)] else inodes;
            && FsOk(bitmap, blocks, inodes', owner, first, size) && SizesOk(inodes', blocks)
            && Grows(inodes0, owner0, inodes', owner, n) && inodes'[n].size == Max(inodes0[n].size, off + tot)
            && Wrote(inodes0, blocks0, inodes', blocks, n, off, src, landed)
            && Outcome(inodes', blocks, AllUsed(bitmap, size), n, off, |src|, good, tot, landed)
            && (landed == tot ==>
                  Content(inodes', blocks, n) == Overwrite(Content(inodes0, blocks0, n), off, src[..tot]))
  {
    hide OwnersOk, BitsOk, Ref, FileByte, MappedTo, Wrote, SameBytes, Content, Overwrite, Outcome, AllUsed;
    var bytes := Max(inodes[n].size, off + tot);
    var inodes' := inodes[n := inodes[n].(size := bytes)];
    assert inodes' == if off + tot > inodes[n].size then inodes[n := inodes[n].(size := off + tot)] else inodes;
    Resize(bitmap, blocks, inodes, owner, first, size, n, bytes);
    Resized(inodes, blocks, n, bytes);
    WroteSame(inodes0, blocks0, inodes, blocks, inodes', blocks, n, off, src, landed);
    OutcomeResized(inodes, blocks, AllUsed(bitmap, size), n, off, |src|, good, tot, landed, bytes);
    if landed == tot {
      WroteContent(inodes0, blocks0, inodes', blocks, n, off, src, tot);
    }
  }

  /** What a write of len bytes at off needs to reach byte `upto` of them: room for the file blocks up to there. */
  ghost predicate Room(bitmap: seq<bv8>, blocks: Blocks, inodes: Inodes, size: nat, n: nat, off: nat, upto: nat)
    requires InodesOk(inodes) && n in inodes && off + upto < MAXBYTES
  {
    Demand(inodes, blocks, n, off / BSIZE, (off + upto) / BSIZE + 1) <= Free(bitmap, size)
  }

  /** The source faults strictly inside a block, and there is room up to that block. */
  ghost predicate Spills(bitmap: seq<bv8>, blocks: Blocks, inodes: Inodes, size: nat, n: nat, off: nat, len: nat,
                         good: nat)
    requires InodesOk(inodes) && n in inodes && off + len <= MAXBYTES
  {
    0 < good < len && (off + good) % BSIZE != 0 && Room(bitmap, blocks, inodes, size, n, off, good)
  }

  lemma MappedUpTo(inodes: Inodes, blocks: Blocks, n: nat, end: nat, bn: nat)
    requires InodesOk(inodes) && SizesOk(inodes, blocks) && n in inodes && end <= inodes[n].size && bn * BSIZE < end
    ensures bn < MAXFILE && Ref(inodes, blocks, FileSlot(n, bn)) != 0
  {
    hide Ref;
  }

  lemma BlockBefore(end: nat, bn: nat)
    requires bn < end / BSIZE
    ensures bn * BSIZE < end
  {}

  lemma BlockOfLast(end: nat, bn: nat)
    requires 0 < end && bn <= (end - 1) / BSIZE
    ensures bn * BSIZE < end
  {}

  lemma BlocksOrdered(a: nat, b: nat)
    requires a <= b < MAXBYTES
    ensures a / BSIZE <= b / BSIZE < MAXFILE
  {}

  /** The bytes past the count: exactly for a fault inside a block there was room for. */
  lemma SpillIff(bitmap: seq<bv8>, blocks: Blocks, inodes: Inodes, owner: map<nat, Slot>, bitmap': seq<bv8>,
                 blocks': Blocks, inodes': Inodes, owner': map<nat, Slot>, first: nat, size: nat, n: nat, off: nat,
                 len: nat, good: nat, r: nat, landed: nat)
    requires Grew(bitmap, blocks, inodes, owner, bitmap', blocks', inodes', owner', first, size)
    requires n in inodes && off + len <= MAXBYTES && SizesOk(inodes', blocks') && off + r <= inodes'[n].size
    requires Outcome(inodes', blocks', AllUsed(bitmap', size), n, off, len, good, r, landed)
    requires OwnsOnly(owner, owner', n, off / BSIZE, (off + r) / BSIZE + 1)
    ensures landed != r <==> Spills(bitmap, blocks, inodes, size, n, off, len, good)
  {
    hide Ref, SizesOk, FsOk, OwnsOnly, Free, Demand, AllUsed;
    GrewKeys(bitmap, blocks, inodes, owner, bitmap', blocks', inodes', owner', first, size);
    if landed != r {
      forall bn: nat | off / BSIZE <= bn < (off + good) / BSIZE + 1
        ensures bn < MAXFILE && Ref(inodes', blocks', FileSlot(n, bn)) != 0
      {
        if bn < (off + r) / BSIZE {
          BlockBefore(off + r, bn);
          MappedUpTo(inodes', blocks', n, off + r, bn);
        }
      }
      HadRoom(bitmap, blocks, inodes, owner, bitmap', blocks', inodes', owner', first, size, n, off / BSIZE,
              (off + good) / BSIZE + 1);
    } else if r < good < len {
      Stopped(bitmap, blocks, inodes, owner, bitmap', blocks', inodes', owner', first, size, n, off, len, good, r,
              good);
    }
  }

  lemma Stopped(bitmap: seq<bv8>, blocks: Blocks, inodes: Inodes, owner: map<nat, Slot>, bitmap': seq<bv8>,
                blocks': Blocks, inodes': Inodes, owner': map<nat, Slot>, first: nat, size: nat, n: nat, off: nat,
                len: nat, good: nat, r: nat, upto: nat)
    requires Grew(bitmap, blocks, inodes, owner, bitmap', blocks', inodes', owner', first, size)
    requires n in inodes && off + len <= MAXBYTES && r <= upto < len && r < good
    requires Outcome(inodes', blocks', AllUsed(bitmap', size), n, off, len, good, r, r)
    requires OwnsOnly(owner, owner', n, off / BSIZE, (off + r) / BSIZE + 1)
    ensures !Room(bitmap, blocks, inodes, size, n, off, upto)
  {
    hide Ref, FsOk, OwnsOnly, Free, Demand;
    BlocksOrdered(off, off + r);
    BlocksOrdered(off + r, off + upto);
    FullIs(bitmap', size);
    HadNoRoom(bitmap, blocks, inodes, owner, bitmap', blocks', inodes', owner', first, size,
              n, off / BSIZE, (off + r) / BSIZE, (off + upto) / BSIZE + 1);
  }

  /** Everything is written exactly when the source does not fault and there is room. */
  lemma AllIff(bitmap: seq<bv8>, blocks: Blocks, inodes: Inodes, owner: map<nat, Slot>, bitmap': seq<bv8>,
               blocks': Blocks, inodes': Inodes, owner': map<nat, Slot>, first: nat, size: nat, n: nat, off: nat,
               len: nat, good: nat, r: nat, landed: nat)
    requires Grew(bitmap, blocks, inodes, owner, bitmap', blocks', inodes', owner', first, size)
    requires n in inodes && off + len <= MAXBYTES && SizesOk(inodes', blocks') && off + r <= inodes'[n].size && 0 < len
    requires Outcome(inodes', blocks', AllUsed(bitmap', size), n, off, len, good, r, landed)
    requires OwnsOnly(owner, owner', n, off / BSIZE, (off + r) / BSIZE + 1)
    ensures r == len <==> len <= good && Room(bitmap, blocks, inodes, size, n, off, len - 1)
  {
    hide Ref, SizesOk, FsOk, OwnsOnly, Free, Demand, AllUsed;
    GrewKeys(bitmap, blocks, inodes, owner, bitmap', blocks', inodes', owner', first, size);
    if r == len {
      RoomUsed(bitmap, blocks, inodes, owner, bitmap', blocks', inodes', owner', first, size, n, off, len);
    } else if len <= good {
      Stopped(bitmap, blocks, inodes, owner, bitmap', blocks', inodes', owner', first, size, n, off, len, good, r,
              len - 1);
    }
  }

  /** A write of len bytes at off that xv6fs_write() carries out in full. */
  ghost predicate Accepted(bitmap: seq<bv8>, blocks: Blocks, inodes: Inodes, size: nat, n: nat, off: nat, len: nat,
                           good: nat)
    requires InodesOk(inodes) && n in inodes
  {
    && 0 < len <= good && off <= inodes[n].size && off + len <= MAXBYTES
    && Room(bitmap, blocks, inodes, size, n, off, len - 1)
  }

  /** Where the loop of xv6fs_write() is: i bytes counted, `landed` bytes in the file. */
  ghost predicate Chunks(inodes0: Inodes, blocks0: Blocks, owner0: map<nat, Slot>, inodes: Inodes, blocks: Blocks,
                         owner: map<nat, Slot>, n: nat, off: nat, src: seq<Byte>, i: nat, landed: nat)
    requires InodesOk(inodes0) && InodesOk(inodes) && n in inodes0
  {
    && Grows(inodes0, owner0, inodes, owner, n) && i <= landed <= |src|
    && Wrote(inodes0, blocks0, inodes, blocks, n, off, src, landed)
    && OwnsOnly(owner0, owner, n, off / BSIZE, (off + i) / BSIZE + 1)
    && if i == 0 then inodes[n].size == inodes0[n].size
       else off <= inodes0[n].size && inodes[n].size == Max(inodes0[n].size, off + i) && off + i <= MAXBYTES
  }

  lemma ChunksFit(inodes0: Inodes, blocks0: Blocks, owner0: map<nat, Slot>, inodes: Inodes, blocks: Blocks,
                  owner: map<nat, Slot>, n: nat, off: Word, src: seq<Byte>, i: nat)
    requires InodesOk(inodes0) && InodesOk(inodes) && n in inodes0
    requires Chunks(inodes0, blocks0, owner0, inodes, blocks, owner, n, off, src, i, i)
    ensures off + i < 0x1_0000_0000
  {
    hide Wrote, OwnsOnly, Grows;
  }

  lemma ChunksStart(inodes: Inodes, blocks: Blocks, owner: map<nat, Slot>, n: nat, off: nat, src: seq<Byte>)
    requires InodesOk(inodes) && n in inodes
    ensures Chunks(inodes, blocks, owner, inodes, blocks, owner, n, off, src, 0, 0)
  {
    WroteNone(inodes, blocks, n, off, src);
    OwnsNone(owner, n, off / BSIZE, off / BSIZE + 1);
  }

  lemma ChunksNext(inodes0: Inodes, blocks0: Blocks, owner0: map<nat, Slot>, inodes1: Inodes, blocks1: Blocks,
                   owner1: map<nat, Slot>, inodes: Inodes, blocks: Blocks, owner: map<nat, Slot>, n: nat, off: nat,
                   src: seq<Byte>, i: nat, n1: nat, r: int, part: nat)
    requires InodesOk(inodes0) && InodesOk(inodes1) && n in inodes0
    requires Chunks(inodes0, blocks0, owner0, inodes1, blocks1, owner1, n, off, src, i, i)
    requires Grows(inodes1, owner1, inodes, owner, n)
    requires part <= n1 && i + n1 <= |src| && Wrote(inodes1, blocks1, inodes, blocks, n, off + i, src[i..i + n1], part)
    requires if r == -1 then part == 0 && inodes == inodes1 && owner == owner1
             else && 0 <= r <= part && off + i <= inodes1[n].size && off + i + n1 <= MAXBYTES
                  && inodes[n].size == Max(inodes1[n].size, off + i + r)
                  && OwnsOnly(owner1, owner, n, (off + i) / BSIZE, (off + i + r) / BSIZE + 1)
    ensures Chunks(inodes0, blocks0, owner0, inodes, blocks, owner, n, off, src, if r > 0 then i + r else i, i + part)
  {
    hide Wrote, OwnsOnly;
    GrowsTwice(inodes0, owner0, inodes1, owner1, inodes, owner, n);
    ChunkNext(inodes0, blocks0, inodes1, blocks1, inodes, blocks, n, off, src, i, n1, part);
    if r >= 0 {
      OwnsMore(owner0, owner1, owner, n, off / BSIZE, (off + i) / BSIZE + 1, (off + i) / BSIZE,
               (off + i + r) / BSIZE + 1);
    }
  }

  /** A write of len bytes that ended at byte i of them, on a full disk, for want of a block. */
  lemma NoRoomLeft(bitmap: seq<bv8>, blocks: Blocks, inodes: Inodes, owner: map<nat, Slot>, bitmap': seq<bv8>,
                   blocks': Blocks, inodes': Inodes, owner': map<nat, Slot>, first: nat, size: nat, n: nat, off: nat,
                   len: nat, i: nat)
    requires Grew(bitmap, blocks, inodes, owner, bitmap', blocks', inodes', owner', first, size)
    requires n in inodes && off + len <= MAXBYTES && i < len && AllUsed(bitmap', size)
    requires (off + i) / BSIZE < MAXFILE && InodesOk(inodes') && n in inodes'
    requires Ref(inodes', blocks', FileSlot(n, (off + i) / BSIZE)) == 0
    requires OwnsOnly(owner, owner', n, off / BSIZE, (off + i) / BSIZE + 1)
    ensures !Room(bitmap, blocks, inodes, size, n, off, len - 1)
  {
    hide Ref, FsOk, OwnsOnly, Free, Demand;
    BlocksOrdered(off, off + i);
    BlocksOrdered(off + i, off + len - 1);
    FullIs(bitmap', size);
    HadNoRoom(bitmap, blocks, inodes, owner, bitmap', blocks', inodes', owner', first, size,
              n, off / BSIZE, (off + i) / BSIZE, (off + len - 1) / BSIZE + 1);
  }

  /** A chunk that was not written whole shows that the call could not succeed. */
  lemma Unaccepted(bitmap: seq<bv8>, blocks: Blocks, inodes: Inodes, owner: map<nat, Slot>, bitmap': seq<bv8>,
                   blocks': Blocks, inodes': Inodes, owner': map<nat, Slot>, first: nat, size: nat, n: nat, off: nat,
                   src: seq<Byte>, good: nat, inodes1: Inodes, blocks1: Blocks, owner1: map<nat, Slot>, i: nat, n1: nat,
                   r: int, next: nat, landed: nat)
    requires FsOk(bitmap, blocks, inodes, owner, first, size) && FsOk(bitmap', blocks', inodes', owner', first, size)
    requires n in inodes && InodesOk(inodes1) && n in inodes1
    requires i < |src| && n1 <= |src| - i && -1 <= r < n1 && next == (if r > 0 then i + r else i)
    requires Chunks(inodes, blocks, owner, inodes1, blocks1, owner1, n, off, src, i, i)
    requires Chunks(inodes, blocks, owner, inodes', blocks', owner', n, off, src, next, landed)
    requires r == -1 ==> off + i > inodes1[n].size || off + i + n1 > MAXBYTES
    requires r != -1 && |src| <= good ==>
               && AllUsed(bitmap', size) && (off + next) / BSIZE < MAXFILE && n in inodes'
               && Ref(inodes', blocks', FileSlot(n, (off + next) / BSIZE)) == 0
    ensures !Accepted(bitmap, blocks, inodes, size, n, off, |src|, good)
  {
    hide OwnersOk, BitsOk, Ref, AllUsed, OwnsOnly, Room, Wrote;
    if r != -1 && |src| <= good && off + |src| <= MAXBYTES {
      NoRoomLeft(bitmap, blocks, inodes, owner, bitmap', blocks', inodes', owner', first, size, n, off, |src|, next);
    }
  }

  lemma RoomUsed(bitmap: seq<bv8>, blocks: Blocks, inodes: Inodes, owner: map<nat, Slot>, bitmap': seq<bv8>,
                 blocks': Blocks, inodes': Inodes, owner': map<nat, Slot>, first: nat, size: nat, n: nat, off: nat,
                 len: nat)
    requires Grew(bitmap, blocks, inodes, owner, bitmap', blocks', inodes', owner', first, size)
    requires n in inodes && 0 < len && off + len <= MAXBYTES && SizesOk(inodes', blocks')
    requires off + len <= inodes'[n].size
    ensures Room(bitmap, blocks, inodes, size, n, off, len - 1)
  {
    hide Ref, SizesOk, FsOk, Free, Demand;
    GrewKeys(bitmap, blocks, inodes, owner, bitmap', blocks', inodes', owner', first, size);
    forall bn: nat | off / BSIZE <= bn < (off + len - 1) / BSIZE + 1
      ensures bn < MAXFILE && Ref(inodes', blocks', FileSlot(n, bn)) != 0
    {
      BlockOfLast(off + len, bn);
      MappedUpTo(inodes', blocks', n, off + len, bn);
    }
    BlocksOrdered(off, off + len - 1);
    HadRoom(bitmap, blocks, inodes, owner, bitmap', blocks', inodes', owner', first, size, n, off / BSIZE,
            (off + len - 1) / BSIZE + 1);
  }

  /** Inside the file there is always room. */
  lemma RoomInside(bitmap: seq<bv8>, blocks: Blocks, inodes: Inodes, size: nat, n: nat, off: nat, upto: nat)
    requires InodesOk(inodes) && SizesOk(inodes, blocks) && n in inodes && (off + upto) / BSIZE * BSIZE < inodes[n].size
    ensures off + upto < MAXBYTES && Room(bitmap, blocks, inodes, size, n, off, upto)
  {
    hide Ref, SizesOk, Free, Demand;
    var hi := (off + upto) / BSIZE;
    MappedUpTo(inodes, blocks, n, inodes[n].size, hi);
    forall bn: nat | off / BSIZE <= bn < hi + 1 ensures bn < MAXFILE && Ref(inodes, blocks, FileSlot(n, bn)) != 0 {
      MappedUpTo(inodes, blocks, n, inodes[n].size, bn);
    }
    NoneWanted(inodes, blocks, n, off / BSIZE, hi + 1);
  }

  lemma StillMapped(inodes: Inodes, blocks: Blocks, blocks': Blocks)
    requires InodesOk(inodes) && SizesOk(inodes, blocks)
    requires forall s | SlotOk(inodes, s) :: Ref(inodes, blocks', s) == Ref(inodes, blocks, s)
    ensures SizesOk(inodes, blocks')
  {
    forall n, bn: nat | n in inodes && bn * BSIZE < inodes[n].size ensures Ref(inodes, blocks', FileSlot(n, bn)) != 0 {
      assert SlotOk(inodes, FileSlot(n, bn));
    }
  }

  /** The state of the file system at some moment. */
  datatype Snap = Snap(bitmap: seq<bv8>, blocks: Blocks, inodes: Inodes, owner: map<nat, Slot>, calls: seq<nat>)

  class FileSystem {
    const size: nat      // superblock: blocks in the image
    const first: nat     // first data block
    const inodeStart: nat
    const bmapStart: nat
    var bitmap: seq<bv8>
    var blocks: Blocks
    var inodes: Inodes
    ghost var owner: map<nat, Slot>
    ghost var calls: seq<nat>       // blocks handed to log_write() in the current operation, in order
    ghost var trans: seq<seq<nat>>  // those of the operations that have ended

    ghost predicate Consistent()
      reads this
    {
      FsOk(bitmap, blocks, inodes, owner, first, size)
    }

    ghost predicate Valid()
      reads this
    {
      Consistent() && SizesOk(inodes, blocks)
    }

    ghost function Now(): Snap
      reads this
    {
      Snap(bitmap, blocks, inodes, owner, calls)
    }

    /** No data block is free. */
    ghost predicate Full()
      reads this
    {
      AllUsed(bitmap, size)
    }

    constructor (size: nat, first: nat, inodeStart: nat, bmapStart: nat, bitmap: seq<bv8>, blocks: Blocks,
                 inodes: Inodes, ghost owner: map<nat, Slot>)
      requires FsOk(bitmap, blocks, inodes, owner, first, size) && SizesOk(inodes, blocks)
      ensures Valid() && this.size == size && this.first == first
      ensures this.inodeStart == inodeStart && this.bmapStart == bmapStart
      ensures this.bitmap == bitmap && this.blocks == blocks && this.inodes == inodes && calls == [] && trans == []
    {
      this.size, this.first, this.inodeStart, this.bmapStart := size, first, inodeStart, bmapStart;
      this.bitmap, this.blocks, this.inodes, this.owner := bitmap, blocks, inodes, owner;
      calls, trans := [], [];
    }

    /** The inner scan of balloc(): the bits of the bitmap block that starts at block b. */
    method ScanBlock(b: nat) returns (bi: nat)
      requires b % BPB == 0 && b <= size <= 8 * |bitmap|
      ensures bi <= BPB && b + bi <= size && (bi < BPB && b + bi < size ==> !Bit(bitmap, b + bi))
      ensures forall c | b <= c < b + bi :: Bit(bitmap, c)
    {
      hide Bit, Mask;
      bi := 0;
      while bi < BPB && b + bi < size
        invariant 0 <= bi <= BPB && b + bi <= size
        invariant forall c | b <= c < b + bi :: Bit(bitmap, c)
      {
        ScanBit(bitmap, b, bi);
        if bitmap[b / 8 + bi / 8] & Mask(bi % 8) == 0 {
          return;
        }
        bi := bi + 1;
      }
    }

    /** The scan of balloc(): bitmap block by bitmap block, bit by bit, for the first clear bit. */
    method FindFree() returns (r: nat)
      requires Consistent()
      ensures r == size || (r < size && r / 8 < |bitmap| && !Bit(bitmap, r))
      ensures forall c | 0 <= c < r :: Bit(bitmap, c)
    {
      hide OwnersOk, Bit, Mask;
      var b := 0;
      while b < size
        invariant b % BPB == 0
        invariant forall c | 0 <= c < b && c < size :: Bit(bitmap, c)
      {
        var bi := ScanBlock(b);
        if bi < BPB && b + bi < size {
          return b + bi;
        }
        b := b + BPB;
      }
      r := size;
    }

    /** balloc(): the first free block, marked and zeroed; 0 exactly when none is free. */
    method Balloc() returns (r: nat)
      requires Consistent()
      modifies this`bitmap, this`blocks, this`calls
      ensures r == 0 <==> old(Full())
      ensures r == 0 ==> bitmap == old(bitmap) && blocks == old(blocks) && calls == old(calls)
      ensures r != 0 ==>
        && first <= r < size && r !in owner && r / 8 < |old(bitmap)|
        && (forall c | 0 <= c < r :: Bit(old(bitmap), c)) && !Bit(old(bitmap), r)
        && bitmap == SetBit(old(bitmap), r) && blocks == old(blocks)[r := Zeros()]
        && calls == old(calls) + [bmapStart + r / BPB, r]
    {
      hide OwnersOk, Bit, Mask;
      r := FindFree();
      if r == size {
        r := 0;
      } else {
        bitmap := bitmap[r / 8 := bitmap[r / 8] | Mask(r % 8)];
        blocks := blocks[r := Zeros()];
        calls := calls + [bmapStart + r / BPB, r];
      }
    }

    /** bfree(): clears one bit; the caller must not free a free block. */
    method Bfree(b: nat)
      requires b < size && Bit(bitmap, b)
      modifies this`bitmap, this`calls
      ensures bitmap == ClearBit(old(bitmap), b) && calls == old(calls) + [bmapStart + b / BPB]
    {
      var bi := b % BPB;
      var at := b / BPB * (BPB / 8) + bi / 8;
      assert at == b / 8 && bi % 8 == b % 8;
      var m := Mask(bi % 8);
      bitmap := bitmap[at := bitmap[at] & !m];
      calls := calls + [bmapStart + b / BPB];
    }

    /** The part of bmap() that fills an empty direct slot or the missing indirect block. */
    method AllocAddr(n: nat, i: nat) returns (addr: nat)
      requires Consistent() && n in inodes && i <= NDIRECT && inodes[n].addrs[i] == 0
      modifies this`bitmap, this`blocks, this`inodes, this`owner, this`calls
      ensures Consistent() && Extends(old(inodes), old(blocks), old(owner), inodes, blocks, owner, n)
      ensures addr == inodes[n].addrs[i] && (addr == 0 ==> Full() && inodes == old(inodes) && blocks == old(blocks))
      ensures owner == if addr == 0 then old(owner) else old(owner)[addr := AddrSlot(n, i)]
      ensures forall s | SlotOk(inodes, s) && s != AddrSlot(n, i) ::
        Ref(inodes, blocks, s) == old(Ref(inodes, blocks, s))
      ensures addr != 0 ==> addr !in old(owner)
      ensures if addr == 0 then bitmap == old(bitmap) && calls == old(calls)
              else && addr / 8 < |old(bitmap)| && bitmap == SetBit(old(bitmap), addr)
                   && blocks == old(blocks)[addr := Zeros()] && calls == old(calls) + [bmapStart + addr / BPB, addr]
    {
      hide OwnersOk, BitsOk, Ref, SameBytes;
      addr := Balloc();
      if addr == 0 {
        assert SameBytes(inodes, blocks, inodes, blocks) by { SameRefl(inodes, blocks); }
        return;
      }
      BmapAddr(old(bitmap), old(blocks), inodes, owner, first, size, n, i, addr);
      inodes := WithAddr(inodes, n, i, addr);
      owner := owner[addr := AddrSlot(n, i)];
    }

    /** The part of bmap() that fills an empty entry of the indirect block. */
    method AllocEntry(n: nat, j: nat) returns (addr: nat)
      requires Consistent() && n in inodes && j < NINDIRECT && inodes[n].addrs[NDIRECT] != 0
      requires Ref(inodes, blocks, Entry(n, j)) == 0
      modifies this`bitmap, this`blocks, this`owner, this`calls
      ensures Consistent() && Extends(inodes, old(blocks), old(owner), inodes, blocks, owner, n)
      ensures addr == Ref(inodes, blocks, Entry(n, j)) && (addr == 0 ==> Full())
      ensures owner == if addr == 0 then old(owner) else old(owner)[addr := Entry(n, j)]
      ensures forall s | SlotOk(inodes, s) && s != Entry(n, j) :: Ref(inodes, blocks, s) == old(Ref(inodes, blocks, s))
      ensures addr != 0 ==> addr !in old(owner)
      ensures inodes[n].addrs[NDIRECT] in owner && owner[inodes[n].addrs[NDIRECT]] == IndirectBlock(n)
      ensures if addr == 0 then bitmap == old(bitmap) && blocks == old(blocks) && calls == old(calls)
              else && addr / 8 < |old(bitmap)| && bitmap == SetBit(old(bitmap), addr)
                   && inodes[n].addrs[NDIRECT] in blocks
                   && blocks == old(blocks)[addr := Zeros()]
                                [inodes[n].addrs[NDIRECT] := blocks[inodes[n].addrs[NDIRECT]]]
                   && calls == old(calls) + [bmapStart + addr / BPB, addr] + [inodes[n].addrs[NDIRECT]]
    {
      hide OwnersOk, BitsOk, SameBytes;
      var a := inodes[n].addrs[NDIRECT];
      IndirectOwned(bitmap, blocks, inodes, owner, first, size, n);
      addr := Balloc();
      if addr == 0 {
        assert SameBytes(inodes, blocks, inodes, blocks) by { SameRefl(inodes, blocks); }
        return;
      }
      BmapEntry(old(bitmap), old(blocks), inodes, owner, first, size, n, j, addr);
      blocks := blocks[a := PutWord(blocks[a], j, addr)];
      owner := owner[addr := Entry(n, j)];
      calls := calls + [a];
    }

    /** The part of bmap() for an entry of the indirect block, which exists. */
    method MapEntry(n: nat, j: nat) returns (addr: nat)
      requires Consistent() && n in inodes && j < NINDIRECT && inodes[n].addrs[NDIRECT] != 0
      modifies this`bitmap, this`blocks, this`inodes, this`owner, this`calls
      ensures Consistent() && Extends(old(inodes), old(blocks), old(owner), inodes, blocks, owner, n)
      ensures addr == Ref(inodes, blocks, Entry(n, j)) && (addr == 0 ==> Full())
      ensures old(Ref(inodes, blocks, Entry(n, j))) != 0 ==>
        && bitmap == old(bitmap) && blocks == old(blocks) && inodes == old(inodes) && owner == old(owner)
        && calls == old(calls)
      ensures forall s | SlotOk(inodes, s) && s != Entry(n, j) :: Ref(inodes, blocks, s) == old(Ref(inodes, blocks, s))
      ensures LogsFor(old(calls), calls, old(bitmap), old(blocks), old(owner), bitmap, blocks, owner, n, NDIRECT + j,
                      NDIRECT + j + 1, {}, bmapStart)
    {
      hide OwnersOk, BitsOk, SameBytes, LogsFor;
      SameRefl(inodes, blocks);
      ForNone(calls, bitmap, blocks, owner, n, NDIRECT + j, NDIRECT + j + 1, bmapStart);
      IndirectOwned(bitmap, blocks, inodes, owner, first, size, n);
      var a := inodes[n].addrs[NDIRECT];
      addr := GetWord(blocks[a], j);
      if addr == 0 {
        addr := AllocEntry(n, j);
        if addr != 0 {
          ForAlloc(old(calls), old(bitmap), old(blocks), old(owner), n, NDIRECT + j, bmapStart, addr, Entry(n, j));
          ForStore(old(calls), old(calls) + [bmapStart + addr / BPB, addr], old(bitmap), old(blocks), old(owner),
                   bitmap, old(blocks)[addr := Zeros()], owner, n, NDIRECT + j, bmapStart, a, blocks[a]);
        }
      }
    }

    /**
      bmap(): the block of file block bn. An existing mapping is returned untouched; otherwise a
      zeroed block is attached, or 0 is returned when the disk is full. No byte of any file changes.
    */
    method Bmap(n: nat, bn: nat) returns (addr: nat)
      requires Consistent() && n in inodes && bn < MAXFILE
      modifies this`bitmap, this`blocks, this`inodes, this`owner, this`calls
      ensures Consistent() && Extends(old(inodes), old(blocks), old(owner), inodes, blocks, owner, n)
      ensures addr == Ref(inodes, blocks, FileSlot(n, bn)) && (addr == 0 ==> Full())
      ensures old(Ref(inodes, blocks, FileSlot(n, bn))) != 0 ==>
        && bitmap == old(bitmap) && blocks == old(blocks) && inodes == old(inodes) && owner == old(owner)
        && calls == old(calls)
      ensures forall s | SlotOk(inodes, s) && s != FileSlot(n, bn) && s != IndirectBlock(n) ::
        Ref(inodes, blocks, s) == old(Ref(inodes, blocks, s))
      ensures LogsFor(old(calls), calls, old(bitmap), old(blocks), old(owner), bitmap, blocks, owner, n, bn, bn + 1, {},
                      bmapStart)
    {
      hide OwnersOk, BitsOk, SameBytes, LogsFor, Ref, Zeros, SetBit;
      SameRefl(inodes, blocks);
      ForNone(calls, bitmap, blocks, owner, n, bn, bn + 1, bmapStart);
      SlotRefs(inodes, blocks, n, bn);
      if bn < NDIRECT {
        addr := inodes[n].addrs[bn];
        if addr == 0 {
          addr := AllocAddr(n, bn);
          if addr != 0 {
            ForAlloc(old(calls), old(bitmap), old(blocks), old(owner), n, bn, bmapStart, addr, FileSlot(n, bn));
          }
          SlotRefs(inodes, blocks, n, bn);
        }
        return;
      }
      addr := inodes[n].addrs[NDIRECT];
      if addr == 0 {
        addr := AllocAddr(n, NDIRECT);
        if addr == 0 {
          return;
        }
        ForAlloc(old(calls), old(bitmap), old(blocks), old(owner), n, bn, bmapStart, addr, IndirectBlock(n));
      }
      ghost var bitmap1, inodes1, blocks1, owner1, calls1 := bitmap, inodes, blocks, owner, calls;
      addr := MapEntry(n, bn - NDIRECT);
      ExtendsTwice(old(inodes), old(blocks), old(owner), inodes1, blocks1, owner1, inodes, blocks, owner, n);
      ForMore(old(calls), calls1, calls, old(bitmap), old(blocks), old(owner), bitmap1, blocks1, owner1, bitmap,
              blocks, owner, n, bn, bn + 1, bn, {}, bmapStart);
    }

    /** The first loop of itrunc(): every direct block is freed and its slot cleared. */
    method TruncDirect(n: nat)
      requires Consistent() && n in inodes
      modifies this`bitmap, this`inodes, this`owner, this`calls
      ensures Consistent() && Freed(old(owner), owner, n, NDIRECT, 0, false)
      ensures inodes == old(inodes)[n := Inode(old(inodes)[n].size, Cleared(old(inodes)[n].addrs, NDIRECT))]
      ensures FreesOnly(old(calls), calls, old(bitmap), bitmap, blocks, size, bmapStart)
    {
      hide OwnersOk, BitsOk, Freed, Bit, FreesOnly;
      FreesNone(calls, bitmap, blocks, size, bmapStart);
      var i := 0;
      FreedNone(owner, n);
      assert inodes[n].addrs == Cleared(inodes[n].addrs, 0);
      while i < NDIRECT
        invariant i <= NDIRECT && Consistent() && Freed(old(owner), owner, n, i, 0, false)
        invariant inodes == old(inodes)[n := Inode(old(inodes)[n].size, Cleared(old(inodes)[n].addrs, i))]
        invariant FreesOnly(old(calls), calls, old(bitmap), bitmap, blocks, size, bmapStart)
      {
        var b := inodes[n].addrs[i];
        FreedNext(bitmap, blocks, inodes, owner, first, size, old(owner), n, i, 0, false, Direct(n, i));
        if b != 0 {
          DetachAddr(bitmap, blocks, inodes, owner, first, size, n, i);
          InRange(bitmap, blocks, inodes, owner, first, size, b);
          FreesNext(old(calls), calls, old(bitmap), bitmap, blocks, owner, first, size, bmapStart, b);
          Bfree(b);
          WithAddrIs(inodes, n, i, 0);
          inodes := WithAddr(inodes, n, i, 0);
          owner := owner - {b};
        }
        ClearedNext(old(inodes)[n].addrs, i);
        i := i + 1;
      }
    }

    /** The second part of itrunc(): every block named by the indirect block is freed, then the indirect block. */
    method TruncIndirect(n: nat, ghost before: map<nat, Slot>)
      requires Consistent() && n in inodes && Freed(before, owner, n, NDIRECT, 0, false)
      modifies this`bitmap, this`inodes, this`owner, this`calls
      ensures Consistent()
      ensures Freed(before, owner, n, NDIRECT, NINDIRECT, true)
      ensures inodes == old(inodes)[n := Inode(old(inodes)[n].size, old(inodes)[n].addrs[NDIRECT := 0])]
      ensures FreesOnly(old(calls), calls, old(bitmap), bitmap, blocks, size, bmapStart)
    {
      hide OwnersOk, BitsOk, Freed, Bit, FreesOnly;
      FreesNone(calls, bitmap, blocks, size, bmapStart);
      var a := inodes[n].addrs[NDIRECT];
      if a == 0 {
        NoEntries(bitmap, blocks, inodes, owner, first, size, before, n);
        assert inodes[n].addrs == inodes[n].addrs[NDIRECT := 0];
        return;
      }
      IndirectOwned(bitmap, blocks, inodes, owner, first, size, n);
      ghost var view: Blocks := blocks; // as if each freed entry were cleared as well
      var j := 0;
      while j < NINDIRECT
        modifies this`bitmap, this`owner, this`calls
        invariant j <= NINDIRECT && a in view && blocks == view[a := blocks[a]]
        invariant FsOk(bitmap, view, inodes, owner, first, size) && Freed(before, owner, n, NDIRECT, j, false)
        invariant forall k | 0 <= k < NINDIRECT :: GetWord(view[a], k) == if k < j then 0 else GetWord(blocks[a], k)
        invariant FreesOnly(old(calls), calls, old(bitmap), bitmap, blocks, size, bmapStart)
      {
        var x := GetWord(blocks[a], j);
        FreedNext(bitmap, view, inodes, owner, first, size, before, n, NDIRECT, j, false, Entry(n, j));
        if x != 0 {
          DetachEntry(bitmap, view, inodes, owner, first, size, n, j);
          InRange(bitmap, view, inodes, owner, first, size, x);
          FreesNext(old(calls), calls, old(bitmap), bitmap, blocks, owner, first, size, bmapStart, x);
          Bfree(x);
          owner := owner - {x};
          ClearWord(view[a], j);
          view := view[a := PutWord(view[a], j, 0)];
        }
        j := j + 1;
      }
      FreedNext(bitmap, view, inodes, owner, first, size, before, n, NDIRECT, NINDIRECT, false, IndirectBlock(n));
      FreeIndirect(bitmap, blocks, view, inodes, owner, first, size, n);
      InRange(bitmap, view, inodes, owner, first, size, a);
      FreesNext(old(calls), calls, old(bitmap), bitmap, blocks, owner, first, size, bmapStart, a);
      Bfree(a);
      WithAddrIs(inodes, n, NDIRECT, 0);
      inodes := WithAddr(inodes, n, NDIRECT, 0);
      owner := owner - {a};
    }

    /** iupdate(): the inode's block joins the log. */
    method Iupdate(n: nat)
      modifies this`calls
      ensures calls == old(calls) + [InodeBlock(n)]
    {
      calls := calls + [InodeBlock(n)];
    }

    function InodeBlock(n: nat): nat {
      n / IPB + inodeStart
    }

    /** itrunc(): file n becomes empty and exactly its blocks become free. */
    method Itrunc(n: nat)
      requires Valid() && n in inodes
      modifies this`bitmap, this`inodes, this`owner, this`calls
      ensures Valid() && inodes == old(inodes)[n := Inode(0, seq(NDIRECT + 1, _ => 0))]
      ensures forall b :: b in owner <==> b in old(owner) && old(owner)[b].inum != n
      ensures forall b | 0 <= b < size ::
        Bit(bitmap, b) <==> Bit(old(bitmap), b) && !(b in old(owner) && old(owner)[b].inum == n)
      ensures forall m, k: nat | m in inodes && m != n && k < MAXBYTES ::
        FileByte(inodes, blocks, m, k) == FileByte(old(inodes), blocks, m, k)
      ensures calls != [] && calls[|calls| - 1] == InodeBlock(n)
      ensures FreesOnly(old(calls), calls[..|calls| - 1], old(bitmap), bitmap, blocks, size, bmapStart)
      ensures old(calls) == [] ==>
        Transacts(calls, old(bitmap), blocks, old(inodes), bitmap, blocks, inodes, owner, {}, first, size, inodeStart,
                  bmapStart)
    {
      hide OwnersOk, BitsOk, Freed, Bit, FileByte, FreesOnly;
      TruncDirect(n);
      ghost var bitmap1, calls1 := bitmap, calls;
      TruncIndirect(n, old(owner));
      FreesTwice(old(calls), calls1, calls, old(bitmap), bitmap1, bitmap, blocks, size, bmapStart);
      ghost var calls2 := calls;
      AllFreed(bitmap, owner, old(bitmap), old(owner), first, size, inodes, old(inodes), blocks, n);
      assert Cleared(old(inodes)[n].addrs, NDIRECT)[NDIRECT := 0] == seq(NDIRECT + 1, _ => 0);
      Resize(bitmap, blocks, inodes, owner, first, size, n, 0);
      inodes := inodes[n := inodes[n].(size := 0)];
      OthersSame(old(inodes), inodes, blocks, n);
      Iupdate(n);
      assert calls[..|calls| - 1] == calls2;
      if old(calls) == [] {
        TruncRecorded(calls, old(bitmap), blocks, old(inodes), bitmap, inodes, owner, first, size, n, inodeStart,
                      bmapStart);
      }
    }

    /** One round of readi(): the file's block is already there, so nothing changes. */
    method ReadBlock(n: nat, at: nat, len: nat) returns (data: seq<Byte>)
      requires Valid() && n in inodes && at < inodes[n].size && at + len <= inodes[n].size && at % BSIZE + len <= BSIZE
      modifies this`bitmap, this`blocks, this`inodes, this`owner, this`calls
      ensures bitmap == old(bitmap) && blocks == old(blocks) && inodes == old(inodes) && owner == old(owner)
      ensures calls == old(calls)
      ensures data == Content(inodes, blocks, n)[at..at + len]
    {
      hide OwnersOk, BitsOk, FileByte, Ref, MappedTo, Extends, Content;
      MappedBlock(bitmap, blocks, inodes, owner, first, size, n, at);
      var addr := Bmap(n, at / BSIZE);
      MappedData(blocks, inodes, n, at, len);
      data := blocks[addr][at % BSIZE..at % BSIZE + len];
    }

    /**
      readi(): the bytes of the file from off, clamped to its size, up to where the destination
      faults. It never allocates and changes nothing.
    */
    method Readi(n: nat, off: Word, len: Word, room: nat) returns (r: int, out: seq<Byte>)
      requires Valid() && n in inodes
      modifies this`bitmap, this`blocks, this`inodes, this`owner, this`calls
      ensures bitmap == old(bitmap) && blocks == old(blocks) && inodes == old(inodes) && owner == old(owner)
      ensures calls == old(calls)
      ensures off > inodes[n].size || off + len >= 0x1_0000_0000 ==> r == 0 && out == []
      ensures off <= inodes[n].size && off + len < 0x1_0000_0000 ==>
        var avail := Min(len, inodes[n].size - off);
        && r == (if avail <= room then avail else -1)
        && out == Content(inodes, blocks, n)[off..off + Min(avail, room)]
    {
      hide FileByte, Ref, MappedTo, OwnersOk, BitsOk, Content;
      out := [];
      if off > inodes[n].size || off + len >= 0x1_0000_0000 {
        return 0, [];
      }
      var want := Min(len, inodes[n].size - off);
      var tot := 0;
      while tot < want
        invariant 0 <= tot <= want && tot <= room
        invariant bitmap == old(bitmap) && blocks == old(blocks) && inodes == old(inodes) && owner == old(owner)
        invariant calls == old(calls)
        invariant out == Content(inodes, blocks, n)[off..off + tot]
      {
        var at := off + tot;
        var m := Min(want - tot, BSIZE - at % BSIZE);
        var take := Min(m, room - tot);
        var data := ReadBlock(n, at, take);
        out := out + data;
        Appended(Content(inodes, blocks, n), off, at, take);
        if take < m {
          return -1, out;
        }
        tot := tot + m;
      }
      r := tot;
    }

    /** One round of writei(): map the block, copy data in, and log it unless the copy faulted. */
    method WriteBlock(n: nat, at: nat, data: seq<Byte>, complete: bool) returns (addr: nat)
      requires Valid() && n in inodes && at < MAXBYTES && at % BSIZE + |data| <= BSIZE
      modifies this`bitmap, this`blocks, this`inodes, this`owner, this`calls
      ensures Valid() && Grows(old(inodes), old(owner), inodes, owner, n) && inodes[n].size == old(inodes[n].size)
      ensures at / BSIZE < MAXFILE && addr == Ref(inodes, blocks, FileSlot(n, at / BSIZE)) && (addr == 0 ==> Full())
      ensures old(Ref(inodes, blocks, FileSlot(n, at / BSIZE))) != 0 ==> addr != 0
      ensures addr == 0 ==> SameBytes(old(inodes), old(blocks), inodes, blocks)
      ensures addr != 0 ==> Wrote(old(inodes), old(blocks), inodes, blocks, n, at, data, |data|)
      ensures LogsFor(old(calls), calls, old(bitmap), old(blocks), old(owner), bitmap, blocks, owner, n, at / BSIZE,
                      at / BSIZE + 1, if complete || data == [] || addr == 0 then {} else {addr}, bmapStart)
    {
      hide OwnersOk, BitsOk, Bit, Ref, FileByte, MappedTo, LogsFor;
      InBlock(at);
      addr := Bmap(n, at / BSIZE);
      ExtendsRefs(old(bitmap), bitmap, old(inodes), old(blocks), old(owner), inodes, blocks, owner, first, size, n);
      if addr == 0 {
        return;
      }
      ghost var blocks1 := blocks;
      StoreBlock(bitmap, blocks, inodes, owner, first, size, n, at, data);
      blocks := blocks[addr := Store(blocks[addr], at % BSIZE, data)];
      StillMapped(inodes, blocks1, blocks);
      if complete {
        ForStore(old(calls), calls, old(bitmap), old(blocks), old(owner), bitmap, blocks1, owner, n, at / BSIZE,
                 bmapStart, addr, blocks[addr]);
        calls := calls + [addr];
      } else if data == [] {
        assert blocks[addr] == blocks1[addr];
        assert blocks == blocks1;
      } else {
        ForSpill(old(calls), calls, old(bitmap), old(blocks), old(owner), bitmap, blocks1, owner, n, at / BSIZE,
                 bmapStart, addr, blocks[addr]);
      }
    }

    /** Since `was`, a write of src to file n at off has counted tot bytes and changed landed. */
    ghost predicate Underway(was: Snap, n: nat, off: nat, src: seq<Byte>, good: nat, tot: nat, landed: nat)
      reads this
    {
      && Valid() && n in inodes && InodesOk(was.inodes) && tot <= landed <= |src| && tot <= good
      && Progress(was.inodes, was.blocks, was.owner, inodes, blocks, owner, n, off, src, tot, landed)
      && LogsFor(was.calls, calls, was.bitmap, was.blocks, was.owner, bitmap, blocks, owner, n, off / BSIZE,
                 BlocksEnd(off, |src|), Spilled(inodes, blocks, n, off, tot, landed), bmapStart)
      && OwnsOnly(was.owner, owner, n, off / BSIZE, (off + tot) / BSIZE + 1)
    }

    /** One round of the loop of writei(). */
    method NextBlock(n: nat, src: seq<Byte>, off: nat, good: nat, tot: nat, ghost was: Snap)
      returns (go: bool, next: nat, ghost landed: nat)
      requires off + |src| <= MAXBYTES && tot < |src| && Boundary(off, |src|, tot)
      requires Underway(was, n, off, src, good, tot, tot)
      modifies this`bitmap, this`blocks, this`inodes, this`owner, this`calls
      ensures Underway(was, n, off, src, good, next, landed) && tot <= next
      ensures if go then tot < next == landed && Boundary(off, |src|, next)
              else Outcome(inodes, blocks, Full(), n, off, |src|, good, next, landed)
    {
      hide OwnersOk, BitsOk, Ref, FileByte, MappedTo, LogsFor, Wrote, SameBytes, AllUsed, BlocksEnd, Progress, Outcome;
      hide Boundary, OwnsOnly, SizesOk, Grows;
      var at := off + tot;
      var m := Min(|src| - tot, BSIZE - at % BSIZE);
      BoundaryNext(off, |src|, tot, m);
      var take := Min(m, good - tot);
      ghost var bitmap1, inodes1, blocks1, owner1, calls1 := bitmap, inodes, blocks, owner, calls;
      var addr := WriteBlock(n, at, src[tot..tot + take], take == m);
      GrowsFacts(inodes1, owner1, inodes, owner, n);
      Round(bitmap1, inodes1, blocks1, owner1, bitmap, inodes, blocks, owner, first, size,
            was.inodes, was.blocks, was.owner, n, off, src, tot, m, take);
      LogsRound(was.calls, calls1, calls, was.bitmap, was.blocks, was.owner, bitmap1, blocks1, owner1, bitmap, blocks,
                owner, n, off, |src|, tot, m, if take == m || take == 0 || addr == 0 then {} else {addr}, bmapStart);
      if addr == 0 {
        OutcomeFull(inodes, blocks, Full(), n, off, |src|, good, tot);
        return false, tot, tot;
      }
      if take < m {
        OutcomeFault(inodes, blocks, Full(), n, off, |src|, good, tot);
        return false, tot, tot + take;
      }
      OwnsWider(was.owner, owner, n, off / BSIZE, at / BSIZE + 1, (at + m) / BSIZE + 1);
      return true, tot + m, tot + m;
    }

    /** The loop of writei(). */
    method WriteBlocks(n: nat, src: seq<Byte>, off: nat, good: nat) returns (tot: nat, ghost landed: nat)
      requires Valid() && n in inodes && off <= inodes[n].size && off + |src| <= MAXBYTES
      modifies this`bitmap, this`blocks, this`inodes, this`owner, this`calls
      ensures Underway(old(Now()), n, off, src, good, tot, landed)
      ensures Outcome(inodes, blocks, Full(), n, off, |src|, good, tot, landed)
    {
      hide OwnersOk, BitsOk, Ref, LogsFor, AllUsed, BlocksEnd, Progress, Outcome, Boundary, OwnsOnly, SizesOk;
      tot, landed := 0, 0;
      Started(inodes, blocks, owner, n, off, src);
      ForNone(calls, bitmap, blocks, owner, n, off / BSIZE, BlocksEnd(off, |src|), bmapStart);
      OwnsNone(owner, n, off / BSIZE, off / BSIZE + 1);
      var go := true;
      while go && tot < |src|
        invariant Underway(old(Now()), n, off, src, good, tot, landed)
        invariant if go then tot == landed && Boundary(off, |src|, tot)
                  else Outcome(inodes, blocks, Full(), n, off, |src|, good, tot, landed)
        decreases |src| - tot, go
      {
        go, tot, landed := NextBlock(n, src, off, good, tot, old(Now()));
      }
      if go {
        OutcomeDone(inodes, blocks, Full(), n, off, |src|, good);
      }
    }

    /**
      writei(): writes src at off until the source faults at byte `good`, or the disk is full. The
      bytes that changed are src[..landed] at off; the count returned is the blocks fully copied.
      They differ exactly when the fault is strictly inside a block there is room for, and everything
      is written exactly when there is no fault and room for all of it.
    */
    method Writei(n: nat, src: seq<Byte>, off: Word, good: nat) returns (r: int, ghost landed: nat)
      requires Valid() && n in inodes && |src| < 0x1_0000_0000
      modifies this`bitmap, this`blocks, this`inodes, this`owner, this`calls
      ensures Valid()
      ensures r == -1 <==> off > old(inodes[n].size) || off + |src| > MAXBYTES
      ensures r == -1 ==>
        && landed == 0 && bitmap == old(bitmap) && blocks == old(blocks) && inodes == old(inodes)
        && owner == old(owner) && calls == old(calls)
      ensures Grows(old(inodes), old(owner), inodes, owner, n)
      ensures r != -1 ==>
        && 0 <= r <= landed <= |src| && r <= good && Outcome(inodes, blocks, Full(), n, off, |src|, good, r, landed)
        && inodes[n].size == Max(old(inodes[n].size), off + r)
        && Wrote(old(inodes), old(blocks), inodes, blocks, n, off, src, landed)
        && calls != [] && calls[|calls| - 1] == InodeBlock(n)
        && LogsFor(old(calls), calls[..|calls| - 1], old(bitmap), old(blocks), old(owner), bitmap, blocks, owner, n,
                   off / BSIZE, BlocksEnd(off, |src|), Spilled(inodes, blocks, n, off, r, landed), bmapStart)
      ensures r != -1 && landed == r ==>
        Content(inodes, blocks, n) == Overwrite(old(Content(inodes, blocks, n)), off, src[..r])
      ensures r != -1 ==> (landed != r <==> old(Spills(bitmap, blocks, inodes, size, n, off, |src|, good)))
      ensures r != -1 && src != [] ==>
        (r == |src| <==> |src| <= good && old(Room(bitmap, blocks, inodes, size, n, off, |src| - 1)))
      ensures r != -1 ==> OwnsOnly(old(owner), owner, n, off / BSIZE, (off + r) / BSIZE + 1)
    {
      hide OwnersOk, BitsOk, Bit, Ref, FileByte, MappedTo, LogsFor, Wrote, SameBytes, Content, Overwrite, Outcome;
      hide BlocksEnd, AllUsed, Progress;
      hide OwnsOnly, Room, Spills, Free, Demand;
      landed := 0;
      if off > inodes[n].size || off + |src| >= 0x1_0000_0000 || off + |src| > MAXBYTES {
        return -1, 0;
      }
      var tot: nat;
      tot, landed := WriteBlocks(n, src, off, good);
      SizeSet(bitmap, blocks, inodes, owner, first, size, old(inodes), old(blocks), old(owner), n, off, src, good,
              tot, landed);
      if off + tot > inodes[n].size {
        SpilledResized(inodes, blocks, n, off, tot, landed, off + tot);
        inodes := inodes[n := inodes[n].(size := off + tot)];
      }
      ghost var calls1 := calls;
      Iupdate(n);
      assert calls[..|calls| - 1] == calls1;
      r := tot;
      SpillIff(old(bitmap), old(blocks), old(inodes), old(owner), bitmap, blocks, inodes, owner, first, size,
               n, off, |src|, good, tot, landed);
      if src != [] {
        AllIff(old(bitmap), old(blocks), old(inodes), old(owner), bitmap, blocks, inodes, owner, first, size,
               n, off, |src|, good, tot, landed);
      }
    }

    /**
      One round of xv6fs_write(): a chunk in a log operation of its own. Every log_write() is made with
      allowance left, whatever the size of the image, and all that changes is logged, but for what
      spilled.
    */
    method WriteChunk(n: nat, src: seq<Byte>, off: Word, good: nat) returns (r: int, ghost landed: nat)
      requires Valid() && n in inodes && |src| <= MAX_CHUNK
      modifies this`bitmap, this`blocks, this`inodes, this`owner, this`calls, this`trans
      ensures Valid() && Grows(old(inodes), old(owner), inodes, owner, n)
      ensures trans == old(trans) + [calls] && Reserved(calls) && |Logged(calls)| <= 6 + Min(4, BitmapBlocks(size))
      ensures Transacts(calls, old(bitmap), old(blocks), old(inodes), bitmap, blocks, inodes, owner,
                        Spilled(inodes, blocks, n, off, if r < 0 then 0 else r, landed), first, size, inodeStart,
                        bmapStart)
      ensures r == -1 <==> off > old(inodes[n].size) || off + |src| > MAXBYTES
      ensures landed <= |src| && Wrote(old(inodes), old(blocks), inodes, blocks, n, off, src, landed)
      ensures r != -1 ==> 0 <= r <= landed && r <= good && inodes[n].size == Max(old(inodes[n].size), off + r)
      ensures r == -1 ==> landed == 0 && inodes == old(inodes) && owner == old(owner)
      ensures r == landed || (r != -1 && landed == good < |src|) || r == -1
      ensures r != -1 ==> OwnsOnly(old(owner), owner, n, off / BSIZE, (off + r) / BSIZE + 1)
      ensures r != -1 && r == landed < |src| && r < good ==>
        Full() && (off + r) / BSIZE < MAXFILE && Ref(inodes, blocks, FileSlot(n, (off + r) / BSIZE)) == 0
    {
      hide OwnersOk, BitsOk, Ref, FileByte, MappedTo, LogsFor, Wrote, SameBytes, AllUsed, OwnsOnly, Spills, Room;
      hide BitmapBlocks, Transacts, Reserved, SizesOk, Logged;
      calls := [];
      WroteNone(inodes, blocks, n, off, src);
      r, landed := Writei(n, src, off, good);
      if r == -1 {
        NoCalls(bitmap, blocks, inodes, owner, first, size, inodeStart, bmapStart);
      } else {
        ChunkRecorded(calls, old(bitmap), old(blocks), old(inodes), old(owner), bitmap, blocks, inodes, owner, first,
                      size, n, off, |src|, r, landed, inodeStart, bmapStart);
      }
      trans := trans + [calls];
    }

    /** One round of the loop of xv6fs_write(); a chunk that is not wholly written shows why. */
    method NextChunk(n: nat, src: seq<Byte>, off: Word, good: nat, i: nat, ghost bitmap0: seq<bv8>,
                     ghost blocks0: Blocks, ghost inodes0: Inodes, ghost owner0: map<nat, Slot>) returns (go: bool,
                     next: nat, ghost landed: nat)
      requires Valid() && n in inodes && i < |src| < 0x8000_0000 && i <= good
      requires FsOk(bitmap0, blocks0, inodes0, owner0, first, size) && n in inodes0
      requires Chunks(inodes0, blocks0, owner0, inodes, blocks, owner, n, off, src, i, i)
      modifies this`bitmap, this`blocks, this`inodes, this`owner, this`calls, this`trans
      ensures trans == old(trans) + [calls] && Reserved(calls)
      ensures Valid() && i <= next <= landed <= |src|
      ensures Chunks(inodes0, blocks0, owner0, inodes, blocks, owner, n, off, src, next, landed)
      ensures if go then i < next == landed <= good
              else next < |src| && !Accepted(bitmap0, blocks0, inodes0, size, n, off, |src|, good)
    {
      hide OwnersOk, BitsOk, Bit, Ref, FileByte, MappedTo, MayLog, Wrote, SameBytes, AllUsed, OwnsOnly, Room, Demand;
      hide Free, Reserved, Transacts, BitmapBlocks, Logged, SizesOk, Accepted, Chunks, Spilled;
      var n1 := Min(|src| - i, MAX_CHUNK);
      ChunksFit(inodes0, blocks0, owner0, inodes, blocks, owner, n, off, src, i);
      ghost var inodes1, blocks1, owner1 := inodes, blocks, owner;
      var r;
      ghost var part;
      r, part := WriteChunk(n, src[i..i + n1], off + i, good - i);
      ChunksNext(inodes0, blocks0, owner0, inodes1, blocks1, owner1, inodes, blocks, owner, n, off, src, i, n1, r,
                 part);
      go, next, landed := r == n1, if r > 0 then i + r else i, i + part;
      if !go {
        Unaccepted(bitmap0, blocks0, inodes0, owner0, bitmap, blocks, inodes, owner, first, size, n, off, src, good,
                   inodes1, blocks1, owner1, i, n1, r, next, landed);
      }
    }

    /**
      xv6fs_write(): all of src is written at off, or -1 is returned and only a prefix of it was; the
      former exactly if the offset is in the file, the end within the largest file, the source does not
      fault and there is room.
    */
    method Xv6fsWrite(n: nat, src: seq<Byte>, count: int, off: Word, good: nat) returns (r: int, ghost landed: nat)
      requires Valid() && n in inodes && count < 0x8000_0000 && |src| == if count < 0 then 0 else count
      modifies this`bitmap, this`blocks, this`inodes, this`owner, this`calls, this`trans
      ensures Valid() && Grows(old(inodes), old(owner), inodes, owner, n)
      ensures landed <= |src| && Wrote(old(inodes), old(blocks), inodes, blocks, n, off, src, landed)
      ensures r == -1 || r == count >= 0
      ensures 0 <= r && |src| > 0 ==>
        && off <= old(inodes[n].size)
        && Content(inodes, blocks, n) == Overwrite(old(Content(inodes, blocks, n)), off, src)
      ensures r != -1 <==> count == 0 || (count > 0 && old(Accepted(bitmap, blocks, inodes, size, n, off, |src|, good)))
      ensures old(trans) <= trans && forall k | |old(trans)| <= k < |trans| :: Reserved(trans[k])
    {
      hide OwnersOk, BitsOk, Bit, Ref, FileByte, MappedTo, MayLog, Wrote, SameBytes, Content, Overwrite, AllUsed;
      hide OwnsOnly, Room, Demand, Free, Reserved;
      var i, go := 0, true;
      landed := 0;
      ChunksStart(inodes, blocks, owner, n, off, src);
      while i < count && go
        invariant i <= landed <= |src| && Valid()
        invariant Chunks(old(inodes), old(blocks), old(owner), inodes, blocks, owner, n, off, src, i, landed)
        invariant if go then i == landed <= good
                  else i < |src| && !old(Accepted(bitmap, blocks, inodes, size, n, off, |src|, good))
        invariant old(trans) <= trans && forall k | |old(trans)| <= k < |trans| :: Reserved(trans[k])
        decreases |src| - i, go
      {
        go, i, landed := NextChunk(n, src, off, good, i, old(bitmap), old(blocks), old(inodes), old(owner));
      }
      if i == |src| && i > 0 {
        assert src[..i] == src;
        WroteContent(old(inodes), old(blocks), inodes, blocks, n, off, src, i);
        RoomUsed(old(bitmap), old(blocks), old(inodes), old(owner), bitmap, blocks, inodes, owner, first, size, n,
                 off, |src|);
      }
      r := if i == count then count else -1;
    }
  }

  /**
    The count writei() returns is not all that changed: a source that faults one byte into the
    block makes it return 0 with that byte already in the file.
  */
  method PartialWrite(fs: FileSystem, n: nat) returns (r: int)
    requires fs.Valid() && n in fs.inodes && fs.inodes[n].size == 2 && FileByte(fs.inodes, fs.blocks, n, 0) != 7
    modifies fs
    ensures r == 0 && fs.Valid() && n in fs.inodes && fs.inodes[n].size == 2
    ensures FileByte(fs.inodes, fs.blocks, n, 0) == 7
  {
    hide OwnersOk, BitsOk, AllUsed, Ref;
    MappedBlock(fs.bitmap, fs.blocks, fs.inodes, fs.owner, fs.first, fs.size, n, 0);
    ghost var landed;
    r, landed := fs.Writei(n, [7, 7], 0, 1);
    MappedBlock(fs.bitmap, fs.blocks, fs.inodes, fs.owner, fs.first, fs.size, n, 0);
  }
}
