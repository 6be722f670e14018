/**
  The buffers of a file system: what iupdate(), balloc() and bmap() put into them (kernel/fs.c) reads
  back as the state they hold, so every chunk of xv6fs_write() on a consistent disk is an operation on
  the log.
*/
module FsEncode {
  import L = Log
  import opened Bytes
  import opened FsBlocks
  import opened FsFile
  import opened FsImage
  import opened FsLogged
  import opened FsCrash
  import opened LogSystem
  import F = Fs

  // ---- Bytes in words ----

  function WordsOf(b: Block): L.Block {
    seq(L.BWORDS, i requires 0 <= i < L.BWORDS => GetWord(b, i))
  }

  lemma SplitWord(w0: Byte, w1: Byte, w2: Byte, w3: Byte)
    ensures var w := (w0 as int) + 0x100 * (w1 as int) + 0x1_0000 * (w2 as int) + 0x100_0000 * (w3 as int);
            && w % 0x100 == w0 && w / 0x100 % 0x100 == w1 && w / 0x1_0000 % 0x100 == w2 && w / 0x100_0000 == w3
            && w % 0x1_0000_0000 == w
  {
    var x3, x2 := w3 as int, (w2 as int) + 0x100 * (w3 as int);
    var x1 := (w1 as int) + 0x100 * x2;
    SplitByte(w2, x3);
    SplitByte(w1, x2);
    SplitByte(w0, x1);
    Nested((w0 as int) + 0x100 * x1);
  }

  lemma SplitByte(b: Byte, x: nat)
    ensures ((b as int) + 0x100 * x) % 0x100 == b && ((b as int) + 0x100 * x) / 0x100 == x
  {}

  lemma WordByte(b: Block, i: nat)
    requires i < BSIZE
    ensures ByteAt(WordsOf(b), i) == b[i]
  {
    var j := i / 4;
    SplitWord(b[4 * j], b[4 * j + 1], b[4 * j + 2], b[4 * j + 3]);
    assert i == 4 * j + i % 4;
  }

  lemma WordsBack(b: Block)
    ensures BytesOf(WordsOf(b)) == b
  {
    hide WordsOf, ByteAt;
    forall i | 0 <= i < BSIZE ensures BytesOf(WordsOf(b))[i] == b[i] { WordByte(b, i); }
  }

  // ---- The bitmap ----

  /** Bitmap block k. */
  function BitmapBytes(bitmap: seq<bv8>, k: nat): Block {
    seq(BSIZE, j requires 0 <= j < BSIZE => BitmapByte(bitmap, k, j))
  }

  function BitmapByte(bitmap: seq<bv8>, k: nat, j: nat): (r: Byte) {
    if k * BSIZE + j < |bitmap| then ByteOf(bitmap[k * BSIZE + j]) else 0
  }

  function ByteOf(x: bv8): Byte {
    x as int
  }

  lemma ByteBack(x: bv8)
    ensures ByteOf(x) as bv8 == x
  {}

  lemma BitmapBack(bitmap: seq<bv8>, i: nat)
    requires i < |bitmap|
    ensures ByteAt(WordsOf(BitmapBytes(bitmap, i / BSIZE)), i % BSIZE) as bv8 == bitmap[i]
  {
    hide WordsOf, ByteAt;
    WordByte(BitmapBytes(bitmap, i / BSIZE), i % BSIZE);
    assert i / BSIZE * BSIZE + i % BSIZE == i;
    ByteBack(bitmap[i]);
  }

  // ---- Inodes ----

  /** Inode block k with the sizes and addresses put in. */
  function InodeWords(b: L.Block, inodes: Inodes, k: nat): L.Block
    requires InodesOk(inodes)
  {
    seq(L.BWORDS, w requires 0 <= w < L.BWORDS =>
      var m, f := k * IPB + w / DINODE_WORDS, w % DINODE_WORDS;
      if m !in inodes || f < 2 then b[w] else if f == 2 then inodes[m].size else inodes[m].addrs[f - 3])
  }

  lemma InodeBack(b: L.Block, inodes: Inodes, m: nat)
    requires InodesOk(inodes) && m in inodes && inodes[m].size < 0x1_0000_0000
    ensures InodeIn(InodeWords(b, inodes, m / IPB), m) == inodes[m]
  {
    hide WordAt, InodeWords;
    var r := InodeIn(InodeWords(b, inodes, m / IPB), m);
    FieldBack(b, inodes, m, 2);
    forall i | 0 <= i <= NDIRECT ensures r.addrs[i] == inodes[m].addrs[i] { FieldBack(b, inodes, m, 3 + i); }
  }

  lemma FieldBack(b: L.Block, inodes: Inodes, m: nat, f: nat)
    requires InodesOk(inodes) && m in inodes && inodes[m].size < 0x1_0000_0000 && 2 <= f < DINODE_WORDS
    ensures m % IPB * DINODE_WORDS + f < L.BWORDS
    ensures WordAt(InodeWords(b, inodes, m / IPB), m % IPB * DINODE_WORDS + f)
         == if f == 2 then inodes[m].size else inodes[m].addrs[f - 3]
  {
    var w := m % IPB * DINODE_WORDS + f;
    assert w / DINODE_WORDS == m % IPB && w % DINODE_WORDS == f && m / IPB * IPB + m % IPB == m;
  }

  // ---- The buffers of an operation ----

  /** Inodes, bitmap and data are apart, as mkfs lays them out. */
  ghost predicate Separate(lay: Layout) {
    && (forall b | lay.first <= b < lay.size :: !InBitmapArea(lay, b) && !InInodeArea(lay, b))
    && (forall b: nat | InBitmapArea(lay, b) :: !InInodeArea(lay, b))
  }

  predicate InBitmapArea(lay: Layout, b: nat) {
    lay.bmapstart <= b < lay.bmapstart + BitmapBlocks(lay.size)
  }

  predicate InInodeArea(lay: Layout, b: nat) {
    lay.inodestart <= b && (b - lay.inodestart) * IPB < lay.ninodes
  }

  /** The buffer of block b. */
  function Encoded(lay: Layout, d: L.Disk, bitmap: seq<bv8>, blocks: Blocks, inodes: Inodes, b: nat): L.Block
    requires InodesOk(inodes) && b < |d|
  {
    if lay.first <= b < lay.size && b in blocks then WordsOf(blocks[b])
    else if InBitmapArea(lay, b) then WordsOf(BitmapBytes(bitmap, b - lay.bmapstart))
    else if InInodeArea(lay, b) then InodeWords(d[b], inodes, b - lay.inodestart)
    else d[b]
  }

  /** The operation with those buffers. */
  ghost function Built(lay: Layout, d: L.Disk, calls: seq<nat>, bitmap: seq<bv8>, blocks: Blocks, inodes: Inodes,
                       owner: map<nat, Slot>, spilled: set<nat>): Operation
    requires InodesOk(inodes) && forall b | b in calls :: b < |d|
  {
    Operation(calls, bitmap, blocks, inodes, owner, spilled,
              map b | b in Logged(calls) :: Encoded(lay, d, bitmap, blocks, inodes, b))
  }

  lemma BuiltBuffers(lay: Layout, d: L.Disk, calls: seq<nat>, bitmap: seq<bv8>, blocks: Blocks, inodes: Inodes,
                     owner: map<nat, Slot>, spilled: set<nat>)
    requires Separate(lay) && InodesOk(inodes) && (forall b | b in calls :: b < |d|)
    requires |bitmap| == (lay.size + 7) / 8 && (forall b | lay.first <= b < lay.size :: b in blocks)
    requires forall m | m in inodes :: m < lay.ninodes && inodes[m].size < 0x1_0000_0000
    ensures Buffered(lay, Built(lay, d, calls, bitmap, blocks, inodes, owner, spilled))
  {
    hide WordsOf, ByteAt, BytesOf, InodeIn, Encoded, Separate;
    var o := Built(lay, d, calls, bitmap, blocks, inodes, owner, spilled);
    forall i | 0 <= i < |bitmap| && lay.bmapstart + i / BSIZE in o.bufs
      ensures ByteAt(o.bufs[lay.bmapstart + i / BSIZE], i % BSIZE) as bv8 == o.bitmap[i]
    {
      EncodedBitmap(lay, d, bitmap, blocks, inodes, i);
    }
    forall b | b in o.bufs && b in o.blocks && lay.first <= b < lay.size ensures BytesOf(o.bufs[b]) == o.blocks[b] {
      EncodedData(lay, d, bitmap, blocks, inodes, b);
    }
    forall m | m in inodes && m / IPB + lay.inodestart in o.bufs
      ensures InodeIn(o.bufs[m / IPB + lay.inodestart], m) == inodes[m]
    {
      EncodedInode(lay, d, bitmap, blocks, inodes, m);
    }
  }

  lemma EncodedBitmap(lay: Layout, d: L.Disk, bitmap: seq<bv8>, blocks: Blocks, inodes: Inodes, i: nat)
    requires Separate(lay) && InodesOk(inodes) && lay.bmapstart + i / BSIZE < |d|
    requires i < |bitmap| == (lay.size + 7) / 8
    ensures ByteAt(Encoded(lay, d, bitmap, blocks, inodes, lay.bmapstart + i / BSIZE), i % BSIZE) as bv8 == bitmap[i]
  {
    hide WordsOf, ByteAt, BitmapBytes, BitmapBlocks, InodeWords;
    BitmapBack(bitmap, i);
    ByteInBitmap(i, lay.size);
    assert InBitmapArea(lay, lay.bmapstart + i / BSIZE);
  }

  lemma EncodedData(lay: Layout, d: L.Disk, bitmap: seq<bv8>, blocks: Blocks, inodes: Inodes, b: nat)
    requires InodesOk(inodes) && b < |d| && lay.first <= b < lay.size && b in blocks
    ensures BytesOf(Encoded(lay, d, bitmap, blocks, inodes, b)) == blocks[b]
  {
    hide WordsOf, BytesOf;
    WordsBack(blocks[b]);
  }

  lemma EncodedInode(lay: Layout, d: L.Disk, bitmap: seq<bv8>, blocks: Blocks, inodes: Inodes, m: nat)
    requires Separate(lay) && InodesOk(inodes) && m in inodes && m / IPB + lay.inodestart < |d|
    requires m < lay.ninodes && inodes[m].size < 0x1_0000_0000
    ensures InodeIn(Encoded(lay, d, bitmap, blocks, inodes, m / IPB + lay.inodestart), m) == inodes[m]
  {
    hide InodeIn, InodeWords, BitmapBytes, WordsOf, BitmapBlocks;
    var c := m / IPB + lay.inodestart;
    InodeBack(d[c], inodes, m);
    assert InInodeArea(lay, c);
  }

  lemma ByteInBitmap(i: nat, size: nat)
    requires i < (size + 7) / 8
    ensures i / BSIZE < BitmapBlocks(size)
  {}

  /** The blocks of the file system are on the disk and outside the log. */
  lemma AreaApart(lay: Layout, start: nat, d: L.Disk, b: nat)
    requires Apart(lay, start, d)
    requires InArea(b, InodesOn(lay, start, d), lay.first, lay.size, lay.inodestart, lay.bmapstart)
    ensures b < |d| && !L.InLog(start, b)
  {
    hide InodeIn;
    if lay.bmapstart <= b < lay.bmapstart + BitmapBlocks(lay.size) {
      var i := (b - lay.bmapstart) * BSIZE;
      assert 0 <= i < (lay.size + 7) / 8 && lay.bmapstart + i / BSIZE == b;
    }
  }

  // ---- A chunk on the disk ----

  /** On the disk, cnt bytes of src are in file n at off, and no other byte of a file differs. */
  ghost predicate WroteOn(lay: Layout, start: nat, d: L.Disk, d': L.Disk, n: nat, off: nat, src: seq<Byte>, cnt: nat) {
    && Apart(lay, start, d) && Apart(lay, start, d')
    && var inodes, inodes' := InodesOn(lay, start, d), InodesOn(lay, start, d');
       && InodesOk(inodes) && InodesOk(inodes') && inodes'.Keys == inodes.Keys && cnt <= |src|
       && Wrote(inodes, BlocksOn(lay, d), inodes', BlocksOn(lay, d'), n, off, src, cnt)
  }

  /** With nothing spilled the disk holds the bytes of the files as the operation left them. */
  lemma BytesAfter(lay: Layout, start: nat, d: L.Disk, o: Operation, m: nat, k: nat)
    requires Does(lay, start, d, o) && o.spilled == {} && m in o.inodes && k < MAXBYTES
    ensures lay.size <= |d| && InodesOk(o.inodes)
    ensures FileByte(o.inodes, BlocksOn(lay, Over(d, o.bufs)), m, k) == FileByte(o.inodes, o.blocks, m, k)
  {
    hide SizesOk, LogsAll, Buffered, BlocksOn, BitmapOn, InodesOn, Over, Bit;
    var blocks' := BlocksOn(lay, Over(d, o.bufs));
    var ind, s := IndirectBlock(m), FileSlot(m, k / BSIZE);
    SlotAfter(lay, start, d, o, ind);
    SlotAfter(lay, start, d, o, s);
  }

  /** The block in a slot is a data block, and the disk holds it. */
  lemma SlotAfter(lay: Layout, start: nat, d: L.Disk, o: Operation, s: Slot)
    requires Does(lay, start, d, o) && o.spilled == {} && SlotOk(o.inodes, s)
    ensures lay.size <= |d| && InodesOk(o.inodes)
    ensures var b := Ref(o.inodes, o.blocks, s);
            b != 0 ==> && b in o.blocks && b in BlocksOn(lay, Over(d, o.bufs))
                       && BlocksOn(lay, Over(d, o.bufs))[b] == o.blocks[b]
  {
    hide SizesOk, LogsAll, Buffered, BlocksOn, BitmapOn, InodesOn, Over, Bit, Ref;
    var b := Ref(o.inodes, o.blocks, s);
    if b != 0 { BlocksAfter(lay, start, d, o, b); }
  }

  lemma WroteAfter(lay: Layout, start: nat, d: L.Disk, o: Operation, n: nat, off: nat, src: seq<Byte>, cnt: nat)
    requires Does(lay, start, d, o) && o.spilled == {} && cnt <= |src|
    requires InodesOk(InodesOn(lay, start, d)) && InodesOk(o.inodes) && o.inodes.Keys == InodesOn(lay, start, d).Keys
    requires Wrote(InodesOn(lay, start, d), BlocksOn(lay, d), o.inodes, o.blocks, n, off, src, cnt)
    ensures WroteOn(lay, start, d, Over(d, o.bufs), n, off, src, cnt)
  {
    hide OwnersOk, BitsOk, SizesOk, LogsAll, Buffered, BlocksOn, BitmapOn, InodesOn, Over, FileByte, InArea;
    InodesAfter(lay, start, d, o);
    forall m, k: nat | m in o.inodes && k < MAXBYTES
      ensures FileByte(o.inodes, BlocksOn(lay, Over(d, o.bufs)), m, k) == FileByte(o.inodes, o.blocks, m, k)
    {
      BytesAfter(lay, start, d, o, m, k);
    }
  }

  lemma WroteHome(lay: Layout, start: nat, d: L.Disk, d1: L.Disk, d2: L.Disk, n: nat, off: nat, src: seq<Byte>,
                  cnt: nat)
    requires WroteOn(lay, start, d, d1, n, off, src, cnt) && L.SameHome(start, d2, d1)
    ensures WroteOn(lay, start, d, d2, n, off, src, cnt)
    ensures InodesOn(lay, start, d2) == InodesOn(lay, start, d1)
  {
    hide L.SameHome, Wrote, InodesOn, BlocksOn;
    SameImage(lay, start, d2, d1);
  }

  /**
    Every chunk of xv6fs_write() on a consistent disk is an operation on the log whose calls have
    allowance left.
  */
  method ChunkOnDisk(lay: Layout, start: nat, d: L.Disk, n: nat, src: seq<Byte>, off: Word, good: nat)
    returns (r: int, ghost o: Operation)
    requires FsGood(lay, start, d) && Separate(lay) && n < lay.ninodes && |src| <= MAX_CHUNK
    ensures r == -1 <==> off > InodesOn(lay, start, d)[n].size || off + |src| > MAXBYTES
    ensures r == -1 || 0 <= r <= |src|
    ensures Does(lay, start, d, o) && Reserved(o.calls)
    ensures r == -1 || |src| <= good ==> WroteOn(lay, start, d, Over(d, o.bufs), n, off, src, if r < 0 then 0 else r)
    ensures n in o.inodes && o.inodes[n].size == Max(InodesOn(lay, start, d)[n].size, if r < 0 then 0 else off + r)
    ensures forall b | b in o.calls :: b < |d| && !L.InLog(start, b)
  {
    hide OwnersOk, BitsOk, SizesOk, BlocksOn, BitmapOn, InodeIn, LogsAll, Reserved, Separate, F.Grows, Buffered;
    hide Encoded, F.Spilled, InArea, BitmapBlocks;
    ghost var owner :|
      FsOk(BitmapOn(lay, start, d), BlocksOn(lay, d), InodesOn(lay, start, d), owner, lay.first, lay.size);
    var fs := new F.FileSystem(lay.size, lay.first, lay.inodestart, lay.bmapstart, BitmapOn(lay, start, d),
                               BlocksOn(lay, d), InodesOn(lay, start, d), owner);
    ghost var landed;
    r, landed := fs.WriteChunk(n, src, off, good);
    ghost var spilled := F.Spilled(fs.inodes, fs.blocks, n, off, if r < 0 then 0 else r, landed);
    forall b | b in fs.calls ensures b < |d| && !L.InLog(start, b) { AreaApart(lay, start, d, b); }
    o := Built(lay, d, fs.calls, fs.bitmap, fs.blocks, fs.inodes, fs.owner, spilled);
    SmallSizes(fs.inodes, fs.blocks);
    SameLength(fs.calls, lay, start, d, fs.bitmap, fs.blocks, spilled);
    BuiltBuffers(lay, d, fs.calls, fs.bitmap, fs.blocks, fs.inodes, fs.owner, spilled);
    if r == -1 || |src| <= good {
      NoSpill(fs.inodes, fs.blocks, n, off, landed);
      WroteAfter(lay, start, d, o, n, off, src, landed);
    }
  }

  lemma NoSpill(inodes: Inodes, blocks: Blocks, n: nat, off: nat, tot: nat)
    requires InodesOk(inodes) && n in inodes
    ensures F.Spilled(inodes, blocks, n, off, tot, tot) == {}
  {}

  /**
    From a quiet moment at which begin_op() does not wait, with a consistent file system on the disk d
    that operations see: the chunk runs to its end_op() without a wait or a panic, and leaves a
    consistent file system with the r bytes written.
  */
  method ChunkRuns(lay: Layout, start: nat, d: L.Disk, n: nat, src: seq<Byte>, off: Word, good: nat,
                   ghost run: seq<State>, ghost acts: seq<Action>)
    returns (r: int, ghost run': seq<State>, ghost acts': seq<Action>)
    requires |run| == |acts| + 1 && IsRun(run, acts) && Quiet(run[|acts|]) && Inv(run[|acts|])
    requires Next(run[|acts|], Begin).Go? && View(run[|acts|]) == d && run[|acts|].start == start
    requires FsGood(lay, start, d) && Separate(lay) && n < lay.ninodes && |src| <= MAX_CHUNK
    ensures r == -1 <==> off > InodesOn(lay, start, d)[n].size || off + |src| > MAXBYTES
    ensures r == -1 || 0 <= r <= |src|
    ensures IsRun(run', acts') && acts <= acts' && run <= run' && Quiet(run'[|acts'|])
    ensures FsGood(lay, start, View(run'[|acts'|]))
    ensures r == -1 || |src| <= good ==>
      WroteOn(lay, start, d, View(run'[|acts'|]), n, off, src, if r < 0 then 0 else r)
  {
    hide IsRun, Inv, Next, FsGood, Transacts, Buffered, Apart, Separate, Reserved;
    ghost var s := run[|acts|];
    ghost var o;
    r, o := ChunkOnDisk(lay, start, d, n, src, off, good);
    run', acts' := OpRuns(run, acts, o);
    StepsKeep(run', acts', lay, |acts|, |acts'|, o);
    if r == -1 || |src| <= good {
      WroteHome(lay, start, d, Over(d, o.bufs), View(run'[|acts'|]), n, off, src, if r < 0 then 0 else r);
    }
  }

  lemma SameLength(calls: seq<nat>, lay: Layout, start: nat, d: L.Disk, bitmap: seq<bv8>, blocks: Blocks,
                   spilled: set<nat>)
    requires Apart(lay, start, d)
    requires LogsAll(Logged(calls), BitmapOn(lay, start, d), BlocksOn(lay, d), bitmap, blocks, spilled, lay.bmapstart)
    ensures |bitmap| == (lay.size + 7) / 8
  {}

  lemma SmallSizes(inodes: Inodes, blocks: Blocks)
    requires InodesOk(inodes) && SizesOk(inodes, blocks)
    ensures forall m | m in inodes :: inodes[m].size < 0x1_0000_0000
  {
    hide MappedTo;
  }
}
