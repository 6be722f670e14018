/**
  A file of the xv6 file system as a byte sequence: what each byte of each file reads as, and how
  allocating, writing and truncating blocks changes it (kernel/fs.c).
*/
module FsFile {
  import opened Bytes
  import opened FsBlocks

  const MAXBYTES: nat := MAXFILE * BSIZE

  /** Byte k of file n; a hole reads as zero. */
  function FileByte(inodes: Inodes, blocks: Blocks, n: nat, k: nat): Byte
    requires InodesOk(inodes) && n in inodes && k < MAXBYTES
  {
    var a := Ref(inodes, blocks, FileSlot(n, k / BSIZE));
    if a != 0 && a in blocks then blocks[a][k % BSIZE] else 0
  }

  /** The contents of file n. */
  function Content(inodes: Inodes, blocks: Blocks, n: nat): (s: seq<Byte>)
    requires InodesOk(inodes) && n in inodes && inodes[n].size <= MAXBYTES
    ensures |s| == inodes[n].size
  {
    seq(inodes[n].size, k requires 0 <= k < inodes[n].size => FileByte(inodes, blocks, n, k))
  }

  /** Every block below the size of every file exists. */
  ghost predicate SizesOk(inodes: Inodes, blocks: Blocks)
    requires InodesOk(inodes)
  {
    forall n | n in inodes :: inodes[n].size <= MAXBYTES && MappedTo(inodes, blocks, n, inodes[n].size)
  }

  ghost predicate MappedTo(inodes: Inodes, blocks: Blocks, n: nat, size: nat)
    requires InodesOk(inodes) && n in inodes && size <= MAXBYTES
  {
    forall bn: nat | bn * BSIZE < size :: Ref(inodes, blocks, FileSlot(n, bn)) != 0
  }

  /** Only bytes [off, off+cnt) of file n differ, and they hold src. */
  ghost predicate Wrote(inodes: Inodes, blocks: Blocks, inodes': Inodes, blocks': Blocks, n: nat, off: nat,
                        src: seq<Byte>, cnt: nat)
    requires InodesOk(inodes) && InodesOk(inodes') && inodes'.Keys == inodes.Keys && cnt <= |src|
  {
    forall m, k: nat | m in inodes && k < MAXBYTES ::
      FileByte(inodes', blocks', m, k)
        == if m == n && off <= k < off + cnt then src[k - off] else FileByte(inodes, blocks, m, k)
  }

  ghost predicate SameBytes(inodes: Inodes, blocks: Blocks, inodes': Inodes, blocks': Blocks)
    requires InodesOk(inodes) && InodesOk(inodes') && inodes'.Keys == inodes.Keys
  {
    forall m, k: nat | m in inodes && k < MAXBYTES ::
      FileByte(inodes', blocks', m, k) == FileByte(inodes, blocks, m, k)
  }

  /** What allocation for file n may do: add references of n, lose none, and leave every size and byte alone. */
  ghost predicate Extends(inodes: Inodes, blocks: Blocks, owner: map<nat, Slot>, inodes': Inodes, blocks': Blocks,
                          owner': map<nat, Slot>, n: nat)
    requires InodesOk(inodes)
  {
    && InodesOk(inodes') && inodes'.Keys == inodes.Keys
    && (forall m | m in inodes :: inodes'[m].size == inodes[m].size && (m != n ==> inodes'[m] == inodes[m]))
    && (forall b | b in owner :: b in owner' && owner'[b] == owner[b])
    && SameBytes(inodes, blocks, inodes', blocks')
  }

  /** The part of a file's mapping that survives allocation. */
  lemma ExtendsRefs(bitmap: seq<bv8>, bitmap': seq<bv8>, inodes: Inodes, blocks: Blocks, owner: map<nat, Slot>,
                    inodes': Inodes, blocks': Blocks, owner': map<nat, Slot>, first: nat, size: nat, n: nat)
    requires FsOk(bitmap, blocks, inodes, owner, first, size) && FsOk(bitmap', blocks', inodes', owner', first, size)
    requires Extends(inodes, blocks, owner, inodes', blocks', owner', n)
    ensures forall s | SlotOk(inodes, s) && Ref(inodes, blocks, s) != 0 ::
      Ref(inodes', blocks', s) == Ref(inodes, blocks, s)
    ensures SizesOk(inodes, blocks) ==> SizesOk(inodes', blocks')
  {
    forall s | SlotOk(inodes, s) && Ref(inodes, blocks, s) != 0
      ensures Ref(inodes', blocks', s) == Ref(inodes, blocks, s)
    {
      var b := Ref(inodes, blocks, s);
      assert owner'[b] == s;
    }
  }

  lemma ZeroRef(bitmap: seq<bv8>, blocks: Blocks, inodes: Inodes, owner: map<nat, Slot>, first: nat, size: nat, b: nat)
    requires FsOk(bitmap, blocks, inodes, owner, first, size) && first <= b < size && b !in owner
    ensures forall n | n in inodes :: inodes[n].addrs[NDIRECT] != b
    ensures FsOk(bitmap, blocks[b := Zeros()], inodes, owner, first, size)
    ensures forall s | SlotOk(inodes, s) :: Ref(inodes, blocks[b := Zeros()], s) == Ref(inodes, blocks, s) != b
  {
    forall n | n in inodes ensures inodes[n].addrs[NDIRECT] != b {
      assert Ref(inodes, blocks, IndirectBlock(n)) == inodes[n].addrs[NDIRECT];
    }
    ContentsFree(bitmap, blocks, inodes, owner, first, size, b, Zeros());
  }

  /** bmap(): a free block zeroed and stored in an empty direct slot or as the indirect block. */
  lemma BmapAddr(bitmap: seq<bv8>, blocks: Blocks, inodes: Inodes, owner: map<nat, Slot>, first: nat, size: nat, n: nat,
                 i: nat, b: nat)
    requires FsOk(bitmap, blocks, inodes, owner, first, size) && n in inodes && i <= NDIRECT
    requires inodes[n].addrs[i] == 0 && first <= b < size && b !in owner
    ensures var s := if i < NDIRECT then Direct(n, i) else IndirectBlock(n);
            var inodes', blocks', owner' := WithAddr(inodes, n, i, b), blocks[b := Zeros()], owner[b := s];
            && b / 8 < |bitmap| && FsOk(SetBit(bitmap, b), blocks', inodes', owner', first, size)
            && Extends(inodes, blocks, owner, inodes', blocks', owner', n)
            && Ref(inodes', blocks', s) == b
            && (forall t | SlotOk(inodes, t) && t != s :: Ref(inodes', blocks', t) == Ref(inodes, blocks, t))
  {
    hide OwnersOk, BitsOk;
    var s := if i < NDIRECT then Direct(n, i) else IndirectBlock(n);
    BitInRange(bitmap, owner, first, size, b);
    var inodes', blocks' := WithAddr(inodes, n, i, b), blocks[b := Zeros()];
    ZeroRef(bitmap, blocks, inodes, owner, first, size, b);
    AttachAddr(bitmap, blocks', inodes, owner, first, size, n, i, b);
    forall t | SlotOk(inodes, t) ensures Ref(inodes', blocks', t) == if t == s then b else Ref(inodes, blocks, t) {
      AttachRefs(inodes, blocks', n, i, b, t);
    }
    BytesKept(inodes, blocks, inodes', blocks', s, b);
  }

  /** Filling an empty slot with a zeroed block changes no byte of any file. */
  lemma BytesKept(inodes: Inodes, blocks: Blocks, inodes': Inodes, blocks': Blocks, s: Slot, b: Word)
    requires InodesOk(inodes) && InodesOk(inodes') && inodes'.Keys == inodes.Keys && SlotOk(inodes, s)
    requires b != 0 && b in blocks' && blocks'[b] == Zeros() && Ref(inodes, blocks, s) == 0
    requires forall t | SlotOk(inodes, t) ::
      Ref(inodes', blocks', t) == (if t == s then b else Ref(inodes, blocks, t)) && Ref(inodes, blocks, t) != b
    requires forall m, bn: nat | m in inodes && bn < MAXFILE && Ref(inodes, blocks, FileSlot(m, bn)) != 0 ::
      var a := Ref(inodes, blocks, FileSlot(m, bn));
      (a in blocks <==> a in blocks') && (a in blocks ==> blocks'[a] == blocks[a])
    ensures SameBytes(inodes, blocks, inodes', blocks')
  {
    forall m, k: nat | m in inodes && k < MAXBYTES
      ensures FileByte(inodes', blocks', m, k) == FileByte(inodes, blocks, m, k)
    {
      var t := FileSlot(m, k / BSIZE);
      assert SlotOk(inodes, t);
    }
  }

  /** bmap(): a free block zeroed and stored in an empty entry of the indirect block. */
  lemma BmapEntry(bitmap: seq<bv8>, blocks: Blocks, inodes: Inodes, owner: map<nat, Slot>, first: nat, size: nat,
                  n: nat, j: nat, b: nat)
    requires FsOk(bitmap, blocks, inodes, owner, first, size) && n in inodes && j < NINDIRECT
    requires inodes[n].addrs[NDIRECT] != 0 && Ref(inodes, blocks, Entry(n, j)) == 0 && first <= b < size && b !in owner
    ensures var a := inodes[n].addrs[NDIRECT]; a in blocks && a != b && b / 8 < |bitmap|
    ensures var a := inodes[n].addrs[NDIRECT];
            var blocks', owner' := blocks[b := Zeros()][a := PutWord(blocks[a], j, b)], owner[b := Entry(n, j)];
            && FsOk(SetBit(bitmap, b), blocks', inodes, owner', first, size)
            && Extends(inodes, blocks, owner, inodes, blocks', owner', n)
            && Ref(inodes, blocks', Entry(n, j)) == b
            && (forall t | SlotOk(inodes, t) && t != Entry(n, j) :: Ref(inodes, blocks', t) == Ref(inodes, blocks, t))
  {
    hide BitsOk;
    var a := inodes[n].addrs[NDIRECT];
    assert Ref(inodes, blocks, IndirectBlock(n)) == a;
    BitInRange(bitmap, owner, first, size, b);
    InRange(bitmap, blocks, inodes, owner, first, size, a);
    ZeroRef(bitmap, blocks, inodes, owner, first, size, b);
    var zeroed := blocks[b := Zeros()];
    AttachEntry(bitmap, zeroed, inodes, owner, first, size, n, j, b);
    var blocks' := zeroed[a := PutWord(blocks[a], j, b)];
    forall t | SlotOk(inodes, t)
      ensures Ref(inodes, blocks', t) == if t == Entry(n, j) then b else Ref(inodes, blocks, t)
    {
      EntryWrite(bitmap, zeroed, inodes, owner, first, size, n, j, b, t);
    }
    forall m, bn: nat | m in inodes && bn < MAXFILE && Ref(inodes, blocks, FileSlot(m, bn)) != 0
      ensures Ref(inodes, blocks, FileSlot(m, bn)) != a
    {
      assert SlotOk(inodes, FileSlot(m, bn));
    }
    BytesKept(inodes, blocks, inodes, blocks', Entry(n, j), b);
  }

  lemma InRange(bitmap: seq<bv8>, blocks: Blocks, inodes: Inodes, owner: map<nat, Slot>, first: nat, size: nat, b: nat)
    requires FsOk(bitmap, blocks, inodes, owner, first, size) && b in owner
    ensures b in blocks && 0 < first <= b < size
  {}

  lemma ExtendsTwice(inodes: Inodes, blocks: Blocks, owner: map<nat, Slot>, inodes1: Inodes, blocks1: Blocks,
                     owner1: map<nat, Slot>, inodes2: Inodes, blocks2: Blocks, owner2: map<nat, Slot>, n: nat)
    requires InodesOk(inodes) && InodesOk(inodes1)
    requires Extends(inodes, blocks, owner, inodes1, blocks1, owner1, n)
    requires Extends(inodes1, blocks1, owner1, inodes2, blocks2, owner2, n)
    ensures Extends(inodes, blocks, owner, inodes2, blocks2, owner2, n)
  {}

  // ---- Writing into a mapped block ----

  function Store(b: Block, o: nat, data: seq<Byte>): (r: Block)
    requires o + |data| <= BSIZE
    ensures forall i | 0 <= i < BSIZE :: r[i] == if o <= i < o + |data| then data[i - o] else b[i]
  {
    b[..o] + data + b[o + |data|..]
  }

  /** Storing data in the block of file block bn changes those bytes of that file and nothing else. */
  lemma StoreBlock(bitmap: seq<bv8>, blocks: Blocks, inodes: Inodes, owner: map<nat, Slot>, first: nat, size: nat,
                   n: nat, at: nat, data: seq<Byte>)
    requires FsOk(bitmap, blocks, inodes, owner, first, size) && n in inodes && at < MAXBYTES
    requires at % BSIZE + |data| <= BSIZE && Ref(inodes, blocks, FileSlot(n, at / BSIZE)) != 0
    ensures var a := Ref(inodes, blocks, FileSlot(n, at / BSIZE));
            && a in blocks && a in owner && owner[a] == FileSlot(n, at / BSIZE)
            && var blocks' := blocks[a := Store(blocks[a], at % BSIZE, data)];
               && FsOk(bitmap, blocks', inodes, owner, first, size)
               && (forall s | SlotOk(inodes, s) :: Ref(inodes, blocks', s) == Ref(inodes, blocks, s))
               && Wrote(inodes, blocks, inodes, blocks', n, at, data, |data|)
  {
    hide BitsOk;
    var f := FileSlot(n, at / BSIZE);
    var a := Ref(inodes, blocks, f);
    assert SlotOk(inodes, f);
    InRange(bitmap, blocks, inodes, owner, first, size, a);
    forall m | m in inodes ensures inodes[m].addrs[NDIRECT] != a {
      assert Ref(inodes, blocks, IndirectBlock(m)) == inodes[m].addrs[NDIRECT];
    }
    var blocks' := blocks[a := Store(blocks[a], at % BSIZE, data)];
    ContentsFree(bitmap, blocks, inodes, owner, first, size, a, blocks'[a]);
    forall m, k: nat | m in inodes && k < MAXBYTES
      ensures FileByte(inodes, blocks', m, k)
           == if m == n && at <= k < at + |data| then data[k - at] else FileByte(inodes, blocks, m, k)
    {
      var t := FileSlot(m, k / BSIZE);
      assert SlotOk(inodes, t);
      if t != f {
        assert Ref(inodes, blocks, t) != a;
        assert m == n ==> k / BSIZE != at / BSIZE;
        OtherBlock(at, |data|, k);
      } else {
        SameBlock(at, k);
      }
    }
  }

  lemma OtherBlock(at: nat, len: nat, k: nat)
    requires at % BSIZE + len <= BSIZE
    ensures k / BSIZE != at / BSIZE ==> !(at <= k < at + len)
  {
    if at <= k < at + len { assert k == BSIZE * (at / BSIZE) + (at % BSIZE + (k - at)); }
  }

  lemma SameBlock(at: nat, k: nat)
    requires k / BSIZE == at / BSIZE
    ensures k % BSIZE - at % BSIZE == k - at
  {}

  /** Writes of adjacent ranges compose. */
  lemma WroteNext(inodes: Inodes, blocks: Blocks, inodes1: Inodes, blocks1: Blocks, inodes2: Inodes, blocks2: Blocks,
                  n: nat, off: nat, src: seq<Byte>, cnt: nat, m: nat)
    requires InodesOk(inodes) && InodesOk(inodes1) && InodesOk(inodes2)
    requires inodes1.Keys == inodes.Keys && inodes2.Keys == inodes.Keys && cnt + m <= |src|
    requires Wrote(inodes, blocks, inodes1, blocks1, n, off, src, cnt)
    requires Wrote(inodes1, blocks1, inodes2, blocks2, n, off + cnt, src[cnt..cnt + m], m)
    ensures Wrote(inodes, blocks, inodes2, blocks2, n, off, src, cnt + m)
  {
    forall i, k: nat | i in inodes && k < MAXBYTES
      ensures FileByte(inodes2, blocks2, i, k)
           == if i == n && off <= k < off + cnt + m then src[k - off] else FileByte(inodes, blocks, i, k)
    {}
  }

  lemma WroteSame(inodes: Inodes, blocks: Blocks, inodes1: Inodes, blocks1: Blocks, inodes2: Inodes, blocks2: Blocks,
                  n: nat, off: nat, src: seq<Byte>, cnt: nat)
    requires InodesOk(inodes) && InodesOk(inodes1) && InodesOk(inodes2)
    requires inodes1.Keys == inodes.Keys && inodes2.Keys == inodes.Keys && cnt <= |src|
    requires Wrote(inodes, blocks, inodes1, blocks1, n, off, src, cnt) && SameBytes(inodes1, blocks1, inodes2, blocks2)
    ensures Wrote(inodes, blocks, inodes2, blocks2, n, off, src, cnt)
  {}

  /** writei() in terms of whole files: its own is overwritten, every other one keeps its contents. */
  lemma WroteContent(inodes: Inodes, blocks: Blocks, inodes': Inodes, blocks': Blocks, n: nat, off: nat, src: seq<Byte>,
                     cnt: nat)
    requires InodesOk(inodes) && InodesOk(inodes') && inodes'.Keys == inodes.Keys && n in inodes && cnt <= |src|
    requires off <= inodes[n].size <= MAXBYTES && off + cnt <= MAXBYTES
    requires inodes'[n].size == if off + cnt > inodes[n].size then off + cnt else inodes[n].size
    requires Wrote(inodes, blocks, inodes', blocks', n, off, src, cnt)
    ensures Content(inodes', blocks', n) == Overwrite(Content(inodes, blocks, n), off, src[..cnt])
    ensures forall m | m in inodes && m != n && inodes[m].size == inodes'[m].size <= MAXBYTES ::
              Content(inodes', blocks', m) == Content(inodes, blocks, m)
  {
    hide FileByte;
    forall k: nat | k < inodes'[n].size
      ensures Content(inodes', blocks', n)[k] == Overwrite(Content(inodes, blocks, n), off, src[..cnt])[k]
    {
      assert FileByte(inodes', blocks', n, k)
          == if off <= k < off + cnt then src[k - off] else FileByte(inodes, blocks, n, k);
    }
  }

  /** A freshly made image, with only the metadata blocks marked and every inode empty, is consistent. */
  lemma BlankImage(bitmap: seq<bv8>, blocks: Blocks, inodes: Inodes, first: nat, size: nat)
    requires 0 < first <= size <= 8 * |bitmap| && size < 0x1_0000_0000
    requires forall b | 0 <= b < size :: Bit(bitmap, b) <==> b < first
    requires forall b | first <= b < size :: b in blocks
    requires forall n | n in inodes :: inodes[n] == Inode(0, seq(NDIRECT + 1, _ => 0))
    ensures FsOk(bitmap, blocks, inodes, map[], first, size) && SizesOk(inodes, blocks)
  {
    forall s | SlotOk(inodes, s) && InodesOk(inodes) ensures Ref(inodes, blocks, s) == 0 {}
  }
}
