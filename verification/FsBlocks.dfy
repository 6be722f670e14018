/**
  The on-disk pieces of the xv6 file system (kernel/fs.c): the free bitmap as bytes, block
  numbers stored as little-endian words in indirect blocks, and which slot refers to a block.
*/
module FsBlocks {
  import opened Bytes

  const BSIZE: nat := 1024
  const NDIRECT: nat := 12
  const NINDIRECT: nat := 256 // BSIZE / sizeof(uint)
  const MAXFILE: nat := NDIRECT + NINDIRECT
  const BPB: nat := 8192      // bitmap bits per block

  type Word = x: nat | x < 0x1_0000_0000
  type Block = b: seq<Byte> | |b| == BSIZE witness seq(BSIZE, _ => 0)
  type Blocks = map<nat, Block>

  datatype Inode = Inode(size: nat, addrs: seq<Word>)
  type Inodes = map<nat, Inode>

  function Zeros(): (z: Block)
    ensures forall i | 0 <= i < BSIZE :: z[i] == 0
  {
    seq(BSIZE, _ => 0)
  }

  // ---- Bitmap ----

  function Mask(i: nat): bv8
    requires i < 8
  {
    1 << i
  }

  predicate Bit(bitmap: seq<bv8>, b: nat) {
    b / 8 < |bitmap| && bitmap[b / 8] & Mask(b % 8) != 0
  }

  function SetBit(bitmap: seq<bv8>, b: nat): (r: seq<bv8>)
    requires b / 8 < |bitmap|
    ensures |r| == |bitmap|
  {
    bitmap[b / 8 := bitmap[b / 8] | Mask(b % 8)]
  }

  function ClearBit(bitmap: seq<bv8>, b: nat): (r: seq<bv8>)
    requires b / 8 < |bitmap|
    ensures |r| == |bitmap|
  {
    bitmap[b / 8 := bitmap[b / 8] & !Mask(b % 8)]
  }

  lemma MaskBits(x: bv8, i: nat, j: nat)
    requires i < 8 && j < 8
    ensures (x | Mask(i)) & Mask(j) != 0 <==> i == j || x & Mask(j) != 0
    ensures (x & !Mask(i)) & Mask(j) != 0 <==> i != j && x & Mask(j) != 0
  {
    assert i == 0 || i == 1 || i == 2 || i == 3 || i == 4 || i == 5 || i == 6 || i == 7;
    assert j == 0 || j == 1 || j == 2 || j == 3 || j == 4 || j == 5 || j == 6 || j == 7;
  }

  lemma SetBitOne(bitmap: seq<bv8>, b: nat, c: nat)
    requires b / 8 < |bitmap|
    ensures Bit(SetBit(bitmap, b), c) <==> c == b || Bit(bitmap, c)
  {
    if c / 8 == b / 8 { MaskBits(bitmap[b / 8], b % 8, c % 8); }
  }

  lemma ClearBitOne(bitmap: seq<bv8>, b: nat, c: nat)
    requires b / 8 < |bitmap|
    ensures Bit(ClearBit(bitmap, b), c) <==> c != b && Bit(bitmap, c)
  {
    if c / 8 == b / 8 { MaskBits(bitmap[b / 8], b % 8, c % 8); }
  }

  // ---- Words in an indirect block ----

  function GetWord(b: Block, j: nat): Word
    requires j < NINDIRECT
  {
    Word32(b, 4 * j)
  }

  function PutWord(b: Block, j: nat, v: Word): Block
    requires j < NINDIRECT
  {
    PutWord32(b, 4 * j, v)
  }

  lemma PutGet(b: Block, j: nat, v: Word, i: nat)
    requires j < NINDIRECT && i < NINDIRECT
    ensures GetWord(PutWord(b, j, v), i) == if i == j then v else GetWord(b, i)
  {
    hide Word32, PutWord32;
    if i == j { Put32Same(b, 4 * j, v); } else { Put32Other(b, 4 * j, v, 4 * i); }
  }

  lemma ZeroWords(i: nat)
    requires i < NINDIRECT
    ensures GetWord(Zeros(), i) == 0
  {}

  // ---- Slots ----

  /** The places that can hold a block number: direct, the indirect block, and its entries. */
  datatype Slot = Direct(inum: nat, i: nat) | IndirectBlock(inum: nat) | Entry(inum: nat, j: nat)

  predicate InodesOk(inodes: Inodes) {
    forall n | n in inodes :: |inodes[n].addrs| == NDIRECT + 1
  }

  predicate SlotOk(inodes: Inodes, s: Slot) {
    s.inum in inodes && (s.Direct? ==> s.i < NDIRECT) && (s.Entry? ==> s.j < NINDIRECT)
  }

  /** The block number in a slot, 0 if the slot is empty or its indirect block does not exist. */
  function Ref(inodes: Inodes, blocks: Blocks, s: Slot): Word
    requires InodesOk(inodes) && SlotOk(inodes, s)
  {
    var a := inodes[s.inum].addrs;
    match s
    case Direct(_, i) => a[i]
    case IndirectBlock(_) => a[NDIRECT]
    case Entry(_, j) => if a[NDIRECT] != 0 && a[NDIRECT] in blocks then GetWord(blocks[a[NDIRECT]], j) else 0
  }

  /** The slot that bmap() uses for file block bn. */
  function FileSlot(inum: nat, bn: nat): Slot {
    if bn < NDIRECT then Direct(inum, bn) else Entry(inum, bn - NDIRECT)
  }

  /**
    Exclusive ownership: `owner` is the inverse of the references, every referenced block is a data
    block, and the bitmap marks exactly the metadata and the referenced blocks.
  */
  ghost predicate OwnersOk(inodes: Inodes, blocks: Blocks, owner: map<nat, Slot>)
    requires InodesOk(inodes)
  {
    && (forall b | b in owner :: b > 0 && SlotOk(inodes, owner[b]) && Ref(inodes, blocks, owner[b]) == b)
    && (forall s | SlotOk(inodes, s) && Ref(inodes, blocks, s) != 0 ::
          Ref(inodes, blocks, s) in owner && owner[Ref(inodes, blocks, s)] == s)
  }

  ghost predicate BitsOk(bitmap: seq<bv8>, owner: map<nat, Slot>, first: nat, size: nat) {
    && 0 < first <= size <= 8 * |bitmap| && size < 0x1_0000_0000
    && (forall b | b in owner :: first <= b < size)
    && (forall b | 0 <= b < size :: Bit(bitmap, b) <==> b < first || b in owner)
  }

  ghost predicate FsOk(bitmap: seq<bv8>, blocks: Blocks, inodes: Inodes, owner: map<nat, Slot>, first: nat, size: nat) {
    && InodesOk(inodes) && (forall b | first <= b < size :: b in blocks)
    && OwnersOk(inodes, blocks, owner) && BitsOk(bitmap, owner, first, size)
  }

  /** No block is referenced from two places. */
  lemma ReferencedOnce(bitmap: seq<bv8>, blocks: Blocks, inodes: Inodes, owner: map<nat, Slot>, first: nat, size: nat,
                       s: Slot, s': Slot)
    requires FsOk(bitmap, blocks, inodes, owner, first, size)
    requires SlotOk(inodes, s) && SlotOk(inodes, s') && Ref(inodes, blocks, s) == Ref(inodes, blocks, s') != 0
    ensures s == s'
  {}

  function WithAddr(inodes: Inodes, n: nat, i: nat, b: Word): (r: Inodes)
    requires InodesOk(inodes) && n in inodes && i <= NDIRECT
    ensures InodesOk(r) && r.Keys == inodes.Keys
  {
    inodes[n := inodes[n].(addrs := inodes[n].addrs[i := b])]
  }

  // ---- Attaching a fresh block ----

  /** A block balloc() just handed out: free before, now marked and zeroed. */
  ghost predicate Fresh(bitmap: seq<bv8>, blocks: Blocks, owner: map<nat, Slot>, first: nat, size: nat, b: nat)
  {
    first <= b < size && b !in owner && b in blocks && blocks[b] == Zeros() && b / 8 < |bitmap|
  }

  lemma BitInRange(bitmap: seq<bv8>, owner: map<nat, Slot>, first: nat, size: nat, b: nat)
    requires BitsOk(bitmap, owner, first, size) && b < size
    ensures b / 8 < |bitmap| && 0 < first <= size < 0x1_0000_0000
  {}

  lemma BitsSet(bitmap: seq<bv8>, owner: map<nat, Slot>, first: nat, size: nat, b: nat, s: Slot)
    requires BitsOk(bitmap, owner, first, size) && first <= b < size
    ensures BitsOk(SetBit(bitmap, b), owner[b := s], first, size)
  {
    forall c | 0 <= c < size ensures Bit(SetBit(bitmap, b), c) <==> c < first || c in owner[b := s] {
      SetBitOne(bitmap, b, c);
    }
  }

  lemma BitsCleared(bitmap: seq<bv8>, owner: map<nat, Slot>, first: nat, size: nat, b: nat)
    requires BitsOk(bitmap, owner, first, size) && b in owner
    ensures Bit(bitmap, b) && BitsOk(ClearBit(bitmap, b), owner - {b}, first, size)
  {
    forall c | 0 <= c < size ensures Bit(ClearBit(bitmap, b), c) <==> c < first || c in owner - {b} {
      ClearBitOne(bitmap, b, c);
    }
  }

  lemma AttachRefs(inodes: Inodes, blocks: Blocks, n: nat, i: nat, b: Word, s: Slot)
    requires InodesOk(inodes) && n in inodes && i <= NDIRECT && b != 0 && inodes[n].addrs[i] == 0
    requires b in blocks && blocks[b] == Zeros() && SlotOk(inodes, s)
    ensures Ref(WithAddr(inodes, n, i, b), blocks, s)
         == if s == (if i < NDIRECT then Direct(n, i) else IndirectBlock(n)) then b else Ref(inodes, blocks, s)
  {
    if s.Entry? { ZeroWords(s.j); }
  }

  /** bmap() storing a fresh block in an empty direct slot, or as the indirect block. */
  lemma AttachAddr(bitmap: seq<bv8>, blocks: Blocks, inodes: Inodes, owner: map<nat, Slot>, first: nat, size: nat,
                   n: nat, i: nat, b: nat)
    requires FsOk(bitmap, blocks, inodes, owner, first, size) && n in inodes && i <= NDIRECT
    requires inodes[n].addrs[i] == 0 && Fresh(bitmap, blocks, owner, first, size, b)
    ensures var s := if i < NDIRECT then Direct(n, i) else IndirectBlock(n);
            FsOk(SetBit(bitmap, b), blocks, WithAddr(inodes, n, i, b), owner[b := s], first, size)
  {
    hide BitsOk;
    var s := if i < NDIRECT then Direct(n, i) else IndirectBlock(n);
    BitInRange(bitmap, owner, first, size, b);
    var inodes' := WithAddr(inodes, n, i, b);
    forall t | SlotOk(inodes, t) ensures Ref(inodes', blocks, t) == if t == s then b else Ref(inodes, blocks, t) {
      AttachRefs(inodes, blocks, n, i, b, t);
    }
    BitsSet(bitmap, owner, first, size, b, s);
  }

  /** bmap() storing a fresh block in an empty entry of the indirect block. */
  lemma AttachEntry(bitmap: seq<bv8>, blocks: Blocks, inodes: Inodes, owner: map<nat, Slot>, first: nat, size: nat,
                    n: nat, j: nat, b: nat)
    requires FsOk(bitmap, blocks, inodes, owner, first, size) && n in inodes && j < NINDIRECT
    requires var a := inodes[n].addrs[NDIRECT]; a != 0 && a in blocks && GetWord(blocks[a], j) == 0
    requires Fresh(bitmap, blocks, owner, first, size, b)
    ensures var a := inodes[n].addrs[NDIRECT];
            FsOk(SetBit(bitmap, b), blocks[a := PutWord(blocks[a], j, b)], inodes, owner[b := Entry(n, j)], first, size)
  {
    var a := inodes[n].addrs[NDIRECT];
    assert Ref(inodes, blocks, IndirectBlock(n)) == a;
    var blocks' := blocks[a := PutWord(blocks[a], j, b)];
    forall t | SlotOk(inodes, t)
      ensures Ref(inodes, blocks', t) == if t == Entry(n, j) then b else Ref(inodes, blocks, t)
    {
      EntryWrite(bitmap, blocks, inodes, owner, first, size, n, j, b, t);
    }
    BitsSet(bitmap, owner, first, size, b, Entry(n, j));
  }

  // ---- Releasing a block ----

  /** itrunc() freeing and clearing a direct slot, or the indirect block once its entries are empty. */
  lemma DetachAddr(bitmap: seq<bv8>, blocks: Blocks, inodes: Inodes, owner: map<nat, Slot>, first: nat, size: nat,
                   n: nat, i: nat)
    requires FsOk(bitmap, blocks, inodes, owner, first, size) && n in inodes && i <= NDIRECT
    requires inodes[n].addrs[i] != 0
    requires i == NDIRECT ==> forall j | 0 <= j < NINDIRECT :: Ref(inodes, blocks, Entry(n, j)) == 0
    ensures var b := inodes[n].addrs[i];
            && b in owner && owner[b] == (if i < NDIRECT then Direct(n, i) else IndirectBlock(n)) && Bit(bitmap, b)
            && FsOk(ClearBit(bitmap, b), blocks, WithAddr(inodes, n, i, 0), owner - {b}, first, size)
  {
    var b := inodes[n].addrs[i];
    var s := if i < NDIRECT then Direct(n, i) else IndirectBlock(n);
    assert Ref(inodes, blocks, s) == b;
    BitsCleared(bitmap, owner, first, size, b);
    var inodes' := WithAddr(inodes, n, i, 0);
    forall t | SlotOk(inodes, t) ensures Ref(inodes', blocks, t) == if t == s then 0 else Ref(inodes, blocks, t) {
      DetachRefs(inodes, blocks, n, i, t);
    }
  }

  lemma DetachRefs(inodes: Inodes, blocks: Blocks, n: nat, i: nat, t: Slot)
    requires InodesOk(inodes) && n in inodes && i <= NDIRECT && SlotOk(inodes, t)
    requires i == NDIRECT ==> forall j | 0 <= j < NINDIRECT :: Ref(inodes, blocks, Entry(n, j)) == 0
    ensures Ref(WithAddr(inodes, n, i, 0), blocks, t)
         == if t == (if i < NDIRECT then Direct(n, i) else IndirectBlock(n)) then 0 else Ref(inodes, blocks, t)
  {
    if i == NDIRECT && t.Entry? && t.inum == n { assert Ref(inodes, blocks, Entry(n, t.j)) == 0; }
  }

  /** itrunc() freeing the block of one entry, seen as if the entry were cleared with it. */
  lemma DetachEntry(bitmap: seq<bv8>, blocks: Blocks, inodes: Inodes, owner: map<nat, Slot>, first: nat, size: nat,
                    n: nat, j: nat)
    requires FsOk(bitmap, blocks, inodes, owner, first, size) && n in inodes && j < NINDIRECT
    requires Ref(inodes, blocks, Entry(n, j)) != 0
    ensures var a, b := inodes[n].addrs[NDIRECT], Ref(inodes, blocks, Entry(n, j));
            && a in blocks && b in owner && owner[b] == Entry(n, j) && Bit(bitmap, b)
            && FsOk(ClearBit(bitmap, b), blocks[a := PutWord(blocks[a], j, 0)], inodes, owner - {b}, first, size)
  {
    var a, b := inodes[n].addrs[NDIRECT], Ref(inodes, blocks, Entry(n, j));
    assert Ref(inodes, blocks, IndirectBlock(n)) == a;
    BitsCleared(bitmap, owner, first, size, b);
    var blocks' := blocks[a := PutWord(blocks[a], j, 0)];
    forall t | SlotOk(inodes, t)
      ensures Ref(inodes, blocks', t) == if t == Entry(n, j) then 0 else Ref(inodes, blocks, t)
    {
      EntryWrite(bitmap, blocks, inodes, owner, first, size, n, j, 0, t);
    }
  }

  /** Writing one word of n's indirect block changes one slot. */
  lemma EntryWrite(bitmap: seq<bv8>, blocks: Blocks, inodes: Inodes, owner: map<nat, Slot>, first: nat, size: nat,
                   n: nat, j: nat, v: Word, t: Slot)
    requires FsOk(bitmap, blocks, inodes, owner, first, size) && n in inodes && j < NINDIRECT
    requires var a := inodes[n].addrs[NDIRECT]; a != 0 && a in blocks
    requires SlotOk(inodes, t)
    ensures var a := inodes[n].addrs[NDIRECT];
            Ref(inodes, blocks[a := PutWord(blocks[a], j, v)], t) == if t == Entry(n, j) then v
                                                                     else Ref(inodes, blocks, t)
  {
    var a := inodes[n].addrs[NDIRECT];
    if t.Entry? {
      PutGet(blocks[a], j, v, t.j);
      assert Ref(inodes, blocks, IndirectBlock(n)) == a;
      assert Ref(inodes, blocks, IndirectBlock(t.inum)) == inodes[t.inum].addrs[NDIRECT];
    }
  }

  /** The contents of a block that is nobody's indirect block carry no reference. */
  lemma ContentsFree(bitmap: seq<bv8>, blocks: Blocks, inodes: Inodes, owner: map<nat, Slot>, first: nat, size: nat,
                     b: nat, data: Block)
    requires FsOk(bitmap, blocks, inodes, owner, first, size) && b in blocks
    requires forall n | n in inodes :: inodes[n].addrs[NDIRECT] != b
    ensures FsOk(bitmap, blocks[b := data], inodes, owner, first, size)
    ensures forall s | SlotOk(inodes, s) :: Ref(inodes, blocks[b := data], s) == Ref(inodes, blocks, s)
  {
    forall s | SlotOk(inodes, s) ensures Ref(inodes, blocks[b := data], s) == Ref(inodes, blocks, s) {}
  }
}
