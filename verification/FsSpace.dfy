/**
  Room on the disk: how many blocks a write needs beyond those the file has, and that the loop of
  writei() (kernel/fs.c) stops short on a full disk exactly when these are more than are free.
*/
module FsSpace {
  import opened Sets
  import opened FsBlocks
  import opened FsFile

  /** The number of clear bits. */
  ghost function Free(bitmap: seq<bv8>, size: nat): nat {
    |FreeSet(bitmap, size)|
  }

  ghost function FreeSet(bitmap: seq<bv8>, size: nat): set<nat> {
    set b: nat | b < size && !Bit(bitmap, b)
  }

  /** The empty slots that mapping file blocks [lo, hi) of file n has to fill. */
  ghost function Wanted(inodes: Inodes, blocks: Blocks, n: nat, lo: nat, hi: nat): set<Slot>
    requires InodesOk(inodes) && n in inodes && hi <= MAXFILE
  {
    (set bn: nat | lo <= bn < hi && Ref(inodes, blocks, FileSlot(n, bn)) == 0 :: FileSlot(n, bn)) +
    (if lo < hi && NDIRECT < hi && Ref(inodes, blocks, IndirectBlock(n)) == 0 then {IndirectBlock(n)} else {})
  }

  ghost function Demand(inodes: Inodes, blocks: Blocks, n: nat, lo: nat, hi: nat): nat
    requires InodesOk(inodes) && n in inodes && hi <= MAXFILE
  {
    |Wanted(inodes, blocks, n, lo, hi)|
  }

  /** One of file blocks [lo, hi) of file n, or its indirect block if that is needed for them. */
  ghost predicate InSpan(s: Slot, n: nat, lo: nat, hi: nat) {
    || (s == IndirectBlock(n) && lo < hi && NDIRECT < hi)
    || OneOf(s, n, lo, hi)
  }

  ghost predicate OneOf(s: Slot, n: nat, lo: nat, hi: nat) {
    exists bn: nat :: lo <= bn < hi && s == FileSlot(n, bn)
  }

  lemma WantedIff(inodes: Inodes, blocks: Blocks, n: nat, lo: nat, hi: nat, s: Slot)
    requires InodesOk(inodes) && n in inodes && hi <= MAXFILE
    ensures InSpan(s, n, lo, hi) ==> SlotOk(inodes, s)
    ensures s in Wanted(inodes, blocks, n, lo, hi) <==> InSpan(s, n, lo, hi) && Ref(inodes, blocks, s) == 0
  {
    hide Ref;
  }

  /** Every data block is either free or owned. */
  lemma FreeIs(bitmap: seq<bv8>, owner: map<nat, Slot>, first: nat, size: nat)
    requires BitsOk(bitmap, owner, first, size)
    ensures Free(bitmap, size) + |owner| == size - first
  {
    hide Bit;
    var data := Range(first, size - first);
    assert FreeSet(bitmap, size) == data - owner.Keys;
    assert owner.Keys <= data;
  }

  lemma FullIs(bitmap: seq<bv8>, size: nat)
    requires forall b | 0 <= b < size :: Bit(bitmap, b)
    ensures Free(bitmap, size) == 0
  {
    assert FreeSet(bitmap, size) == {};
  }

  // ---- Blocks gained ----

  ghost function Gained(owner: map<nat, Slot>, owner': map<nat, Slot>): set<nat> {
    owner'.Keys - owner.Keys
  }

  lemma SlotsSize(inodes: Inodes, blocks: Blocks, owner: map<nat, Slot>, bs: set<nat>)
    requires InodesOk(inodes) && OwnersOk(inodes, blocks, owner) && bs <= owner.Keys
    ensures |Image(owner, bs)| == |bs|
  {
    hide Ref;
    assert Injective(owner, bs);
    ImageSize(owner, bs);
  }

  /** The state before and after blocks were added to file n. */
  ghost predicate Grew(bitmap: seq<bv8>, blocks: Blocks, inodes: Inodes, owner: map<nat, Slot>, bitmap': seq<bv8>,
                       blocks': Blocks, inodes': Inodes, owner': map<nat, Slot>, first: nat, size: nat) {
    && FsOk(bitmap, blocks, inodes, owner, first, size) && FsOk(bitmap', blocks', inodes', owner', first, size)
    && inodes'.Keys == inodes.Keys && (forall b | b in owner :: b in owner' && owner'[b] == owner[b])
  }

  lemma SpaceUsed(bitmap: seq<bv8>, blocks: Blocks, inodes: Inodes, owner: map<nat, Slot>, bitmap': seq<bv8>,
                  blocks': Blocks, inodes': Inodes, owner': map<nat, Slot>, first: nat, size: nat)
    requires Grew(bitmap, blocks, inodes, owner, bitmap', blocks', inodes', owner', first, size)
    ensures |Image(owner', Gained(owner, owner'))| == Free(bitmap, size) - Free(bitmap', size)
  {
    hide Bit, Ref, Free;
    FreeIs(bitmap, owner, first, size);
    FreeIs(bitmap', owner', first, size);
    SlotsSize(inodes', blocks', owner', Gained(owner, owner'));
    assert owner'.Keys == owner.Keys + Gained(owner, owner');
    assert |owner'.Keys| == |owner.Keys| + |Gained(owner, owner')|;
  }

  /** A slot that was empty and is filled was filled with a gained block. */
  lemma FilledGained(bitmap: seq<bv8>, blocks: Blocks, inodes: Inodes, owner: map<nat, Slot>, bitmap': seq<bv8>,
                     blocks': Blocks, inodes': Inodes, owner': map<nat, Slot>, first: nat, size: nat, s: Slot)
    requires Grew(bitmap, blocks, inodes, owner, bitmap', blocks', inodes', owner', first, size) && SlotOk(inodes, s)
    ensures s in Image(owner', Gained(owner, owner')) <==> Ref(inodes, blocks, s) == 0 && Ref(inodes', blocks', s) != 0
  {
    hide BitsOk, Bit;
    if Ref(inodes', blocks', s) != 0 {
      assert owner'[Ref(inodes', blocks', s)] == s;
    }
    if Ref(inodes, blocks, s) != 0 {
      assert owner[Ref(inodes, blocks, s)] == s;
    }
  }

  /** A write that mapped all of [lo, hi) had the room. */
  lemma HadRoom(bitmap: seq<bv8>, blocks: Blocks, inodes: Inodes, owner: map<nat, Slot>, bitmap': seq<bv8>,
                blocks': Blocks, inodes': Inodes, owner': map<nat, Slot>, first: nat, size: nat, n: nat, lo: nat,
                hi: nat)
    requires Grew(bitmap, blocks, inodes, owner, bitmap', blocks', inodes', owner', first, size) && n in inodes
    requires hi <= MAXFILE
    requires forall bn: nat | lo <= bn < hi :: Ref(inodes', blocks', FileSlot(n, bn)) != 0
    ensures Demand(inodes, blocks, n, lo, hi) <= Free(bitmap, size)
  {
    hide Grew, Bit, Free, Wanted, Ref, InSpan, OwnersOk, BitsOk;
    GrewKeys(bitmap, blocks, inodes, owner, bitmap', blocks', inodes', owner', first, size);
    var wanted, got := Wanted(inodes, blocks, n, lo, hi), Image(owner', Gained(owner, owner'));
    forall s | s in wanted ensures s in got {
      WantedIff(inodes, blocks, n, lo, hi, s);
      SpanFilled(inodes', blocks', n, lo, hi, s);
      FilledGained(bitmap, blocks, inodes, owner, bitmap', blocks', inodes', owner', first, size, s);
    }
    Smaller(wanted, got);
    SpaceUsed(bitmap, blocks, inodes, owner, bitmap', blocks', inodes', owner', first, size);
  }

  lemma SpanFilled(inodes: Inodes, blocks: Blocks, n: nat, lo: nat, hi: nat, s: Slot)
    requires InodesOk(inodes) && n in inodes && hi <= MAXFILE && InSpan(s, n, lo, hi)
    requires forall bn: nat | lo <= bn < hi :: Ref(inodes, blocks, FileSlot(n, bn)) != 0
    ensures SlotOk(inodes, s) && Ref(inodes, blocks, s) != 0
  {
    if s == IndirectBlock(n) { assert Ref(inodes, blocks, FileSlot(n, hi - 1)) != 0; }
  }

  /** A write that added blocks to [lo, cur] only and left cur unmapped on a full disk did not have the room for cur. */
  lemma HadNoRoom(bitmap: seq<bv8>, blocks: Blocks, inodes: Inodes, owner: map<nat, Slot>, bitmap': seq<bv8>,
                  blocks': Blocks, inodes': Inodes, owner': map<nat, Slot>, first: nat, size: nat, n: nat, lo: nat,
                  cur: nat, hi: nat)
    requires Grew(bitmap, blocks, inodes, owner, bitmap', blocks', inodes', owner', first, size) && n in inodes
    requires lo <= cur < hi <= MAXFILE && OwnsOnly(owner, owner', n, lo, cur + 1)
    requires Ref(inodes', blocks', FileSlot(n, cur)) == 0 && Free(bitmap', size) == 0
    ensures Free(bitmap, size) < Demand(inodes, blocks, n, lo, hi)
  {
    hide Grew, Bit, Free, Wanted, Ref, InSpan, OwnersOk, BitsOk;
    GrewKeys(bitmap, blocks, inodes, owner, bitmap', blocks', inodes', owner', first, size);
    var wanted, got, last := Wanted(inodes, blocks, n, lo, hi), Image(owner', Gained(owner, owner')), FileSlot(n, cur);
    forall s | s in got + {last} ensures s in wanted {
      if s in got {
        var b :| b in owner' && b !in owner && owner'[b] == s;
        assert InSpan(s, n, lo, cur + 1);
      }
      Wider(n, lo, cur, hi, s);
      WantedIff(inodes, blocks, n, lo, hi, s);
      FilledGained(bitmap, blocks, inodes, owner, bitmap', blocks', inodes', owner', first, size, s);
      StaysFilled(bitmap, blocks, inodes, owner, bitmap', blocks', inodes', owner', first, size, s);
    }
    assert last !in got by {
      assert SlotOk(inodes, last);
      FilledGained(bitmap, blocks, inodes, owner, bitmap', blocks', inodes', owner', first, size, last);
    }
    Smaller(got + {last}, wanted);
    assert |got + {last}| == |got| + 1;
    SpaceUsed(bitmap, blocks, inodes, owner, bitmap', blocks', inodes', owner', first, size);
  }

  lemma Wider(n: nat, lo: nat, cur: nat, hi: nat, s: Slot)
    requires lo <= cur < hi && (s == FileSlot(n, cur) || InSpan(s, n, lo, cur + 1))
    ensures InSpan(s, n, lo, hi)
  {
    if s == FileSlot(n, cur) { assert OneOf(s, n, lo, hi); }
    if OneOf(s, n, lo, cur + 1) {
      var bn: nat :| lo <= bn < cur + 1 && s == FileSlot(n, bn);
      assert OneOf(s, n, lo, hi);
    }
  }

  lemma StaysFilled(bitmap: seq<bv8>, blocks: Blocks, inodes: Inodes, owner: map<nat, Slot>, bitmap': seq<bv8>,
                    blocks': Blocks, inodes': Inodes, owner': map<nat, Slot>, first: nat, size: nat, s: Slot)
    requires Grew(bitmap, blocks, inodes, owner, bitmap', blocks', inodes', owner', first, size) && SlotOk(inodes, s)
    ensures Ref(inodes', blocks', s) == 0 ==> Ref(inodes, blocks, s) == 0
  {
    hide BitsOk, Bit;
    if Ref(inodes, blocks, s) != 0 { assert owner[Ref(inodes, blocks, s)] == s; }
  }

  /** Blocks gained belong to file blocks [lo, hi) of file n, or are the indirect block these need. */
  ghost predicate OwnsOnly(owner: map<nat, Slot>, owner': map<nat, Slot>, n: nat, lo: nat, hi: nat) {
    forall b | b in owner' && b !in owner :: InSpan(owner'[b], n, lo, hi)
  }

  lemma OwnsMore(owner: map<nat, Slot>, owner1: map<nat, Slot>, owner2: map<nat, Slot>, n: nat, lo: nat, hi: nat,
                 lo1: nat, hi1: nat)
    requires OwnsOnly(owner, owner1, n, lo, hi) && OwnsOnly(owner1, owner2, n, lo1, hi1) && lo <= lo1 && hi <= hi1
    requires forall b | b in owner1 :: b in owner2 && owner2[b] == owner1[b]
    ensures OwnsOnly(owner, owner2, n, lo, hi1)
  {
    forall b | b in owner2 && b !in owner ensures InSpan(owner2[b], n, lo, hi1) {
      var s := owner2[b];
      if b in owner1 {
        assert InSpan(s, n, lo, hi);
        SpanWider(s, n, lo, hi, lo, hi1);
      } else {
        SpanWider(s, n, lo1, hi1, lo, hi1);
      }
    }
  }

  lemma OwnsNone(owner: map<nat, Slot>, n: nat, lo: nat, hi: nat)
    ensures OwnsOnly(owner, owner, n, lo, hi)
  {}

  lemma OwnsWider(owner: map<nat, Slot>, owner': map<nat, Slot>, n: nat, lo: nat, hi: nat, hi': nat)
    requires OwnsOnly(owner, owner', n, lo, hi) && hi <= hi'
    ensures OwnsOnly(owner, owner', n, lo, hi')
  {
    forall b | b in owner' && b !in owner ensures InSpan(owner'[b], n, lo, hi') {
      SpanWider(owner'[b], n, lo, hi, lo, hi');
    }
  }

  lemma SpanWider(s: Slot, n: nat, lo: nat, hi: nat, lo1: nat, hi1: nat)
    requires InSpan(s, n, lo, hi) && lo1 <= lo && hi <= hi1
    ensures InSpan(s, n, lo1, hi1)
  {
    if OneOf(s, n, lo, hi) {
      var bn: nat :| lo <= bn < hi && s == FileSlot(n, bn);
      assert OneOf(s, n, lo1, hi1);
    }
  }

  lemma GrewKeys(bitmap: seq<bv8>, blocks: Blocks, inodes: Inodes, owner: map<nat, Slot>, bitmap': seq<bv8>,
                 blocks': Blocks, inodes': Inodes, owner': map<nat, Slot>, first: nat, size: nat)
    requires Grew(bitmap, blocks, inodes, owner, bitmap', blocks', inodes', owner', first, size)
    ensures InodesOk(inodes) && InodesOk(inodes') && inodes'.Keys == inodes.Keys
  {}

  /** Inside the part of the file that is mapped nothing is wanted. */
  lemma NoneWanted(inodes: Inodes, blocks: Blocks, n: nat, lo: nat, hi: nat)
    requires InodesOk(inodes) && n in inodes && hi <= MAXFILE
    requires forall bn: nat | lo <= bn < hi :: Ref(inodes, blocks, FileSlot(n, bn)) != 0
    ensures Demand(inodes, blocks, n, lo, hi) == 0
  {
    hide Ref, Wanted;
    forall s | s in Wanted(inodes, blocks, n, lo, hi) ensures false {
      WantedIff(inodes, blocks, n, lo, hi, s);
      SpanFilled(inodes, blocks, n, lo, hi, s);
    }
    assert Wanted(inodes, blocks, n, lo, hi) == {};
  }
}
