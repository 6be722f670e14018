/**
  The free list of user/umalloc.c: a circular singly linked list in address order, as maps
  from header addresses to header fields.  Addresses count Header-sized units.

  `ring` lists the free blocks in address order, starting with the permanent empty block
  `base`.  `owner` maps every unit obtained from the kernel to the header of the block that
  holds it, so that free and allocated blocks always partition those units exactly.
*/
module FreeList {
  type Fields = map<int, int>

  function Succ(ring: seq<int>, i: nat): int
    requires i < |ring|
  {
    if i + 1 < |ring| then ring[i + 1] else ring[0]
  }

  predicate Linked(ptr: Fields, ring: seq<int>) {
    && (forall i | 0 <= i < |ring| :: ring[i] in ptr)
    && (forall i {:trigger Succ(ring, i)} {:trigger ptr[ring[i]]} | 0 <= i < |ring| ::
          ptr[ring[i]] == Succ(ring, i))
  }

  predicate Sorted(ring: seq<int>) {
    forall i, j | 0 <= i < j < |ring| :: ring[i] < ring[j]
  }

  /** Free block i ends before free block i + 1 begins, with something in between. */
  predicate Apart(size: Fields, ring: seq<int>, i: int) {
    0 <= i < |ring| - 1 ==> ring[i] in size && ring[i] + size[ring[i]] < ring[i + 1]
  }

  /** No two free blocks touch. */
  predicate Spaced(size: Fields, ring: seq<int>) {
    forall i | 0 <= i < |ring| - 1 :: Apart(size, ring, i)
  }

  /** Block a is non-empty and owns exactly its own units. */
  predicate Owned(size: Fields, owner: Fields, a: int) {
    a in size && size[a] > 0 && forall u | a <= u < a + size[a] :: u in owner && owner[u] == a
  }

  ghost predicate Blocks(size: Fields, ring: seq<int>, used: set<int>, owner: Fields, base: int) {
    && |ring| > 0 && ring[0] == base && base in size && size[base] == 0
    && (forall i | 0 < i < |ring| :: Owned(size, owner, ring[i]))
    && (forall a | a in used :: Owned(size, owner, a) && a !in ring && a > base)
    && (forall u | u in owner ::
          && owner[u] in size && owner[u] <= u < owner[u] + size[owner[u]]
          && (owner[u] in used || owner[u] in ring) && owner[u] > base)
  }

  /** The free list and the allocated blocks are in order. */
  ghost predicate HeapOk(ptr: Fields, size: Fields, ring: seq<int>, used: set<int>, owner: Fields, base: int) {
    Linked(ptr, ring) && Sorted(ring) && Spaced(size, ring) && Blocks(size, ring, used, owner, base)
  }

  /** Distinct blocks, free or allocated, share no unit. */
  lemma BlocksDisjoint(size: Fields, ring: seq<int>, used: set<int>, owner: Fields, base: int, a: int, b: int)
    requires Blocks(size, ring, used, owner, base)
    requires (a in used || a in ring) && (b in used || b in ring) && a != b && a != base && b != base
    ensures a in size && b in size
    ensures a + size[a] <= b || b + size[b] <= a
  {
    assert Owned(size, owner, a) && Owned(size, owner, b);
    assert owner[a] == a && owner[b] == b;
  }

  // ---- Places in the ring ----

  /** Between ring[k] and its successor is where address bp belongs. */
  predicate Place(ring: seq<int>, bp: int, k: int) {
    && 0 <= k < |ring| && ring[k] < bp
    && (k + 1 < |ring| ==> bp < ring[k + 1])
  }

  lemma {:induction false} PlaceExists(ring: seq<int>, bp: int) returns (k: nat)
    requires |ring| > 0 && Sorted(ring) && ring[0] < bp && bp !in ring
    ensures Place(ring, bp, k)
  {
    k := |ring| - 1;
    while bp < ring[k]
      invariant k < |ring| && (k + 1 < |ring| ==> bp < ring[k + 1])
    {
      k := k - 1;
    }
  }

  /** The test that ends the search loop of free() holds at the right place and nowhere else. */
  lemma SearchStops(ptr: Fields, ring: seq<int>, bp: int, i: nat)
    requires Linked(ptr, ring) && Sorted(ring) && i < |ring| && bp > ring[0] && bp !in ring
    ensures var p, q := ring[i], ptr[ring[i]];
            (p < bp < q) || (p >= q && (bp > p || bp < q)) <==> Place(ring, bp, i)
  {}

  // ---- Changes to the ring ----

  function Inserted(ring: seq<int>, k: nat, a: int): (r: seq<int>)
    requires k < |ring|
    ensures |r| == |ring| + 1
    ensures forall i | 0 <= i < |r| :: r[i] == if i <= k then ring[i] else if i == k + 1 then a else ring[i - 1]
  {
    ring[..k + 1] + [a] + ring[k + 1..]
  }

  function Removed(ring: seq<int>, k: nat): (r: seq<int>)
    requires k < |ring|
    ensures |r| == |ring| - 1
    ensures forall i | 0 <= i < |r| :: r[i] == if i < k then ring[i] else ring[i + 1]
  {
    ring[..k] + ring[k + 1..]
  }

  lemma SortedRemoved(ring: seq<int>, k: nat)
    requires Sorted(ring) && k < |ring|
    ensures Sorted(Removed(ring, k))
  {}

  lemma SortedInserted(ring: seq<int>, k: nat, a: int)
    requires Sorted(ring) && Place(ring, a, k)
    ensures Sorted(Inserted(ring, k, a))
  {}

  /** Only ring[k] is ring[k]. */
  predicate Alone(ring: seq<int>, k: nat) {
    k < |ring| && forall i | 0 <= i < |ring| && i != k :: ring[i] != ring[k]
  }

  lemma LinkInserted(ptr: Fields, ring: seq<int>, k: nat, a: int)
    requires Linked(ptr, ring) && k < |ring| && Alone(ring, k) && a !in ring
    ensures Linked(ptr[a := Succ(ring, k)][ring[k] := a], Inserted(ring, k, a))
  {
    var ring' := Inserted(ring, k, a);
    var ptr' := ptr[a := Succ(ring, k)][ring[k] := a];
    forall i | 0 <= i < |ring'| ensures ring'[i] in ptr' && ptr'[ring'[i]] == Succ(ring', i) {
      if i < k {
        assert ring'[i] == ring[i];
      } else if i > k + 1 {
        assert ring'[i] == ring[i - 1];
      }
    }
  }

  lemma LinkRemoved(ptr: Fields, ring: seq<int>, k: nat)
    requires Linked(ptr, ring) && 0 < k < |ring| && Alone(ring, k - 1)
    ensures Linked(ptr[ring[k - 1] := ptr[ring[k]]], Removed(ring, k))
  {
    var ring' := Removed(ring, k);
    var ptr' := ptr[ring[k - 1] := ptr[ring[k]]];
    forall i | 0 <= i < |ring'| ensures ring'[i] in ptr' && ptr'[ring'[i]] == Succ(ring', i) {
      if i < k {
        assert ring'[i] == ring[i];
      } else {
        assert ring'[i] == ring[i + 1];
      }
    }
  }

  lemma LinkReplaced(ptr: Fields, ring: seq<int>, k: nat, a: int)
    requires Linked(ptr, ring) && k + 1 < |ring| && Alone(ring, k) && a !in ring
    ensures Linked(ptr[a := ptr[ring[k + 1]]][ring[k] := a], ring[k + 1 := a])
  {
    var ring' := ring[k + 1 := a];
    var ptr' := ptr[a := ptr[ring[k + 1]]][ring[k] := a];
    forall i | 0 <= i < |ring'| ensures ring'[i] in ptr' && ptr'[ring'[i]] == Succ(ring', i) {
      if i != k + 1 {
        assert ring'[i] == ring[i] != a;
      }
    }
  }

  // ---- Changes to the blocks ----

  /** The allocated block bp becomes a free block of its own. */
  lemma BlocksInserted(size: Fields, ring: seq<int>, used: set<int>, owner: Fields, base: int, k: nat, bp: int)
    requires Blocks(size, ring, used, owner, base) && bp in used && k < |ring|
    ensures Blocks(size, Inserted(ring, k, bp), used - {bp}, owner, base)
  {
    var ring' := Inserted(ring, k, bp);
    forall a ensures a in ring' <==> a == bp || a in ring {
      if a in ring {
        var i :| 0 <= i < |ring| && ring[i] == a;
        assert ring'[if i <= k then i else i + 1] == a;
      }
      assert ring'[k + 1] == bp;
    }
  }

  function Reowned(owner: Fields, a: int, b: int): Fields {
    map u | u in owner :: if owner[u] == a then b else owner[u]
  }

  /** Giving the units of b to a, which ends where b begins, keeps every other block as it was. */
  lemma OwnedMerged(size: Fields, owner: Fields, a: int, b: int, x: int)
    requires Owned(size, owner, a) && Owned(size, owner, b) && Owned(size, owner, x) && x != b && a + size[a] == b
    ensures Owned(size[a := size[a] + size[b]], Reowned(owner, b, a), x)
  {}

  lemma InRemoved(ring: seq<int>, k: nat, x: int)
    requires k < |ring| && Alone(ring, k)
    ensures x in Removed(ring, k) <==> x in ring && x != ring[k]
  {
    if x in ring && x != ring[k] {
      var i :| 0 <= i < |ring| && ring[i] == x;
      assert Removed(ring, k)[if i < k then i else i - 1] == x;
    }
  }

  /** Two touching neighbours become one block. */
  lemma BlocksMerged(size: Fields, ring: seq<int>, used: set<int>, owner: Fields, base: int, j: nat)
    requires Blocks(size, ring, used, owner, base) && Alone(ring, j + 1) && 0 < j < |ring| - 1
    requires ring[j] + size[ring[j]] == ring[j + 1]
    ensures var a, b := ring[j], ring[j + 1];
            Blocks(size[a := size[a] + size[b]], Removed(ring, j + 1), used, Reowned(owner, b, a), base)
  {
    var a, b := ring[j], ring[j + 1];
    var size', owner', ring' := size[a := size[a] + size[b]], Reowned(owner, b, a), Removed(ring, j + 1);
    assert Owned(size, owner, a) && Owned(size, owner, b) && a != b;
    forall x ensures x in ring' <==> x in ring && x != b { InRemoved(ring, j + 1, x); }
    forall i | 0 < i < |ring'| ensures Owned(size', owner', ring'[i]) {
      OwnedMerged(size, owner, a, b, ring'[i]);
    }
    forall x | x in used ensures Owned(size', owner', x) && x !in ring' {
      OwnedMerged(size, owner, a, b, x);
    }
    assert a in ring' && a > base by { assert owner[a] == a; }
    assert base != a;
  }

  lemma SpacedInserted(size: Fields, ring: seq<int>, k: nat, bp: int)
    requires Spaced(size, ring) && k < |ring| && ring[k] in size && bp in size
    requires ring[k] + size[ring[k]] < bp && (k + 1 < |ring| ==> bp + size[bp] < ring[k + 1])
    ensures Spaced(size, Inserted(ring, k, bp))
  {
    var ring' := Inserted(ring, k, bp);
    forall i | 0 <= i < |ring'| - 1 ensures Apart(size, ring', i) {
      assert i < k ==> Apart(size, ring, i);
      assert i > k + 1 ==> Apart(size, ring, i - 1);
    }
  }

  lemma SpacedUpper(size: Fields, ring: seq<int>, k: nat, bp: int)
    requires Spaced(size, ring) && k + 1 < |ring| && ring[k] in size && ring[k + 1] in size && bp in size
    requires ring[k] + size[ring[k]] < bp && bp + size[bp] == ring[k + 1] && bp !in ring
    ensures Spaced(size[bp := size[bp] + size[ring[k + 1]]], ring[k + 1 := bp])
  {
    var size', ring' := size[bp := size[bp] + size[ring[k + 1]]], ring[k + 1 := bp];
    forall i | 0 <= i < |ring'| - 1 ensures Apart(size', ring', i) {
      assert i != k ==> Apart(size, ring, i);
    }
  }

  lemma SpacedLower(size: Fields, ring: seq<int>, k: nat, bp: int)
    requires Spaced(size, ring) && Alone(ring, k) && ring[k] in size && bp in size
    requires ring[k] + size[ring[k]] == bp && (k + 1 < |ring| ==> bp + size[bp] < ring[k + 1])
    ensures Spaced(size[ring[k] := size[ring[k]] + size[bp]], ring)
  {
    var size' := size[ring[k] := size[ring[k]] + size[bp]];
    forall i | 0 <= i < |ring| - 1 ensures Apart(size', ring, i) {
      assert i != k ==> Apart(size, ring, i);
    }
  }

  lemma SpacedBoth(size: Fields, ring: seq<int>, k: nat, bp: int, b: int)
    requires Spaced(size, ring) && k + 1 < |ring| && Alone(ring, k) && bp !in ring
    requires ring[k] in size && ring[k + 1] in size && bp in size
    requires ring[k] + size[ring[k]] == bp && bp + size[bp] == ring[k + 1]
    ensures Spaced(size[bp := b][ring[k] := size[ring[k]] + (size[bp] + size[ring[k + 1]])], Removed(ring, k + 1))
  {
    var size' := size[bp := b][ring[k] := size[ring[k]] + (size[bp] + size[ring[k + 1]])];
    var ring' := Removed(ring, k + 1);
    forall i | 0 <= i < |ring'| - 1 ensures Apart(size', ring', i) {
      assert Apart(size, ring, if i < k then i else i + 1);
    }
  }

  // ---- What free() does, case by case ----

  /** A heap in which the allocated block bp is about to be freed after ring[k]. */
  ghost predicate FreeAt(ptr: Fields, size: Fields, ring: seq<int>, used: set<int>, owner: Fields, base: int, k: nat,
                         bp: int)
  {
    HeapOk(ptr, size, ring, used, owner, base) && bp in used && Place(ring, bp, k)
  }

  lemma FreeFacts(ptr: Fields, size: Fields, ring: seq<int>, used: set<int>, owner: Fields, base: int, k: nat, bp: int)
    requires FreeAt(ptr, size, ring, used, owner, base, k, bp)
    ensures bp !in ring && bp in size && ring[k] >= base && ring[k] in size && ring[k] in ptr
    ensures ptr[ring[k]] == Succ(ring, k)
    ensures forall i | 0 <= i < |ring| :: Alone(ring, i) && ring[i] in size && ring[i] in ptr
    ensures forall i | 0 <= i < |ring| + 1 :: Alone(Inserted(ring, k, bp), i) && Inserted(ring, k, bp)[i] in size
    ensures Sorted(Inserted(ring, k, bp)) && Blocks(size, Inserted(ring, k, bp), used - {bp}, owner, base)
    ensures ring[k] + size[ring[k]] == bp ==> k > 0
    ensures bp + size[bp] == Succ(ring, k) ==> k + 1 < |ring|
  {
    assert Owned(size, owner, bp);
    forall i | 0 <= i < |ring| ensures ring[i] in size {
      if i > 0 { assert Owned(size, owner, ring[i]); }
    }
    SortedInserted(ring, k, bp);
    BlocksInserted(size, ring, used, owner, base, k, bp);
  }

  /** The freed block lies between its neighbours, possibly touching them. */
  lemma FreeNear(ptr: Fields, size: Fields, ring: seq<int>, used: set<int>, owner: Fields, base: int, k: nat, bp: int)
    requires FreeAt(ptr, size, ring, used, owner, base, k, bp)
    ensures ring[k] in size && bp in size && ring[k] + size[ring[k]] <= bp
    ensures k + 1 < |ring| ==> bp + size[bp] <= ring[k + 1]
  {
    if k > 0 { BlocksDisjoint(size, ring, used, owner, base, ring[k], bp); }
    if k + 1 < |ring| { BlocksDisjoint(size, ring, used, owner, base, ring[k + 1], bp); }
  }

  lemma FreeNeither(ptr: Fields, size: Fields, ring: seq<int>, used: set<int>, owner: Fields, base: int, k: nat,
                    bp: int)
    requires FreeAt(ptr, size, ring, used, owner, base, k, bp)
    requires bp + size[bp] != Succ(ring, k) && ring[k] + size[ring[k]] != bp
    ensures HeapOk(ptr[bp := Succ(ring, k)][ring[k] := bp], size, Inserted(ring, k, bp), used - {bp}, owner, base)
  {
    hide Blocks, Owned, Linked, Sorted, Spaced;
    FreeFacts(ptr, size, ring, used, owner, base, k, bp);
    FreeNear(ptr, size, ring, used, owner, base, k, bp);
    LinkInserted(ptr, ring, k, bp);
    SpacedInserted(size, ring, k, bp);
  }

  /** bp absorbs the block after it. */
  lemma FreeUpper(ptr: Fields, size: Fields, ring: seq<int>, used: set<int>, owner: Fields, base: int, k: nat, bp: int)
    requires FreeAt(ptr, size, ring, used, owner, base, k, bp)
    requires bp + size[bp] == Succ(ring, k) && ring[k] + size[ring[k]] != bp
    ensures k + 1 < |ring|
    ensures var q := ring[k + 1];
            HeapOk(ptr[bp := ptr[q]][ring[k] := bp], size[bp := size[bp] + size[q]],
                   ring[k + 1 := bp], used - {bp}, Reowned(owner, q, bp), base)
  {
    hide Blocks, Owned, Linked, Sorted, Spaced;
    FreeFacts(ptr, size, ring, used, owner, base, k, bp);
    FreeNear(ptr, size, ring, used, owner, base, k, bp);
    var ring1 := Inserted(ring, k, bp);
    RingSteps(ring, k, bp);
    LinkReplaced(ptr, ring, k, bp);
    SortedRemoved(ring1, k + 2);
    BlocksMerged(size, ring1, used - {bp}, owner, base, k + 1);
    SpacedUpper(size, ring, k, bp);
  }

  /** The block before bp absorbs it. */
  lemma FreeLower(ptr: Fields, size: Fields, ring: seq<int>, used: set<int>, owner: Fields, base: int, k: nat, bp: int)
    requires FreeAt(ptr, size, ring, used, owner, base, k, bp)
    requires bp + size[bp] != Succ(ring, k) && ring[k] + size[ring[k]] == bp
    ensures var p := ring[k];
            HeapOk(ptr[bp := Succ(ring, k)][p := Succ(ring, k)], size[p := size[p] + size[bp]],
                   ring, used - {bp}, Reowned(owner, bp, p), base)
  {
    hide Blocks, Owned, Linked, Sorted, Spaced;
    FreeFacts(ptr, size, ring, used, owner, base, k, bp);
    FreeNear(ptr, size, ring, used, owner, base, k, bp);
    LinkSame(ptr, ring, k, bp);
    var ring1 := Inserted(ring, k, bp);
    assert Removed(ring1, k + 1) == ring;
    BlocksMerged(size, ring1, used - {bp}, owner, base, k);
    SpacedLower(size, ring, k, bp);
  }

  lemma LinkSame(ptr: Fields, ring: seq<int>, k: nat, bp: int)
    requires Linked(ptr, ring) && k < |ring| && bp !in ring
    ensures Linked(ptr[bp := Succ(ring, k)][ring[k] := Succ(ring, k)], ring)
  {}

  lemma LinkExtra(ptr: Fields, ring: seq<int>, bp: int, x: int)
    requires Linked(ptr, ring) && bp !in ring
    ensures Linked(ptr[bp := x], ring)
  {}

  /** Inserting bp behind ring[k] and then dropping its neighbours one by one. */
  lemma RingSteps(ring: seq<int>, k: nat, bp: int)
    requires k + 1 < |ring|
    ensures Removed(Inserted(ring, k, bp), k + 2) == ring[k + 1 := bp]
    ensures Removed(ring[k + 1 := bp], k + 1) == Removed(ring, k + 1)
  {}

  /** All three become one block. */
  lemma FreeBoth(ptr: Fields, size: Fields, ring: seq<int>, used: set<int>, owner: Fields, base: int, k: nat, bp: int)
    requires FreeAt(ptr, size, ring, used, owner, base, k, bp)
    requires bp + size[bp] == Succ(ring, k) && ring[k] + size[ring[k]] == bp
    ensures k + 1 < |ring|
    ensures var p, q := ring[k], ring[k + 1];
            HeapOk(ptr[bp := ptr[q]][p := ptr[q]],
                   size[bp := size[bp] + size[q]][p := size[p] + (size[bp] + size[q])],
                   Removed(ring, k + 1), used - {bp}, Reowned(Reowned(owner, q, bp), bp, p), base)
  {
    hide Blocks, Owned, Linked, Sorted, Spaced;
    FreeFacts(ptr, size, ring, used, owner, base, k, bp);
    var p, q := ring[k], ring[k + 1];
    var ring1 := Inserted(ring, k, bp);
    var ring2, size2 := ring[k + 1 := bp], size[bp := size[bp] + size[q]];
    RingSteps(ring, k, bp);
    LinkExtra(ptr, ring, bp, ptr[q]);
    LinkRemoved(ptr[bp := ptr[q]], ring, k + 1);
    SortedRemoved(ring, k + 1);
    BlocksMerged(size, ring1, used - {bp}, owner, base, k + 1);
    BlocksMerged(size2, ring2, used - {bp}, Reowned(owner, q, bp), base, k);
    SpacedBoth(size, ring, k, bp, size[bp] + size[q]);
  }
}
