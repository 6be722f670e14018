/** The Kernighan-Ritchie storage allocator of user/umalloc.c. */
module Malloc {
  import opened FreeList

  const HEADER: nat := 16      // sizeof(Header)
  const MINUNITS: nat := 4096
  const MAX_ASK: nat := 0x7FFF_FFE0 // 2^31 - 32

  // ---- Requests ----

  /** nunits of malloc(): the request in Header units, plus one for the header. */
  function Units(nbytes: nat): (n: nat)
    ensures n >= 1 && (n - 1) * HEADER >= nbytes && (nbytes > 0 ==> (n - 2) * HEADER < nbytes)
  {
    (nbytes + HEADER - 1) / HEADER + 1
  }

  /** The value that reaches sbrk(int) when morecore() asks for nu units. */
  function SbrkArg(nu: nat): int {
    var low := (nu * HEADER) % 0x1_0000_0000;
    if low < 0x8000_0000 then low else low - 0x1_0000_0000
  }

  function CoreUnits(nu: nat): nat {
    if nu < MINUNITS then MINUNITS else nu
  }

  /**
    The bytes morecore() needs reach sbrk() unchanged exactly when they fit its signed 32-bit
    argument, that is for requests of up to 2^31 - 32 bytes.
  */
  lemma SbrkGrantsRequest(nbytes: nat)
    requires nbytes < 0x1_0000_0000
    ensures SbrkArg(CoreUnits(Units(nbytes))) == CoreUnits(Units(nbytes)) * HEADER <==> nbytes <= MAX_ASK
  {}

  /** Above it the process is asked to shrink, but for the largest requests, which ask for 0 or 16 bytes. */
  lemma SbrkWraps(nbytes: nat)
    requires MAX_ASK < nbytes < 0x1_0000_0000
    ensures SbrkArg(CoreUnits(Units(nbytes))) == Units(nbytes) * HEADER - 0x1_0000_0000
    ensures SbrkArg(CoreUnits(Units(nbytes))) < 0 <==> nbytes < 0xFFFF_FFE1
    ensures nbytes >= 0xFFFF_FFE1 ==> SbrkArg(CoreUnits(Units(nbytes))) in {0, 16}
  {}

  /** One byte more and the heap is asked to shrink. */
  lemma SbrkShrinks()
    ensures SbrkArg(CoreUnits(Units(MAX_ASK + 1))) == -0x8000_0000
  {}

  // ---- Taking a block ----

  /** Taking all of ring[j]. */
  lemma AllocExact(ptr: Fields, size: Fields, ring: seq<int>, used: set<int>, owner: Fields, base: int, j: nat)
    requires HeapOk(ptr, size, ring, used, owner, base) && 0 < j < |ring|
    ensures ring[j] in size && size[ring[j]] > 0 && ring[j] !in used && ring[j] > base
    ensures HeapOk(ptr[ring[j - 1] := ptr[ring[j]]], size, Removed(ring, j), used + {ring[j]}, owner, base)
  {
    hide Blocks, Owned, Linked, Sorted, Spaced, Apart, Removed, Alone;
    RingFacts(size, ring, used, owner, base, j);
    NextAfter(ring, j);
    LinkRemoved(ptr, ring, j);
    SortedRemoved(ring, j);
    SpacedRemoved(size, ring, j);
    BlocksRemoved(size, ring, used, owner, base, j);
  }

  lemma NextAfter(ring: seq<int>, j: nat)
    requires Sorted(ring) && 0 < j < |ring|
    ensures j + 1 < |ring| ==> ring[j] < ring[j + 1]
    ensures Alone(ring, j - 1) && Alone(ring, j)
  {}

  lemma RingFacts(size: Fields, ring: seq<int>, used: set<int>, owner: Fields, base: int, j: nat)
    requires Blocks(size, ring, used, owner, base) && 0 < j < |ring|
    ensures ring[j] in size && size[ring[j]] > 0 && ring[j] !in used && ring[j] > base
  {
    assert Owned(size, owner, ring[j]);
    assert ring[j] in owner && owner[ring[j]] == ring[j];
  }

  /** The block taken is allocated now. */
  lemma BlocksRemoved(size: Fields, ring: seq<int>, used: set<int>, owner: Fields, base: int, j: nat)
    requires Blocks(size, ring, used, owner, base) && Sorted(ring) && 0 < j < |ring|
    ensures Blocks(size, Removed(ring, j), used + {ring[j]}, owner, base)
  {
    hide Owned;
    RingFacts(size, ring, used, owner, base, j);
    var ring' := Removed(ring, j);
    forall x ensures x in ring' <==> x in ring && x != ring[j] { InRemoved(ring, j, x); }
    forall i | 0 < i < |ring'| ensures Owned(size, owner, ring'[i]) {
      assert ring'[i] in ring;
    }
  }

  lemma SpacedRemoved(size: Fields, ring: seq<int>, j: nat)
    requires Spaced(size, ring) && 0 < j < |ring| && (j + 1 < |ring| ==> ring[j] < ring[j + 1])
    ensures Spaced(size, Removed(ring, j))
  {
    var ring' := Removed(ring, j);
    forall i | 0 <= i < |ring'| - 1 ensures Apart(size, ring', i) {
      assert Apart(size, ring, if i < j then i else i + 1);
    }
  }

  function Given(owner: Fields, b: int, n: nat): Fields {
    map u | u in owner :: if b <= u < b + n then b else owner[u]
  }

  /** Cutting n units off the end of ring[j]. */
  lemma AllocSplit(ptr: Fields, size: Fields, ring: seq<int>, used: set<int>, owner: Fields, base: int, j: nat, n: nat)
    requires HeapOk(ptr, size, ring, used, owner, base) && 0 < j < |ring|
    requires ring[j] in size && 0 < n < size[ring[j]]
    ensures var a, b := ring[j], ring[j] + size[ring[j]] - n;
            && b !in used && b > base
            && HeapOk(ptr, size[a := size[a] - n][b := n], ring, used + {b}, Given(owner, b, n), base)
  {
    var a, b := ring[j], ring[j] + size[ring[j]] - n;
    var size', owner' := size[a := size[a] - n][b := n], Given(owner, b, n);
    assert Owned(size, owner, a);
    assert owner[b] == a;
    assert b !in ring by {
      forall i | 0 <= i < |ring| ensures ring[i] != b {
        if i > 0 { assert Owned(size, owner, ring[i]); }
      }
    }
    assert b in used ==> Owned(size, owner, b);
    SplitOwned(size, ring, used, owner, base, j, n);
    forall i | 0 <= i < |ring| - 1 ensures Apart(size', ring, i) {
      assert Apart(size, ring, i);
    }
  }

  predicate OwnerSplit(size: Fields, ring: seq<int>, used: set<int>, owner: Fields, base: int, u: int)
    requires u in owner
  {
    && owner[u] in size && owner[u] <= u < owner[u] + size[owner[u]]
    && (owner[u] in used || owner[u] in ring) && owner[u] > base
  }

  /** Every unit of the cut block now belongs to one of its parts. */
  lemma SplitOwner(size: Fields, ring: seq<int>, used: set<int>, owner: Fields, base: int, j: nat, n: nat, u: int)
    requires Blocks(size, ring, used, owner, base) && 0 < j < |ring| && u in owner
    requires ring[j] in size && 0 < n < size[ring[j]] && ring[j] > base && Owned(size, owner, ring[j])
    requires ring[j] + size[ring[j]] - n !in ring && ring[j] + size[ring[j]] - n !in used
    ensures var a, b := ring[j], ring[j] + size[ring[j]] - n;
            OwnerSplit(size[a := size[a] - n][b := n], ring, used + {b}, Given(owner, b, n), base, u)
  {
    assert owner[u] in size && owner[u] <= u < owner[u] + size[owner[u]];
  }

  lemma SplitOwned(size: Fields, ring: seq<int>, used: set<int>, owner: Fields, base: int, j: nat, n: nat)
    requires Blocks(size, ring, used, owner, base) && Sorted(ring) && 0 < j < |ring|
    requires ring[j] in size && 0 < n < size[ring[j]]
    requires ring[j] + size[ring[j]] - n !in ring && ring[j] + size[ring[j]] - n !in used
    ensures var a, b := ring[j], ring[j] + size[ring[j]] - n;
            Blocks(size[a := size[a] - n][b := n], ring, used + {b}, Given(owner, b, n), base)
  {
    hide Owned, Given;
    var a, b := ring[j], ring[j] + size[ring[j]] - n;
    var size', owner' := size[a := size[a] - n][b := n], Given(owner, b, n);
    assert Owned(size, owner, a);
    SplitNew(size, owner, base, a, n, ring, used);
    forall u | u in owner' ensures OwnerSplit(size', ring, used + {b}, owner', base, u) {
      SplitOwner(size, ring, used, owner, base, j, n, u);
    }
    forall i | 0 < i < |ring| ensures Owned(size', owner', ring[i]) {
      SplitKeeps(size, owner, a, n, ring[i]);
    }
    forall x | x in used ensures Owned(size', owner', x) {
      SplitKeeps(size, owner, a, n, x);
    }
  }

  lemma SplitNew(size: Fields, owner: Fields, base: int, a: int, n: nat, ring: seq<int>, used: set<int>)
    requires Blocks(size, ring, used, owner, base) && Owned(size, owner, a) && 0 < n < size[a]
    ensures a > base && Given(owner, a + size[a] - n, n).Keys == owner.Keys
    ensures Owned(size[a := size[a] - n][a + size[a] - n := n], Given(owner, a + size[a] - n, n), a + size[a] - n)
  {
    assert owner[a] == a;
  }

  lemma SplitKeeps(size: Fields, owner: Fields, a: int, n: nat, x: int)
    requires Owned(size, owner, a) && Owned(size, owner, x) && 0 < n < size[a] && x != a + size[a] - n
    ensures Owned(size[a := size[a] - n][a + size[a] - n := n], Given(owner, a + size[a] - n, n), x)
  {
    assert owner[a + size[a] - n] == a;
  }

  function Core(p: int, n: nat): (r: Fields)
    ensures forall u :: u in r <==> p <= u < p + n
    ensures forall u | u in r :: r[u] == p
  {
    if n == 0 then map[] else Core(p, n - 1)[p + n - 1 := p]
  }

  /** Memory fresh from sbrk, as one allocated block. */
  lemma AddCore(ptr: Fields, size: Fields, ring: seq<int>, used: set<int>, owner: Fields, base: int, p: int, n: nat)
    requires HeapOk(ptr, size, ring, used, owner, base) && p > base && n > 0
    requires forall u | u in owner :: !(p <= u < p + n)
    ensures p !in ring && HeapOk(ptr, size[p := n], ring, used + {p}, owner + Core(p, n), base)
  {
    var size', owner' := size[p := n], owner + Core(p, n);
    forall i | 0 < i < |ring| ensures ring[i] != p && Owned(size', owner', ring[i]) {
      CoreKeeps(size, owner, p, n, ring[i]);
    }
    forall x | x in used ensures x != p && Owned(size', owner', x) {
      CoreKeeps(size, owner, p, n, x);
    }
    assert Owned(size', owner', p);
    forall i | 0 <= i < |ring| - 1 ensures Apart(size', ring, i) { assert Apart(size, ring, i); }
  }

  lemma CoreKeeps(size: Fields, owner: Fields, p: int, n: nat, x: int)
    requires Owned(size, owner, x) && n > 0 && forall u | u in owner :: !(p <= u < p + n)
    ensures x != p && Owned(size[p := n], owner + Core(p, n), x)
  {
    assert x in owner;
  }

  // ---- Going around the ring ----

  /** The free blocks in the order malloc() visits them, starting after ring[s] and ending with it. */
  function Tour(ring: seq<int>, s: nat): (t: seq<int>)
    requires s < |ring|
    ensures |t| == |ring| && t[|ring| - 1] == ring[s]
  {
    ring[s + 1..] + ring[..s + 1]
  }

  lemma TourStep(ptr: Fields, ring: seq<int>, s: nat, c: nat)
    requires Linked(ptr, ring) && s < |ring| && c < |ring|
    ensures Tour(ring, s)[c] in ring && Tour(ring, s)[c] in ptr
    ensures c + 1 < |ring| ==> ptr[Tour(ring, s)[c]] == Tour(ring, s)[c + 1]
    ensures ptr[ring[s]] == Tour(ring, s)[0]
  {
    var i := if c < |ring| - s - 1 then s + 1 + c else c - (|ring| - s - 1);
    assert Tour(ring, s)[c] == ring[i];
    assert ptr[ring[i]] == Succ(ring, i);
    assert ptr[ring[s]] == Succ(ring, s);
  }

  lemma TourCovers(ring: seq<int>, s: nat, x: int)
    requires s < |ring| && x in ring
    ensures x in Tour(ring, s)
  {
    var i :| 0 <= i < |ring| && ring[i] == x;
    assert Tour(ring, s)[if i > s then i - s - 1 else i + |ring| - s - 1] == x;
  }

  /** freep comes up only at the end of the tour. */
  lemma TourEnds(ring: seq<int>, s: nat, c: nat)
    requires Sorted(ring) && s < |ring| && c < |ring| && Tour(ring, s)[c] == ring[s]
    ensures c == |ring| - 1
  {}

  lemma PredecessorIndex(ptr: Fields, ring: seq<int>, i: nat, j: nat)
    requires Linked(ptr, ring) && Sorted(ring) && i < |ring| && 0 < j < |ring| && ptr[ring[i]] == ring[j]
    ensures i == j - 1
  {
    assert Succ(ring, i) == ring[j];
  }

  datatype Grant = Refused | Granted(p: int) // what sbrk() answers if asked

  class Heap {
    const base: int
    var freep: int // 0 before the first malloc
    var ptr: Fields
    var size: Fields
    ghost var ring: seq<int>
    ghost var used: set<int>
    ghost var owner: Fields

    constructor (base: int)
      requires base > 0
      ensures Valid() && this.base == base && used == {} && owner == map[]
    {
      this.base := base;
      freep, ptr, size := 0, map[], map[];
      ring, used, owner := [], {}, map[];
    }

    ghost predicate Valid()
      reads this
    {
      && base > 0
      && if freep == 0 then ring == [] && used == {} && owner == map[]
         else HeapOk(ptr, size, ring, used, owner, base) && freep in ring
    }

    /** The search loop of free(). */
    method FindPlace(bp: int) returns (p: int, ghost k: nat)
      requires Valid() && bp in used
      ensures FreeAt(ptr, size, ring, used, owner, base, k, bp) && p == ring[k]
    {
      assert Owned(size, owner, bp);
      hide Blocks, Spaced;
      ghost var g := PlaceExists(ring, bp);
      k :| 0 <= k < |ring| && ring[k] == freep;
      p := freep;
      while !(bp > p && bp < ptr[p])
        invariant k < |ring| && p == ring[k] && p in ptr
        decreases if k <= g then g - k else |ring| - k + g
      {
        SearchStops(ptr, ring, bp, k);
        if p >= ptr[p] && (bp > p || bp < ptr[p]) {
          break;
        }
        assert !Place(ring, bp, k) && k != g;
        assert ptr[ring[k]] == Succ(ring, k);
        p := ptr[p];
        k := if k + 1 < |ring| then k + 1 else 0;
      }
      SearchStops(ptr, ring, bp, k);
    }

    /**
      Return the allocated block with header bp.  No unit is lost or gained, every other allocated
      block keeps its extent, and the freed units are part of one free block.
    */
    method Free(bp: int)
      requires Valid() && bp in used
      modifies this
      ensures Valid() && freep != 0 && used == old(used) - {bp}
      ensures FreedFrom(old(size), old(used), old(owner), size, ring, owner, bp)
    {
      hide Blocks, Spaced, Sorted, Linked, Owned;
      FreedUnits(size, ring, used, owner, base, bp);
      var p, k := FindPlace(bp);
      FreeFacts(ptr, size, ring, used, owner, base, k, bp);
      if bp + size[bp] == ptr[p] {
        JoinUpper(bp, p, k);
      } else {
        JoinNone(bp, p, k);
      }
      freep := p;
    }

    /** The rest of free() when bp touches the block after it: join that block, then perhaps p. */
    method JoinUpper(bp: int, p: int, ghost k: nat)
      requires FreeAt(ptr, size, ring, used, owner, base, k, bp) && p == ring[k] && bp + size[bp] == ptr[p]
      modifies this`ptr, this`size, this`ring, this`used, this`owner
      ensures HeapOk(ptr, size, ring, used, owner, base) && p in ring && used == old(used) - {bp}
      ensures FreedFrom(old(size), old(used), old(owner), size, ring, owner, bp)
    {
      hide Blocks, Spaced, Sorted, Linked, Owned, Reowned, Removed, FreedFrom;
      FreeFacts(ptr, size, ring, used, owner, base, k, bp);
      FreedUnits(size, ring, used, owner, base, bp);
      ghost var q := Succ(ring, k);
      if p + size[p] == bp {
        FreeBoth(ptr, size, ring, used, owner, base, k, bp);
        JoinedBoth(size, ring, used, owner, base, k, bp);
        ring, owner := Removed(ring, k + 1), Reowned(Reowned(owner, q, bp), bp, p);
      } else {
        FreeUpper(ptr, size, ring, used, owner, base, k, bp);
        JoinedUpper(size, ring, used, owner, base, k, bp);
        ring, owner := ring[k + 1 := bp], Reowned(owner, q, bp);
        assert ring[k + 1] == bp;
      }
      assert ring[k] == p;
      size, ptr := size[bp := size[bp] + size[ptr[p]]], ptr[bp := ptr[ptr[p]]];
      if p + size[p] == bp {
        size, ptr := size[p := size[p] + size[bp]], ptr[p := ptr[bp]];
      } else {
        ptr := ptr[p := bp];
      }
      used := used - {bp};
    }

    /** The rest of free() when bp does not touch the block after it. */
    method JoinNone(bp: int, p: int, ghost k: nat)
      requires FreeAt(ptr, size, ring, used, owner, base, k, bp) && p == ring[k] && bp + size[bp] != ptr[p]
      modifies this`ptr, this`size, this`ring, this`used, this`owner
      ensures HeapOk(ptr, size, ring, used, owner, base) && p in ring && used == old(used) - {bp}
      ensures FreedFrom(old(size), old(used), old(owner), size, ring, owner, bp)
    {
      hide Blocks, Spaced, Sorted, Linked, Owned;
      FreeFacts(ptr, size, ring, used, owner, base, k, bp);
      FreedUnits(size, ring, used, owner, base, bp);
      if p + size[p] == bp {
        FreeLower(ptr, size, ring, used, owner, base, k, bp);
        owner := Reowned(owner, bp, p);
      } else {
        FreeNeither(ptr, size, ring, used, owner, base, k, bp);
        ring := Inserted(ring, k, bp);
        assert ring[k + 1] == bp;
      }
      assert ring[k] == p;
      ptr := ptr[bp := ptr[p]];
      if p + size[p] == bp {
        size, ptr := size[p := size[p] + size[bp]], ptr[p := ptr[bp]];
      } else {
        ptr := ptr[p := bp];
      }
      used := used - {bp};
    }

    /** Ask the kernel for room for nu units and put it on the free list. */
    method Morecore(nu: nat, grant: Grant) returns (ok: bool)
      requires Valid() && freep != 0
      requires grant.Granted? ==> Fresh(owner, base, grant.p, CoreUnits(nu))
      modifies this
      ensures Valid() && freep != 0 && used == old(used) && ok == grant.Granted?
      ensures forall a | a in used :: a in size && a in old(size) && size[a] == old(size)[a]
      ensures if ok then owner.Keys == old(owner).Keys + Core(grant.p, CoreUnits(nu)).Keys
              else && ptr == old(ptr) && size == old(size) && ring == old(ring)
                   && owner == old(owner) && freep == old(freep)
      ensures ok ==> grant.p in owner && owner[grant.p] in ring && owner[grant.p] in size
                     && size[owner[grant.p]] >= CoreUnits(nu)
    {
      hide Blocks, Spaced, Sorted, Linked, Owned;
      if grant == Refused {
        AllocatedSizes(size, ring, used, owner, base);
        return false;
      }
      var hp, n := grant.p, CoreUnits(nu);
      AddCore(ptr, size, ring, used, owner, base, hp, n);
      AllocatedSizes(size, ring, used, owner, base);
      CoreNotUsed(size, ring, used, owner, base, hp, n);
      size := size[hp := n];
      used, owner := used + {hp}, owner + Core(hp, n);
      Free(hp);
      ok := true;
    }

    /** Take n units out of the free block p, whose predecessor on the free list is prevp. */
    method Take(p: int, prevp: int, n: nat) returns (r: int)
      requires Valid() && freep != 0 && prevp in ring && prevp in ptr && ptr[prevp] == p
      requires p in ring && p in size && size[p] >= n > 0
      modifies this
      ensures Valid() && freep == prevp && owner.Keys == old(owner).Keys
      ensures r > base && r !in old(used) && used == old(used) + {r} && r in size && size[r] == n
      ensures forall a | a in old(used) :: a in size && a in old(size) && size[a] == old(size)[a]
    {
      hide Blocks, Spaced, Sorted, Linked, Owned, HeapOk;
      HeapFacts(ptr, size, ring, used, owner, base);
      ghost var j :| 0 <= j < |ring| && ring[j] == p;
      ghost var i :| 0 <= i < |ring| && ring[i] == prevp;
      PredecessorIndex(ptr, ring, i, j);
      AllocExact(ptr, size, ring, used, owner, base, j);
      r := p;
      if size[p] == n {
        ptr := ptr[prevp := ptr[p]];
        assert Removed(ring, j)[i] == prevp;
        ring, used := Removed(ring, j), used + {p};
      } else {
        AllocSplit(ptr, size, ring, used, owner, base, j, n);
        size := size[p := size[p] - n];
        r := p + size[p];
        size := size[r := n];
        used, owner := used + {r}, Given(owner, r, n);
      }
      freep := prevp;
    }

    /** One trip of the loop of malloc() around the free list, up to its return to freep. */
    method Search(n: nat) returns (found: bool, p: int, prevp: int)
      requires Valid() && freep != 0
      ensures found ==> prevp in ring && prevp in ptr && ptr[prevp] == p && p in ring && p in size && size[p] >= n
      ensures !found ==> AllSmall(size, ring, n)
    {
      hide Blocks, Spaced, Sorted, Linked, Owned, HeapOk, AllSmall, Tour;
      HeapFacts(ptr, size, ring, used, owner, base);
      ghost var s: nat :| s < |ring| && ring[s] == freep;
      ghost var c := 0;
      TourStep(ptr, ring, s, 0);
      prevp, p := freep, ptr[freep];
      while true
        invariant c < |ring| && p == Tour(ring, s)[c]
        invariant prevp in ring && prevp in ptr && ptr[prevp] == p
        invariant forall i | 0 <= i < c :: Tour(ring, s)[i] in size && size[Tour(ring, s)[i]] < n
        decreases |ring| - c
      {
        TourStep(ptr, ring, s, c);
        if size[p] >= n {
          return true, p, prevp;
        }
        if p == freep {
          NoneLeft(ptr, size, ring, s, c, n);
          return false, p, prevp;
        }
        prevp, p, c := p, ptr[p], c + 1;
      }
    }

    /** No free block holds n units. */
    ghost predicate NoneFits(n: nat)
      reads this
    {
      freep == 0 || AllSmall(size, ring, n)
    }

    /**
      Allocate nbytes; `grant` is what sbrk() answers if malloc() has to ask, which it does at most
      once and exactly if no free block is big enough.  A non-null result is the address after the
      header of a new block of exactly Units(nbytes) units; every other allocated block keeps its
      extent, and the units of the heap change only by what sbrk granted.  Null means sbrk refused.
      `wild` means that sbrk granted something else than was needed, and malloc() would go on to use
      memory it does not have: exactly if it has to ask for more than 2^31 - 32 bytes.
    */
    method Malloc(nbytes: nat, grant: Grant) returns (r: int, wild: bool, ghost asked: bool)
      requires Valid() && nbytes < 0x1_0000_0000
      requires grant.Granted? && nbytes <= MAX_ASK ==> Fresh(owner, base, grant.p, CoreUnits(Units(nbytes)))
      modifies this
      ensures Valid() && freep != 0
      ensures asked <==> old(NoneFits(Units(nbytes)))
      ensures wild <==> asked && grant.Granted? && nbytes > MAX_ASK
      ensures owner.Keys == old(owner).Keys
                            + if asked && grant.Granted? && !wild then Core(grant.p, CoreUnits(Units(nbytes))).Keys
                              else {}
      ensures r == 0 <==> wild || (asked && grant == Refused)
      ensures r == 0 ==> used == old(used)
      ensures r != 0 ==>
        r - 1 !in old(used) && used == old(used) + {r - 1} && r - 1 in size && size[r - 1] == Units(nbytes)
      ensures forall a | a in old(used) :: a in size && a in old(size) && size[a] == old(size)[a]
    {
      hide Blocks, Spaced, Sorted, Linked, Owned, HeapOk, AllSmall;
      var nunits := Units(nbytes);
      asked, wild := false, false;
      if freep == 0 {
        EmptyHeap(ptr, size, base);
        ptr, size, freep := ptr[base := base], size[base := 0], base;
        ring := [base];
        OnlyBase(size, ring, nunits);
      }
      HeapFacts(ptr, size, ring, used, owner, base);
      var found, p, prevp := Search(nunits);
      if found {
        BigBlock(size, ring, p, nunits);
      } else {
        asked := true;
        if grant.Granted? && SbrkArg(CoreUnits(nunits)) != CoreUnits(nunits) * HEADER {
          SbrkGrantsRequest(nbytes);
          return 0, true, true;
        }
        SbrkGrantsRequest(nbytes);
        var ok := Morecore(nunits, grant);
        if !ok {
          return 0, false, true;
        }
        found, p, prevp := Search(nunits);
        BigBlock(size, ring, owner[grant.p], nunits);
        assert found; // no second morecore
      }
      r := Take(p, prevp, nunits);
      r := r + 1;
    }
  }

  lemma OnlyBase(size: Fields, ring: seq<int>, n: nat)
    requires |ring| == 1 && ring[0] in size && size[ring[0]] == 0 && n > 0
    ensures AllSmall(size, ring, n)
  {}

  lemma BigBlock(size: Fields, ring: seq<int>, x: int, n: nat)
    requires x in ring && x in size && size[x] >= n
    ensures !AllSmall(size, ring, n)
  {}

  ghost predicate AllSmall(size: Fields, ring: seq<int>, n: nat) {
    forall i | 0 <= i < |ring| :: ring[i] in size && size[ring[i]] < n
  }

  lemma EmptyHeap(ptr: Fields, size: Fields, base: int)
    ensures HeapOk(ptr[base := base], size[base := 0], [base], {}, map[], base)
  {}

  lemma HeapFacts(ptr: Fields, size: Fields, ring: seq<int>, used: set<int>, owner: Fields, base: int)
    requires HeapOk(ptr, size, ring, used, owner, base)
    ensures Linked(ptr, ring) && Sorted(ring) && |ring| > 0
    ensures forall i | 0 <= i < |ring| :: ring[i] in size && ring[i] in ptr && ring[i] >= base
    ensures ring[0] == base && base in size && size[base] == 0
    ensures forall a | a in used :: a in size && a > base
  {
    forall i | 0 < i < |ring| ensures ring[i] in size { assert Owned(size, owner, ring[i]); }
    forall a | a in used ensures a in size { assert Owned(size, owner, a); }
  }

  /** When the tour comes back to freep without success, every free block is too small. */
  lemma NoneLeft(ptr: Fields, size: Fields, ring: seq<int>, s: nat, c: nat, n: nat)
    requires Linked(ptr, ring) && Sorted(ring) && s < |ring| && c < |ring| && Tour(ring, s)[c] == ring[s]
    requires forall i | 0 <= i < c :: Tour(ring, s)[i] in size && size[Tour(ring, s)[i]] < n
    requires ring[s] in size && size[ring[s]] < n
    ensures AllSmall(size, ring, n) && forall x | x in ring :: x in size && size[x] < n
  {
    hide Linked, Sorted, Tour;
    TourEnds(ring, s, c);
    forall x | x in ring ensures x in size && size[x] < n {
      TourCovers(ring, s, x);
      var i :| 0 <= i < |ring| && Tour(ring, s)[i] == x;
    }
  }

  ghost predicate Fresh(owner: Fields, base: int, p: int, n: nat) {
    p > base && forall u | u in owner :: !(p <= u < p + n)
  }

  lemma AllocatedSizes(size: Fields, ring: seq<int>, used: set<int>, owner: Fields, base: int)
    requires Blocks(size, ring, used, owner, base)
    ensures forall a | a in used :: a in size
  {
    forall a | a in used ensures a in size { assert Owned(size, owner, a); }
  }

  lemma CoreNotUsed(size: Fields, ring: seq<int>, used: set<int>, owner: Fields, base: int, p: int, n: nat)
    requires Blocks(size, ring, used, owner, base) && Fresh(owner, base, p, n) && n > 0
    ensures p !in used
  {
    assert p in used ==> Owned(size, owner, p) && p in owner;
  }

  /** No unit lost or gained, other allocated blocks as before, and bp's units in one free block. */
  ghost predicate FreedFrom(size0: Fields, used0: set<int>, owner0: Fields, size: Fields, ring: seq<int>, owner: Fields,
                            bp: int) {
    && owner.Keys == owner0.Keys
    && (forall a | a in used0 && a != bp :: a in size && a in size0 && size[a] == size0[a])
    && bp in owner && owner[bp] in ring && owner[bp] in size
    && bp in size0 && size[owner[bp]] >= size0[bp]
  }

  lemma JoinedUpper(size: Fields, ring: seq<int>, used: set<int>, owner: Fields, base: int, k: nat, bp: int)
    requires Blocks(size, ring, used, owner, base) && bp in used && k + 1 < |ring|
    ensures bp in size && ring[k + 1] in size
    ensures FreedFrom(size, used, owner, size[bp := size[bp] + size[ring[k + 1]]], ring[k + 1 := bp],
                      Reowned(owner, ring[k + 1], bp), bp)
  {
    hide Blocks, Owned;
    FreedUnits(size, ring, used, owner, base, bp);
    assert ring[k + 1 := bp][k + 1] == bp && ring[k + 1] in ring;
  }

  lemma JoinedBoth(size: Fields, ring: seq<int>, used: set<int>, owner: Fields, base: int, k: nat, bp: int)
    requires Blocks(size, ring, used, owner, base) && bp in used && k + 1 < |ring|
    ensures bp in size && ring[k] in size && ring[k + 1] in size
    ensures var all := size[bp] + size[ring[k + 1]];
            FreedFrom(size, used, owner, size[bp := all][ring[k] := size[ring[k]] + all], Removed(ring, k + 1),
                      Reowned(Reowned(owner, ring[k + 1], bp), bp, ring[k]), bp)
  {
    hide Blocks, Owned;
    FreedUnits(size, ring, used, owner, base, bp);
    assert Removed(ring, k + 1)[k] == ring[k] && ring[k] in ring && ring[k + 1] in ring;
  }

  lemma FreedUnits(size: Fields, ring: seq<int>, used: set<int>, owner: Fields, base: int, bp: int)
    requires Blocks(size, ring, used, owner, base) && bp in used
    ensures bp in size && size[bp] > 0 && bp in owner && owner[bp] == bp && bp > base
    ensures forall a | a in used :: a in size && a !in ring
    ensures forall i | 0 <= i < |ring| :: ring[i] in size && size[ring[i]] >= 0
  {
    assert Owned(size, owner, bp);
    forall i | 0 < i < |ring| ensures ring[i] in size && size[ring[i]] >= 0 {
      assert Owned(size, owner, ring[i]);
    }
  }
}
