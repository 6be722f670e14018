/**
  The page allocator (kernel/kalloc.c) and the page-table operations of kernel/vm.c over one
  physical memory that may hold any number of page tables.
*/
module Vm {
  import opened PageTree
  import opened PagePrune
  import opened PageSpace
  import opened Sets

  const PGSIZE: nat := 4096

  type Page = seq<nat>

  function Filled(b: nat): Page {
    seq(PGSIZE, _ => b)
  }

  ghost function Frames(first: Frame, end: Frame): (fs: set<Frame>)
    requires first <= end
    ensures forall f :: f in fs <==> first <= f < end
  {
    if first == end then {} else Frames(first, end - 1) + {end - 1}
  }

  /** PGROUNDUP(sz) / PGSIZE. */
  function PagesFor(sz: nat): nat {
    (sz + PGSIZE - 1) / PGSIZE
  }

  /** Every page of the pool is free, a table page or a data page, and only one of these. */
  ghost predicate PagesOk(free: seq<Frame>, tables: Tables, data: map<Frame, Page>, pool: set<Frame>) {
    && (forall i, j | 0 <= i < j < |free| :: free[i] != free[j])
    && (forall f | f in free :: f !in tables && f !in data)
    && (forall f | f in tables :: f !in data)
    && (forall f :: f in pool <==> f in free || f in tables || f in data)
    && 0 !in pool
  }

  /** The data frames that keys lo .. lo + n of a page table map. */
  ghost function Mapped(tables: Tables, shape: Shape, root: Frame, lo: nat, n: nat): (fs: set<Frame>)
    ensures forall k | lo <= k < lo + n && Lookup(tables, shape, root, k).Leaf? ::
              Lookup(tables, shape, root, k).frame in fs
  {
    if n == 0 then {}
    else
      var e := Lookup(tables, shape, root, lo + n - 1);
      Mapped(tables, shape, root, lo, n - 1) + if e.Leaf? then {e.frame} else {}
  }

  /** The keys lo .. lo + n map distinct data pages. */
  ghost predicate Owns(tables: Tables, shape: Shape, data: map<Frame, Page>, root: Frame, lo: nat, n: nat) {
    && (forall k | lo <= k < lo + n && Lookup(tables, shape, root, k).Leaf? ::
          Lookup(tables, shape, root, k).frame in data)
    && (forall k, k' | lo <= k < k' < lo + n
                       && Lookup(tables, shape, root, k).Leaf? && Lookup(tables, shape, root, k').Leaf? ::
          Lookup(tables, shape, root, k).frame != Lookup(tables, shape, root, k').frame)
  }

  /** The flat maps after one PTE store. */
  ghost predicate Stored(t0: Tables, t1: Tables, shape: Shape, root: Frame, k: nat, e: Pte) {
    forall r: Frame, j: nat ::
      Lookup(t1, shape, r, j) == if r == root && j == k then e else Lookup(t0, shape, r, j)
  }

  /** The flat maps after keys lo .. lo + n of one page table were mapped to consecutive frames. */
  ghost predicate MapsRange(t0: Tables, s0: Shape, t1: Tables, s1: Shape, root: Frame, lo: nat, n: nat, frame: Frame,
                            perm: Perm) {
    forall r: Frame, j: nat ::
      Lookup(t1, s1, r, j)
      == if r == root && lo <= j < lo + n then Leaf(frame + (j - lo), perm) else Lookup(t0, s0, r, j)
  }

  lemma MapsNone(t: Tables, s: Shape, root: Frame, lo: nat, frame: Frame, perm: Perm)
    ensures MapsRange(t, s, t, s, root, lo, 0, frame, perm)
  {}

  lemma MapsZero(t0: Tables, s0: Shape, t1: Tables, s1: Shape, root: Frame, lo: nat, frame: Frame, perm: Perm)
    requires MapsRange(t0, s0, t1, s1, root, lo, 0, frame, perm)
    ensures SameMaps(t0, s0, t1, s1)
  {
    hide Lookup;
  }

  lemma MapsNext(t0: Tables, s0: Shape, t1: Tables, s1: Shape, t2: Tables, s2: Shape, root: Frame, lo: nat, m: nat,
                 frame: Frame, perm: Perm)
    requires MapsRange(t0, s0, t1, s1, root, lo, m, frame, perm)
    ensures MapsRange(t1, s1, t2, s2, root, lo + m, 1, frame + m, perm) ==>
      MapsRange(t0, s0, t2, s2, root, lo, m + 1, frame, perm)
    ensures SameMaps(t1, s1, t2, s2) ==> MapsRange(t0, s0, t2, s2, root, lo, m, frame, perm)
    ensures Lookup(t1, s1, root, lo + m) == Lookup(t0, s0, root, lo + m)
  {
    hide Lookup;
  }

  lemma PagesOrdered(a: nat, b: nat)
    requires a <= b
    ensures PagesFor(a) <= PagesFor(b)
  {}

  lemma PagesExact(n: nat)
    ensures PagesFor(n * PGSIZE) == n
  {}

  lemma PageOf(at: nat, m: nat)
    ensures (at + m * PGSIZE) / PGSIZE == at / PGSIZE + m
  {}

  lemma KeyIndex(levels: nat, p: nat)
    requires levels > 0
    ensures Key(levels, p) % PTES == Px(p, 0)
  {}

  ghost predicate UnmapsRange(t0: Tables, t1: Tables, shape: Shape, root: Frame, lo: nat, n: nat) {
    forall r: Frame, j: nat ::
      Lookup(t1, shape, r, j) == if r == root && lo <= j < lo + n then Invalid else Lookup(t0, shape, r, j)
  }

  lemma UnmapsNone(tables: Tables, shape: Shape, root: Frame, k: nat)
    ensures UnmapsRange(tables, tables, shape, root, k, 0) && Mapped(tables, shape, root, k, 0) == {}
  {}

  lemma UnmapsNext(t0: Tables, t1: Tables, t2: Tables, shape: Shape, root: Frame, lo: nat, m: nat)
    requires UnmapsRange(t0, t1, shape, root, lo, m) && UnmapsRange(t1, t2, shape, root, lo + m, 1)
    ensures UnmapsRange(t0, t2, shape, root, lo, m + 1)
  {
    hide Lookup;
  }

  lemma NoTableNoEntry(tables: Tables, shape: Shape, root: Frame, k: nat)
    ensures Node(root, 0, k / PTES) !in shape ==> Lookup(tables, shape, root, k) == Invalid
  {}

  lemma MappedOne(tables: Tables, shape: Shape, root: Frame, k: nat)
    ensures Mapped(tables, shape, root, k, 1)
         == var e := Lookup(tables, shape, root, k); if e.Leaf? then {e.frame} else {}
  {
    assert Mapped(tables, shape, root, k, 0) == {};
  }

  /** The frame of key lo + m is not among those of the keys before it. */
  lemma {:induction false} MappedBefore(tables: Tables, shape: Shape, data: map<Frame, Page>, root: Frame, lo: nat,
                                        m: nat, i: nat, n: nat)
    requires Owns(tables, shape, data, root, lo, n) && i <= m < n
    requires Lookup(tables, shape, root, lo + m).Leaf?
    ensures Lookup(tables, shape, root, lo + m).frame !in Mapped(tables, shape, root, lo, i)
  {
    if i > 0 { MappedBefore(tables, shape, data, root, lo, m, i - 1, n); }
  }

  /** Midway through an unmap the next page is still owned, and freeing it extends the freed set. */
  lemma OwnsNext(t0: Tables, t1: Tables, shape: Shape, d0: map<Frame, Page>, d1: map<Frame, Page>, root: Frame, lo: nat,
                 m: nat, n: nat)
    requires Owns(t0, shape, d0, root, lo, n) && m < n
    requires UnmapsRange(t0, t1, shape, root, lo, m)
    requires d1 == d0 - Mapped(t0, shape, root, lo, m)
    ensures Owns(t1, shape, d1, root, lo + m, 1)
    ensures d1 - Mapped(t1, shape, root, lo + m, 1) == d0 - Mapped(t0, shape, root, lo, m + 1)
  {
    hide Lookup;
    MappedOne(t1, shape, root, lo + m);
    if Lookup(t0, shape, root, lo + m).Leaf? {
      MappedBefore(t0, shape, d0, root, lo, m, m, n);
    }
  }

  /** The flat maps after keys lo, lo + 1, ... of one page table were mapped to the frames fr. */
  ghost predicate AddsPages(t0: Tables, s0: Shape, t1: Tables, s1: Shape, root: Frame, lo: nat, fr: seq<Frame>,
                            perm: Perm) {
    forall r: Frame, j: nat ::
      Lookup(t1, s1, r, j)
      == if r == root && lo <= j < lo + |fr| then Leaf(fr[j - lo], perm) else Lookup(t0, s0, r, j)
  }

  /** The data pages are the old ones plus the new pages fr, all with the same content. */
  ghost predicate AddsData(d0: map<Frame, Page>, d1: map<Frame, Page>, fr: seq<Frame>, content: Page) {
    && (forall i, j | 0 <= i < j < |fr| :: fr[i] != fr[j])
    && (forall f | f in fr :: f !in d0)
    && (forall f :: f in d1 <==> f in d0 || f in fr)
    && (forall f | f in d1 :: d1[f] == if f in d0 then d0[f] else content)
  }

  lemma AddsNothing(t: Tables, s: Shape, d: map<Frame, Page>, root: Frame, lo: nat, perm: Perm, content: Page)
    ensures AddsPages(t, s, t, s, root, lo, [], perm) && AddsData(d, d, [], content)
  {}

  lemma AddsPagesAt(t0: Tables, s0: Shape, t1: Tables, s1: Shape, root: Frame, lo: nat, fr: seq<Frame>, perm: Perm,
                    r: Frame, j: nat)
    requires AddsPages(t0, s0, t1, s1, root, lo, fr, perm)
    ensures Lookup(t1, s1, r, j)
         == if r == root && lo <= j < lo + |fr| then Leaf(fr[j - lo], perm) else Lookup(t0, s0, r, j)
  {}

  lemma AddsPagesSame(t0: Tables, s0: Shape, t1: Tables, s1: Shape, t2: Tables, s2: Shape, root: Frame, lo: nat,
                      fr: seq<Frame>, perm: Perm)
    requires AddsPages(t0, s0, t1, s1, root, lo, fr, perm) && SameMaps(t1, s1, t2, s2)
    ensures AddsPages(t0, s0, t2, s2, root, lo, fr, perm)
  {
    hide Lookup;
  }

  lemma AddsPagesNext(t0: Tables, s0: Shape, t1: Tables, s1: Shape, t2: Tables, s2: Shape, root: Frame, lo: nat,
                      fr: seq<Frame>, f: Frame, perm: Perm)
    requires AddsPages(t0, s0, t1, s1, root, lo, fr, perm)
    requires MapsRange(t1, s1, t2, s2, root, lo + |fr|, 1, f, perm)
    ensures AddsPages(t0, s0, t2, s2, root, lo, fr + [f], perm)
  {
    hide Lookup;
  }

  lemma AddsDataNext(d0: map<Frame, Page>, d1: map<Frame, Page>, d2: map<Frame, Page>, fr: seq<Frame>, f: Frame,
                     content: Page)
    requires AddsData(d0, d1, fr, content) && f !in d1 && d2 == d1[f := content]
    ensures AddsData(d0, d2, fr + [f], content)
  {}

  lemma AddsOwned(t0: Tables, s0: Shape, t1: Tables, s1: Shape, d0: map<Frame, Page>, d1: map<Frame, Page>, root: Frame,
                  lo: nat, fr: seq<Frame>, perm: Perm, content: Page)
    requires AddsPages(t0, s0, t1, s1, root, lo, fr, perm) && AddsData(d0, d1, fr, content)
    ensures Owns(t1, s1, d1, root, lo, |fr|)
    ensures d1 - Mapped(t1, s1, root, lo, |fr|) == d0
  {
    hide Lookup;
    MappedFrames(t0, s0, t1, s1, root, lo, fr, perm, |fr|);
    assert fr[..|fr|] == fr;
  }

  lemma {:induction false} MappedFrames(t0: Tables, s0: Shape, t1: Tables, s1: Shape, root: Frame, lo: nat,
                                        fr: seq<Frame>, perm: Perm, m: nat)
    requires AddsPages(t0, s0, t1, s1, root, lo, fr, perm) && m <= |fr|
    ensures forall f :: f in Mapped(t1, s1, root, lo, m) <==> f in fr[..m]
  {
    hide Lookup;
    if m > 0 {
      MappedFrames(t0, s0, t1, s1, root, lo, fr, perm, m - 1);
      assert fr[..m] == fr[..m - 1] + [fr[m - 1]];
    }
  }

  /** Unmapping and freeing the added pages restores the flat maps. */
  lemma AddsUndone(t0: Tables, s0: Shape, t1: Tables, t2: Tables, s1: Shape, d0: map<Frame, Page>, root: Frame, lo: nat,
                   fr: seq<Frame>, perm: Perm, content: Page)
    requires AddsPages(t0, s0, t1, s1, root, lo, fr, perm)
    requires UnmapsRange(t1, t2, s1, root, lo, |fr|)
    requires forall k | lo <= k < lo + |fr| :: Lookup(t0, s0, root, k) == Invalid
    ensures AddsPages(t0, s0, t2, s1, root, lo, [], perm)
    ensures AddsData(d0, d0, [], content)
  {
    hide Lookup;
  }

  /** The flat maps after the first m pages of src were copied to dst; cp gives the new frames. */
  ghost predicate Copies(t0: Tables, s0: Shape, t1: Tables, s1: Shape, src: Frame, dst: Frame, m: nat, cp: map<nat,
                         Frame>) {
    && (forall j: nat :: j in cp <==> j < m && Lookup(t0, s0, src, j).Leaf?)
    && (forall r: Frame, j: nat ::
          Lookup(t1, s1, r, j)
          == if r == dst && j in cp then Leaf(cp[j], Lookup(t0, s0, src, j).perm) else Lookup(t0, s0, r, j))
  }

  /** The new data pages are exactly the frames of cp, each with the contents of its original. */
  ghost predicate CopiesData(t0: Tables, s0: Shape, d0: map<Frame, Page>, d1: map<Frame, Page>, src: Frame, cp: map<nat,
                             Frame>) {
    && (forall j | j in cp :: cp[j] !in d0 && cp[j] in d1)
    && (forall j, j' | j in cp && j' in cp && j != j' :: cp[j] != cp[j'])
    && (forall f | f in d0 :: f in d1 && d1[f] == d0[f])
    && (forall f | f in d1 && f !in d0 :: f in cp.Values)
    && (forall j | j in cp :: Lookup(t0, s0, src, j).Leaf? && Lookup(t0, s0, src, j).frame in d0
                              && d1[cp[j]] == d0[Lookup(t0, s0, src, j).frame])
  }

  lemma CopiesNothing(t: Tables, s: Shape, d: map<Frame, Page>, src: Frame, dst: Frame)
    ensures Copies(t, s, t, s, src, dst, 0, map[]) && CopiesData(t, s, d, d, src, map[])
  {
    hide Lookup;
  }

  lemma CopiesAt(t0: Tables, s0: Shape, t1: Tables, s1: Shape, d0: map<Frame, Page>, d1: map<Frame, Page>, src: Frame,
                 dst: Frame, m: nat, cp: map<nat, Frame>)
    requires Copies(t0, s0, t1, s1, src, dst, m, cp) && CopiesData(t0, s0, d0, d1, src, cp) && src != dst
    ensures m !in cp
    ensures Lookup(t1, s1, src, m) == Lookup(t0, s0, src, m)
    ensures Lookup(t1, s1, dst, m) == Lookup(t0, s0, dst, m)
    ensures forall f | f in d0 :: f in d1 && d1[f] == d0[f]
  {
    hide Lookup;
  }

  lemma CopiesSkip(t0: Tables, s0: Shape, t1: Tables, s1: Shape, src: Frame, dst: Frame, m: nat, cp: map<nat, Frame>)
    requires Copies(t0, s0, t1, s1, src, dst, m, cp) && !Lookup(t0, s0, src, m).Leaf?
    ensures Copies(t0, s0, t1, s1, src, dst, m + 1, cp)
  {
    hide Lookup;
  }

  lemma CopiesSame(t0: Tables, s0: Shape, t1: Tables, s1: Shape, t2: Tables, s2: Shape, src: Frame, dst: Frame, m: nat,
                   cp: map<nat, Frame>)
    requires Copies(t0, s0, t1, s1, src, dst, m, cp) && SameMaps(t1, s1, t2, s2)
    ensures Copies(t0, s0, t2, s2, src, dst, m, cp)
  {
    hide Lookup;
  }

  lemma CopiesNext(t0: Tables, s0: Shape, t1: Tables, s1: Shape, t2: Tables, s2: Shape, src: Frame, dst: Frame, m: nat,
                   cp: map<nat, Frame>, f: Frame)
    requires Copies(t0, s0, t1, s1, src, dst, m, cp) && Lookup(t0, s0, src, m).Leaf?
    requires MapsRange(t1, s1, t2, s2, dst, m, 1, f, Lookup(t0, s0, src, m).perm)
    ensures Copies(t0, s0, t2, s2, src, dst, m + 1, cp[m := f])
  {
    hide Lookup;
  }

  lemma CopiesDataNext(t0: Tables, s0: Shape, d0: map<Frame, Page>, d1: map<Frame, Page>, d2: map<Frame, Page>,
                       src: Frame, cp: map<nat, Frame>, m: nat, f: Frame)
    requires CopiesData(t0, s0, d0, d1, src, cp) && m !in cp && f !in d1
    requires Lookup(t0, s0, src, m).Leaf? && Lookup(t0, s0, src, m).frame in d0
    requires d2 == d1[f := d0[Lookup(t0, s0, src, m).frame]]
    ensures CopiesData(t0, s0, d0, d2, src, cp[m := f])
  {
    hide Lookup;
    var cp' := cp[m := f];
    forall g | g in d2 && g !in d0 ensures g in cp'.Values {
      if g == f {
        assert m in cp' && cp'[m] == f;
      } else {
        var j :| j in cp && cp[j] == g;
        assert j in cp' && cp'[j] == g;
      }
    }
  }

  lemma CopiesOwned(t0: Tables, s0: Shape, t1: Tables, s1: Shape, d0: map<Frame, Page>, d1: map<Frame, Page>,
                    src: Frame, dst: Frame, m: nat, cp: map<nat, Frame>)
    requires Copies(t0, s0, t1, s1, src, dst, m, cp) && CopiesData(t0, s0, d0, d1, src, cp)
    requires forall k | 0 <= k < m :: Lookup(t0, s0, dst, k) == Invalid
    ensures Owns(t1, s1, d1, dst, 0, m)
    ensures d1 - Mapped(t1, s1, dst, 0, m) == d0
  {
    hide Lookup, Mapped;
    MappedCopies(t0, s0, t1, s1, src, dst, m, cp, m);
    assert forall f :: f in Mapped(t1, s1, dst, 0, m) <==> f in cp.Values;
  }

  lemma {:induction false} MappedCopies(t0: Tables, s0: Shape, t1: Tables, s1: Shape, src: Frame, dst: Frame, m: nat,
                                        cp: map<nat, Frame>, n: nat)
    requires Copies(t0, s0, t1, s1, src, dst, m, cp) && n <= m
    requires forall k | 0 <= k < m :: Lookup(t0, s0, dst, k) == Invalid
    ensures forall f :: f in Mapped(t1, s1, dst, 0, n) <==> exists j: nat | j in cp :: j < n && cp[j] == f
  {
    hide Lookup;
    if n > 0 {
      MappedCopies(t0, s0, t1, s1, src, dst, m, cp, n - 1);
    }
  }

  lemma CopiesUndone(t0: Tables, s0: Shape, t1: Tables, t2: Tables, s1: Shape, src: Frame, dst: Frame, m: nat,
                     cp: map<nat, Frame>)
    requires Copies(t0, s0, t1, s1, src, dst, m, cp) && UnmapsRange(t1, t2, s1, dst, 0, m)
    requires forall k | 0 <= k < m :: Lookup(t0, s0, dst, k) == Invalid
    ensures Copies(t0, s0, t2, s1, src, dst, 0, map[])
  {
    hide Lookup;
  }

  // ---- Counting pages ----

  /** Every page is free, a table or data. */
  lemma Counted(free: seq<Frame>, tables: Tables, data: map<Frame, Page>, shape: Shape, node: map<Frame, Node>,
                pool: set<Frame>, levels: nat)
    requires PagesOk(free, tables, data, pool) && TreesOk(levels, tables, shape, node)
    ensures |free| + |shape| + |data| == |pool|
  {
    hide PagesOk, TreesOk;
    PagesCount(free, tables, data, pool);
    TablesCount(tables, shape, node, levels);
  }

  lemma PagesCount(free: seq<Frame>, tables: Tables, data: map<Frame, Page>, pool: set<Frame>)
    requires PagesOk(free, tables, data, pool)
    ensures |free| + |tables| + |data| == |pool|
  {
    var unused := pool - tables.Keys - data.Keys;
    assert forall f :: f in unused <==> f in free;
    ElementsSize(free, unused);
    Partition(tables, data, pool);
    ThreeParts(pool, unused, tables.Keys, data.Keys);
  }

  lemma Partition(tables: Tables, data: map<Frame, Page>, pool: set<Frame>)
    requires (forall f | f in tables :: f !in data && f in pool) && forall f | f in data :: f in pool
    ensures var unused := pool - tables.Keys - data.Keys;
            && pool == unused + tables.Keys + data.Keys
            && unused !! tables.Keys && unused !! data.Keys && tables.Keys !! data.Keys
  {}

  lemma TablesCount(tables: Tables, shape: Shape, node: map<Frame, Node>, levels: nat)
    requires TreesOk(levels, tables, shape, node)
    ensures |tables| == |shape|
  {
    hide EntryOk, LinkOk;
    forall n | n in shape ensures n in node.Values { assert node[shape[n]] == n; }
    ValuesSize(node, shape.Keys);
    assert node.Keys == tables.Keys;
  }

  lemma GainsTable(s0: Shape, s1: Shape, root: Frame, levels: nat, k: nat, l: nat, t: Frame)
    requires Gains(s0, s1, root, levels, {k}) && l + 1 < levels && NodeOn(root, k, l) !in s1
    ensures Gains(s0, s1[NodeOn(root, k, l) := t], root, levels, {k})
  {
    assert OnPath(NodeOn(root, k, l), root, k, levels);
    assert OnSome(NodeOn(root, k, l), root, levels, {k});
  }

  lemma OneKey(p: nat)
    ensures Range(p, 1) == {p}
  {}

  lemma GainsPage(s0: Shape, s1: Shape, s2: Shape, root: Frame, levels: nat, k: nat, m: nat, n: nat)
    requires Gains(s0, s1, root, levels, Range(k, n)) && m < n && Gains(s1, s2, root, levels, {k + m})
    ensures Gains(s0, s2, root, levels, Range(k, n))
  {
    hide Gains;
    GainsMore(s0, s1, s2, root, levels, Range(k, n), {k + m});
    assert Range(k, n) + {k + m} == Range(k, n);
  }

  /** Tables for every key of ks exist. */
  ghost predicate Bottoms(shape: Shape, root: Frame, ks: set<nat>) {
    forall k | k in ks :: Node(root, 0, k / PTES) in shape
  }

  /** Tables gained on the way to ks: as many as were missing exactly if every bottom table exists. */
  lemma TablesGained(s0: Shape, tables: Tables, s1: Shape, node: map<Frame, Node>, root: Frame, levels: nat,
                     ks: set<nat>)
    requires TreesOk(levels, tables, s1, node) && levels > 1 && Gains(s0, s1, root, levels, ks)
    ensures |s0| <= |s1| <= |s0| + |Missing(s0, root, levels, ks)|
    ensures |s1| == |s0| + |Missing(s0, root, levels, ks)| <==> Bottoms(s1, root, ks)
  {
    hide TreesOk, Missing;
    GainedSize(s0, s1, root, levels, ks);
    if Bottoms(s1, root, ks) {
      forall k | k in ks ensures PathFull(s1, root, levels, k) {
        BottomNode(root, k);
        BottomFull(levels, tables, s1, node, root, k);
      }
      FullNotMissing(s0, s1, root, levels, ks);
    } else {
      var k :| k in ks && Node(root, 0, k / PTES) !in s1;
      BottomNode(root, k);
      assert OnPath(NodeOn(root, k, 0), root, k, levels);
      MissingIff(s0, root, levels, ks, NodeOn(root, k, 0));
    }
  }

  lemma BottomNode(root: Frame, k: nat)
    ensures NodeOn(root, k, 0) == Node(root, 0, k / PTES)
  {
    assert Shift(k, 0) == k;
  }

  lemma AddsSize(d0: map<Frame, Page>, d1: map<Frame, Page>, fr: seq<Frame>, content: Page)
    requires AddsData(d0, d1, fr, content)
    ensures |d1| == |d0| + |fr|
  {
    var added := d1.Keys - d0.Keys;
    ElementsSize(fr, added);
    assert d1.Keys == d0.Keys + added;
  }

  lemma CopiesSize(t0: Tables, s0: Shape, d0: map<Frame, Page>, d1: map<Frame, Page>, src: Frame, cp: map<nat, Frame>)
    requires CopiesData(t0, s0, d0, d1, src, cp)
    ensures |d1| == |d0| + |cp|
  {
    hide Lookup;
    var added := d1.Keys - d0.Keys;
    ValuesSize(cp, added);
    assert d1.Keys == d0.Keys + added;
  }

  /** A data page turns into a table page. */
  lemma BecomesTable(free: seq<Frame>, tables: Tables, data: map<Frame, Page>, pool: set<Frame>, f: Frame,
                     entries: seq<Pte>)
    requires PagesOk(free, tables, data, pool) && f in data
    ensures PagesOk(free, tables[f := entries], data - {f}, pool)
  {}

  lemma NewEntries(free: seq<Frame>, tables: Tables, data: map<Frame, Page>, pool: set<Frame>, t: Frame,
                   entries: seq<Pte>)
    requires PagesOk(free, tables, data, pool) && t in tables
    ensures PagesOk(free, tables[t := entries], data, pool)
  {}

  lemma OnePage(data: map<Frame, Page>, f: Frame, x: Page, y: Page)
    requires f !in data
    ensures data[f := x][f := y] == data[f := y] && data[f := y] - {f} == data && |data[f := y]| == |data| + 1
  {}

  /** One page and the tables it needs, against what was free. */
  lemma NewCount(free0: nat, s0: Shape, d0: nat, free: seq<Frame>, tables: Tables, data: map<Frame, Page>, shape: Shape,
                 node: map<Frame, Node>, pool: set<Frame>, levels: nat, root: Frame, p: nat, got: bool)
    requires PagesOk(free, tables, data, pool) && TreesOk(levels, tables, shape, node) && levels > 1
    requires free0 + |s0| + d0 == |pool| && Gains(s0, shape, root, levels, {p})
    requires |data| == d0 + if got then 1 else 0
    requires if got then Node(root, 0, p / PTES) in shape
             else free == [] || (|free| == 1 && Node(root, 0, p / PTES) !in shape)
    ensures !got <==> free0 < Need(s0, root, levels, {p})
  {
    hide TreesOk, PagesOk, Gains, Missing, Bottoms;
    Counted(free, tables, data, shape, node, pool, levels);
    TablesGained(s0, tables, shape, node, root, levels, {p});
    BottomsOne(shape, root, p);
  }

  lemma BottomsOne(shape: Shape, root: Frame, k: nat)
    ensures Bottoms(shape, root, {k}) <==> Node(root, 0, k / PTES) in shape
  {}

  lemma SameItself(t: Tables, s: Shape)
    ensures SameMaps(t, s, t, s)
  {}

  lemma BottomsNone(shape: Shape, root: Frame, lo: nat)
    ensures Bottoms(shape, root, Range(lo, 0))
  {}

  lemma BottomsNext(s1: Shape, s2: Shape, root: Frame, lo: nat, m: nat)
    requires Bottoms(s1, root, Range(lo, m)) && Grows(s1, s2)
    ensures Node(root, 0, (lo + m) / PTES) in s2 ==> Bottoms(s2, root, Range(lo, m + 1))
  {}

  /** Mapping key k failed with m other pages of ks mapped, and at most its own page left: there was too little. */
  lemma OutOfPages(s0: Shape, tables: Tables, s1: Shape, node: map<Frame, Node>, root: Frame, levels: nat, ks: set<nat>,
                   k: nat, free0: nat, free1: nat, m: nat)
    requires TreesOk(levels, tables, s1, node) && levels > 1 && Gains(s0, s1, root, levels, ks) && k in ks && m < |ks|
    requires free1 == 0 || (free1 == 1 && Node(root, 0, k / PTES) !in s1)
    requires free0 + |s0| == free1 + |s1| + m
    ensures free0 < Need(s0, root, levels, ks)
  {
    hide TreesOk, Gains, Missing;
    TablesGained(s0, tables, s1, node, root, levels, ks);
  }

  /** Where the loop of uvmalloc() is: the pages fr of n to come are mapped from key lo on. */
  ghost predicate Grown(t0: Tables, s0: Shape, d0: map<Frame, Page>, t: Tables, s: Shape, d: map<Frame, Page>,
                        root: Frame, lo: nat, fr: seq<Frame>, perm: Perm, levels: nat, n: nat) {
    && Grows(s0, s) && AddsPages(t0, s0, t, s, root, lo, fr, perm) && AddsData(d0, d, fr, Filled(0))
    && Gains(s0, s, root, levels, Range(lo, n)) && Bottoms(s, root, Range(lo, |fr|))
  }

  lemma GrownAt(t0: Tables, s0: Shape, d0: map<Frame, Page>, t: Tables, s: Shape, d: map<Frame, Page>, root: Frame,
                lo: nat, fr: seq<Frame>, perm: Perm, levels: nat, n: nat)
    requires Grown(t0, s0, d0, t, s, d, root, lo, fr, perm, levels, n)
    ensures Lookup(t, s, root, lo + |fr|) == Lookup(t0, s0, root, lo + |fr|)
  {
    hide AddsPages, AddsData, Gains, Bottoms, Lookup;
    AddsPagesAt(t0, s0, t, s, root, lo, fr, perm, root, lo + |fr|);
  }

  lemma GrownNext(t0: Tables, s0: Shape, d0: map<Frame, Page>, t1: Tables, s1: Shape, d1: map<Frame, Page>, t: Tables,
                  s: Shape, d: map<Frame, Page>, root: Frame, lo: nat, fr: seq<Frame>, perm: Perm, levels: nat, n: nat,
                  f: Frame)
    requires Grown(t0, s0, d0, t1, s1, d1, root, lo, fr, perm, levels, n) && |fr| < n
    requires Grows(s1, s) && Gains(s1, s, root, levels, {lo + |fr|}) && Node(root, 0, (lo + |fr|) / PTES) in s
    requires MapsRange(t1, s1, t, s, root, lo + |fr|, 1, f, perm) && f !in d1 && d == d1[f := Filled(0)]
    ensures Grown(t0, s0, d0, t, s, d, root, lo, fr + [f], perm, levels, n)
  {
    hide AddsPages, AddsData, Gains, Bottoms, MapsRange, Filled, Range;
    GainsPage(s0, s1, s, root, levels, lo, |fr|, n);
    BottomsNext(s1, s, root, lo, |fr|);
    AddsPagesNext(t0, s0, t1, s1, t, s, root, lo, fr, f, perm);
    AddsDataNext(d0, d1, d, fr, f, Filled(0));
  }

  lemma GrownStays(t0: Tables, s0: Shape, d0: map<Frame, Page>, t1: Tables, s1: Shape, t: Tables, s: Shape,
                   d: map<Frame, Page>, root: Frame, lo: nat, fr: seq<Frame>, perm: Perm, levels: nat, n: nat)
    requires Grown(t0, s0, d0, t1, s1, d, root, lo, fr, perm, levels, n) && |fr| < n
    requires Grows(s1, s) && Gains(s1, s, root, levels, {lo + |fr|}) && SameMaps(t1, s1, t, s)
    ensures Grows(s0, s) && AddsPages(t0, s0, t, s, root, lo, fr, perm) && AddsData(d0, d, fr, Filled(0))
    ensures Gains(s0, s, root, levels, Range(lo, n))
  {
    hide AddsPages, AddsData, Gains, Bottoms, Filled, SameMaps;
    GainsPage(s0, s1, s, root, levels, lo, |fr|, n);
    AddsPagesSame(t0, s0, t1, s1, t, s, root, lo, fr, perm);
  }

  lemma GrowFails(free: seq<Frame>, tables: Tables, data: map<Frame, Page>, shape: Shape, node: map<Frame, Node>,
                  pool: set<Frame>, levels: nat, s0: Shape, d0: map<Frame, Page>, root: Frame, lo: nat, n: nat,
                  fr: seq<Frame>, free0: nat)
    requires PagesOk(free, tables, data, pool) && TreesOk(levels, tables, shape, node) && levels > 1
    requires Gains(s0, shape, root, levels, Range(lo, n)) && AddsData(d0, data, fr, Filled(0)) && |fr| < n
    requires free == [] || (|free| == 1 && Node(root, 0, (lo + |fr|) / PTES) !in shape)
    requires free0 + |s0| + |d0| == |pool|
    ensures free0 < Need(s0, root, levels, Range(lo, n))
  {
    hide TreesOk, PagesOk, AddsData, Gains, Missing, Filled, Range;
    Counted(free, tables, data, shape, node, pool, levels);
    AddsSize(d0, data, fr, Filled(0));
    OutOfPages(s0, tables, shape, node, root, levels, Range(lo, n), lo + |fr|, free0, |free|, |fr|);
  }

  /** The keys below n that map a page. */
  ghost function MappedKeys(tables: Tables, shape: Shape, root: Frame, n: nat): set<nat> {
    set k: nat | k < n && Lookup(tables, shape, root, k).Leaf?
  }

  lemma GainsKey(s0: Shape, s1: Shape, s2: Shape, root: Frame, levels: nat, ks: set<nat>, k: nat)
    requires Gains(s0, s1, root, levels, ks) && k in ks && Gains(s1, s2, root, levels, {k})
    ensures Gains(s0, s2, root, levels, ks)
  {
    hide Gains;
    GainsMore(s0, s1, s2, root, levels, ks, {k});
    assert ks + {k} == ks;
  }

  lemma BottomsEmpty(shape: Shape, root: Frame)
    ensures Bottoms(shape, root, {})
  {}

  lemma BottomsKey(s1: Shape, s2: Shape, root: Frame, cp: map<nat, Frame>, k: nat, f: Frame)
    requires Bottoms(s1, root, cp.Keys) && Grows(s1, s2)
    ensures Node(root, 0, k / PTES) in s2 ==> Bottoms(s2, root, cp[k := f].Keys)
  {}

  lemma FewerCopies(t0: Tables, s0: Shape, t1: Tables, s1: Shape, src: Frame, dst: Frame, m: nat, cp: map<nat, Frame>,
                    n: nat)
    requires Copies(t0, s0, t1, s1, src, dst, m, cp) && m < n && Lookup(t0, s0, src, m).Leaf?
    ensures |cp| < |MappedKeys(t0, s0, src, n)|
  {
    hide Lookup;
    var ks := MappedKeys(t0, s0, src, n);
    Smaller(cp.Keys, ks - {m});
  }

  lemma AllCopied(t0: Tables, s0: Shape, t1: Tables, s1: Shape, src: Frame, dst: Frame, n: nat, cp: map<nat, Frame>)
    requires Copies(t0, s0, t1, s1, src, dst, n, cp) && Bottoms(s1, dst, cp.Keys)
    ensures |cp| == |MappedKeys(t0, s0, src, n)| && Bottoms(s1, dst, MappedKeys(t0, s0, src, n))
  {
    hide Lookup;
    assert cp.Keys == MappedKeys(t0, s0, src, n);
  }

  /** What walk() finds; BadAddress is its panic. */
  datatype Slot = NoSlot | At(table: Frame) | BadAddress

  datatype Status = Ok | NoMemory | Panic

  class Memory {
    const arch: Arch
    var free: seq<Frame>            // kmem.freelist, first page first
    var tables: Tables              // contents of the table pages
    var data: map<Frame, Page>      // contents of every other allocated page
    ghost var shape: Shape
    ghost var node: map<Frame, Node>
    ghost const pool: set<Frame>

    ghost predicate Valid()
      reads this
    {
      PagesOk(free, tables, data, pool) && TreesOk(Levels(arch), tables, shape, node)
    }

    /** kinit() and freerange(): every page from `first` up to `end` is free, the last one first. */
    constructor (arch: Arch, first: Frame, end: Frame)
      requires 0 < first <= end
      ensures Valid() && this.arch == arch && tables == map[] && data == map[] && |free| == end - first
      ensures pool == Frames(first, end)
    {
      this.arch := arch;
      tables, data, shape, node := map[], map[], map[], map[];
      free := [];
      pool := Frames(first, end);
      new;
      for p := first to end
        invariant this.arch == arch && tables == map[] && data == map[] && shape == map[] && node == map[]
        invariant |free| == p - first
        invariant forall i | 0 <= i < |free| :: free[i] == p - 1 - i
      {
        free := [p] + free;
      }
      forall f | f in pool ensures f in free { assert free[end - 1 - f] == f; }
    }

    method Kalloc() returns (f: Frame)
      requires Valid()
      modifies this`free, this`data
      ensures Valid()
      ensures if old(free) == [] then f == 0 && free == [] && data == old(data)
              else f == old(free)[0] && free == old(free)[1..] && data == old(data)[f := Filled(5)] && f !in old(data)
      ensures f == 0 <==> old(free) == []
      ensures f !in tables
    {
      f := 0;
      if free != [] {
        f := free[0];
        free := free[1..];
        data := data[f := Filled(5)];
      }
    }

    method Kfree(f: Frame)
      requires Valid() && f in data
      modifies this`free, this`data
      ensures Valid() && free == [f] + old(free) && data == old(data) - {f}
    {
      free := [f] + free;
      data := data - {f};
    }

    method SetPage(f: Frame, content: Page)
      requires Valid() && f in data
      modifies this`data
      ensures Valid() && data == old(data)[f := content]
    {
      data := data[f := content];
    }

    /** An empty page table, or 0 when out of memory. */
    method Uvmcreate() returns (root: Frame)
      requires Valid()
      modifies this
      ensures Valid() && data == old(data) && SameMaps(old(tables), old(shape), tables, shape)
      ensures root == 0 <==> old(free) == []
      ensures root != 0 ==> root == old(free)[0] && shape == old(shape)[Node(root, Levels(arch) - 1, 0) := root]
      ensures root != 0 ==> forall k: nat :: Lookup(tables, shape, root, k) == Invalid
    {
      hide TreesOk, PagesOk, Lookup, SameMaps, Filled;
      SameItself(tables, shape);
      root := Kalloc();
      if root != 0 {
        OnePage(old(data), root, Filled(5), Filled(5));
        BecomesTable(free, tables, data, pool, root, seq(PTES, _ => Invalid));
        AddRoot(Levels(arch), tables, shape, node, root);
        data := data - {root};
        tables := tables[root := seq(PTES, _ => Invalid)];
        shape := shape[Node(root, Levels(arch) - 1, 0) := root];
        node := node[root := Node(root, Levels(arch) - 1, 0)];
      }
    }

    /** The allocating step of walk(): a zeroed table page under entry i of table page t. */
    method NewTable(ghost n: Node, t: Frame, i: nat) returns (f: Frame)
      requires Valid() && n in shape && shape[n] == t && n.level > 0 && i < PTES && Down(n, i) !in shape
      modifies this
      ensures Valid() && SameMaps(old(tables), old(shape), tables, shape)
      ensures data == old(data)
      ensures if f == 0 then free == [] && shape == old(shape) else shape == old(shape)[Down(n, i) := f]
    {
      hide TreesOk, PagesOk, Lookup, SameMaps, Filled;
      SameItself(tables, shape);
      TableEntry(Levels(arch), tables, shape, node, n, i);
      f := Kalloc();
      if f != 0 {
        OnePage(old(data), f, Filled(5), Filled(5));
        BecomesTable(free, tables, data, pool, f, seq(PTES, _ => Invalid));
        NewEntries(free, tables[f := seq(PTES, _ => Invalid)], data - {f}, pool, t, tables[t][i := Table(f)]);
        AddTable(Levels(arch), tables, shape, node, n, i, f);
        tables := tables[f := seq(PTES, _ => Invalid)][t := tables[t][i := Table(f)]];
        data := data - {f};
        shape := shape[Down(n, i) := f];
        node := node[f := Down(n, i)];
      }
    }

    /**
      The table page that holds the PTE for page p, creating tables on the way if asked to; no slot
      with allocation means that the free list ran out before the last table.
    */
    method Walk(root: Frame, p: nat, alloc: bool) returns (slot: Slot)
      requires Valid() && IsRoot(Levels(arch), shape, root)
      modifies this
      ensures Valid() && SameMaps(old(tables), old(shape), tables, shape) && Grows(old(shape), shape)
      ensures data == old(data)
      ensures !alloc || slot == BadAddress ==>
        tables == old(tables) && shape == old(shape) && free == old(free) && node == old(node)
      ensures Gains(old(shape), shape, root, Levels(arch), {Key(Levels(arch), p)})
      ensures var n := Node(root, 0, Key(Levels(arch), p) / PTES);
              match slot
              case BadAddress => !VaValid(arch, p)
              case At(t) => VaValid(arch, p) && n in shape && shape[n] == t
              case NoSlot => VaValid(arch, p) && n !in shape && (alloc ==> free == [])
    {
      hide TreesOk, PagesOk, Lookup, Gains;
      ghost var k := Key(Levels(arch), p);
      GainsNone(shape, root, Levels(arch), {k});
      if !VaValid(arch, p) {
        return BadAddress;
      }
      var levels := Levels(arch);
      var level := levels - 1;
      RootTable(levels, tables, shape, node, root);
      var t := root;
      ghost var n := Node(root, level, 0);
      while level > 0
        invariant 0 <= level < levels
        invariant Valid() && SameMaps(old(tables), old(shape), tables, shape) && Grows(old(shape), shape)
        invariant data == old(data)
        invariant !alloc ==> tables == old(tables) && shape == old(shape) && free == old(free) && node == old(node)
        invariant n == Node(root, level, Prefix(levels, p, level + 1)) && n in shape && shape[n] == t
        invariant Gains(old(shape), shape, root, levels, {k})
      {
        var i := Px(p, level);
        PrefixStep(levels, p, level);
        TableEntry(levels, tables, shape, node, n, i);
        if tables[t][i].Table? {
          t := tables[t][i].frame;
        } else if alloc {
          ghost var s1 := shape;
          t := NewTable(n, t, i);
          if t == 0 {
            PathMissing(levels, tables, shape, node, root, p, level - 1);
            return NoSlot;
          }
          PrefixKey(levels, p, level);
          GainsTable(old(shape), s1, root, levels, k, level - 1, t);
        } else {
          PathMissing(levels, tables, shape, node, root, p, level - 1);
          return NoSlot;
        }
        n := Down(n, i);
        level := level - 1;
      }
      PrefixStep(levels, p, 0);
      slot := At(t);
    }

    /** *pte = e, where the PTE is entry i of table page t and serves key k. */
    method StorePte(ghost root: Frame, ghost k: nat, t: Frame, i: nat, e: Pte)
      requires Valid() && !e.Table? && i == k % PTES
      requires Node(root, 0, k / PTES) in shape && shape[Node(root, 0, k / PTES)] == t
      modifies this`tables
      ensures Valid()
      ensures Stored(old(tables), tables, shape, root, k, e)
    {
      hide Lookup;
      SetEntry(Levels(arch), tables, shape, node, root, k, e);
      tables := tables[t := tables[t][i := e]];
    }

    /** The PTE that a walk found for key k. */
    method LoadPte(ghost root: Frame, ghost k: nat, t: Frame, i: nat) returns (e: Pte)
      requires Valid() && i == k % PTES
      requires Node(root, 0, k / PTES) in shape && shape[Node(root, 0, k / PTES)] == t
      ensures e == Lookup(tables, shape, root, k) && !e.Table?
    {
      assert EntryOk(tables, shape, Node(root, 0, k / PTES), i);
      e := tables[t][i];
    }

    /** One round of the loop of mappages(). */
    method MapPage(root: Frame, p: nat, frame: Frame, perm: Perm) returns (r: Status)
      requires Valid() && IsRoot(Levels(arch), shape, root)
      modifies this
      ensures Valid() && Grows(old(shape), shape) && data == old(data)
      ensures var k := Key(Levels(arch), p);
              match r
              case Ok =>
                && Lookup(old(tables), old(shape), root, k) == Invalid
                && MapsRange(old(tables), old(shape), tables, shape, root, k, 1, frame, perm)
              case NoMemory =>
                && VaValid(arch, p) && SameMaps(old(tables), old(shape), tables, shape)
                && free == [] && Node(root, 0, k / PTES) !in shape
              case Panic => SameMaps(old(tables), old(shape), tables, shape)
                            && (!VaValid(arch, p) || Lookup(old(tables), old(shape), root, k) != Invalid)
      ensures Gains(old(shape), shape, root, Levels(arch), {Key(Levels(arch), p)})
      ensures (!VaValid(arch, p) ==> shape == old(shape))
      ensures r == Ok ==> VaValid(arch, p) && Node(root, 0, Key(Levels(arch), p) / PTES) in shape
    {
      hide TreesOk, PagesOk, Lookup, Gains;
      ghost var k := Key(Levels(arch), p);
      KeyIndex(Levels(arch), p);
      var slot := Walk(root, p, true);
      if slot == BadAddress {
        return Panic;
      }
      if slot == NoSlot {
        return NoMemory;
      }
      var e := LoadPte(root, k, slot.table, Px(p, 0));
      if e != Invalid {
        return Panic;
      }
      StorePte(root, k, slot.table, Px(p, 0), Leaf(frame, perm));
      r := Ok;
    }

    /**
      Map size bytes at va to the physical memory at pa.  On every outcome the page table is the
      old one plus the first m pages of the range; m is the whole range exactly on success. It panics
      at an unaligned range, an address that is not valid and a page that is mapped already.
    */
    method Mappages(root: Frame, va: nat, size: nat, pa: nat, perm: Perm) returns (r: Status, ghost m: nat)
      requires Valid() && IsRoot(Levels(arch), shape, root)
      modifies this
      ensures Valid() && Grows(old(shape), shape) && data == old(data)
      ensures var k := Key(Levels(arch), va / PGSIZE);
              && m <= size / PGSIZE
              && MapsRange(old(tables), old(shape), tables, shape, root, k, m, pa / PGSIZE, perm)
              && if va % PGSIZE != 0 || size % PGSIZE != 0 || size == 0 then r == Panic && m == 0
                 else match r
                   case Ok => m == size / PGSIZE
                   case NoMemory => m < size / PGSIZE && free == [] && Node(root, 0, (k + m) / PTES) !in shape
                   case Panic =>
                     && m < size / PGSIZE
                     && (!VaValid(arch, va / PGSIZE + m) || Lookup(old(tables), old(shape), root, k + m) != Invalid)
      ensures Gains(old(shape), shape, root, Levels(arch), Range(Key(Levels(arch), va / PGSIZE), size / PGSIZE))
      ensures r == Ok ==> Node(root, 0, Key(Levels(arch), va / PGSIZE) / PTES) in shape
    {
      hide TreesOk, PagesOk, Lookup, Gains, MapsRange, SameMaps, Key, VaValid;
      m := 0;
      ghost var p0 := va / PGSIZE;
      ghost var k, n := Key(Levels(arch), p0), size / PGSIZE;
      GainsNone(shape, root, Levels(arch), Range(k, n));
      MapsNone(tables, shape, root, k, pa / PGSIZE, perm);
      if va % PGSIZE != 0 || size % PGSIZE != 0 || size == 0 {
        return Panic, 0;
      }
      var a, phys := va, pa;
      var last := va + size - PGSIZE;
      while true
        invariant a == va + m * PGSIZE && a <= last && phys == pa + m * PGSIZE && m < n
        invariant m > 0 ==>
          VaValid(arch, p0 + m - 1) && Key(Levels(arch), p0 + m - 1) == k + m - 1 && Node(root, 0, k / PTES) in shape
        invariant Valid() && Grows(old(shape), shape) && data == old(data) && IsRoot(Levels(arch), shape, root)
        invariant Gains(old(shape), shape, root, Levels(arch), Range(k, n))
        invariant MapsRange(old(tables), old(shape), tables, shape, root, k, m, pa / PGSIZE, perm)
        decreases last - a
      {
        PageOf(va, m);
        PageOf(pa, m);
        if m > 0 && VaValid(arch, p0 + m) {
          KeyNext(arch, p0 + m - 1);
        }
        ghost var t1, s1 := tables, shape;
        r := MapPage(root, a / PGSIZE, phys / PGSIZE, perm);
        MapsNext(old(tables), old(shape), t1, s1, tables, shape, root, k, m, pa / PGSIZE, perm);
        if VaValid(arch, p0 + m) {
          GainsPage(old(shape), s1, shape, root, Levels(arch), k, m, n);
        }
        if r != Ok {
          return;
        }
        m := m + 1;
        if a == last {
          break;
        }
        a := a + PGSIZE;
        phys := phys + PGSIZE;
      }
    }

    /** One round of the loop of uvmunmap(). */
    method UnmapPage(root: Frame, p: nat, doFree: bool)
      requires VaValid(arch, p) && Valid() && IsRoot(Levels(arch), shape, root)
      requires doFree ==> Owns(tables, shape, data, root, Key(Levels(arch), p), 1)
      modifies this
      ensures Valid() && shape == old(shape)
      ensures UnmapsRange(old(tables), tables, shape, root, Key(Levels(arch), p), 1)
      ensures data == if doFree then old(data) - Mapped(old(tables), shape, root, Key(Levels(arch), p), 1)
                      else old(data)
    {
      hide TreesOk, PagesOk, Lookup, Mapped;
      ghost var k := Key(Levels(arch), p);
      MappedOne(tables, shape, root, k);
      KeyIndex(Levels(arch), p);
      NoTableNoEntry(tables, shape, root, k);
      var slot := Walk(root, p, false);
      if slot == NoSlot {
        return;
      }
      var e := LoadPte(root, k, slot.table, Px(p, 0));
      if e == Invalid {
        return;
      }
      if doFree {
        Kfree(e.frame);
      }
      StorePte(root, k, slot.table, Px(p, 0), Invalid);
    }

    /**
      Remove exactly npages mappings at va, whether or not they exist, and free exactly the pages
      they mapped if asked to.  Table pages are kept.  False is the panic on an unaligned address, or
      on the first address that is not valid, with the m pages before it unmapped.
    */
    method Uvmunmap(root: Frame, va: nat, npages: nat, doFree: bool) returns (ok: bool, ghost m: nat)
      requires Valid() && IsRoot(Levels(arch), shape, root)
      requires doFree ==> Owns(tables, shape, data, root, Key(Levels(arch), va / PGSIZE), npages)
      modifies this
      ensures Valid() && shape == old(shape)
      ensures m <= npages && (ok <==> va % PGSIZE == 0 && m == npages)
      ensures va % PGSIZE != 0 ==> m == 0
      ensures forall p | va / PGSIZE <= p < va / PGSIZE + m :: VaValid(arch, p)
      ensures va % PGSIZE == 0 && m < npages ==> !VaValid(arch, va / PGSIZE + m)
      ensures var k := Key(Levels(arch), va / PGSIZE);
              && UnmapsRange(old(tables), tables, shape, root, k, m)
              && data == if doFree then old(data) - Mapped(old(tables), shape, root, k, m) else old(data)
    {
      hide TreesOk, PagesOk, Lookup, Mapped, Owns, UnmapsRange;
      var p := va / PGSIZE;
      ghost var k := Key(Levels(arch), p);
      UnmapsNone(tables, shape, root, k);
      if va % PGSIZE != 0 {
        return false, 0;
      }
      m := 0;
      for i := 0 to npages
        invariant m == i && (i > 0 ==> VaValid(arch, p + i - 1) && Key(Levels(arch), p + i - 1) == k + i - 1)
        invariant forall q | p <= q < p + i :: VaValid(arch, q)
        invariant Valid() && shape == old(shape)
        invariant UnmapsRange(old(tables), tables, shape, root, k, i)
        invariant data == if doFree then old(data) - Mapped(old(tables), shape, root, k, i) else old(data)
      {
        if !VaValid(arch, p + i) { // the panic of walk()
          return false, i;
        }
        if i > 0 {
          KeyNext(arch, p + i - 1);
        }
        if doFree {
          OwnsNext(old(tables), tables, shape, old(data), data, root, k, i, npages);
        }
        ghost var t1 := tables;
        UnmapPage(root, p + i, doFree);
        UnmapsNext(old(tables), t1, tables, shape, root, k, i);
        m := i + 1;
      }
      ok := true;
    }

    /** mappages() of one user page that is not mapped yet. */
    method MapOne(root: Frame, p: nat, f: Frame, perm: Perm) returns (ok: bool)
      requires Valid() && IsRoot(Levels(arch), shape, root)
      requires p < MAXVA_PAGES && Lookup(tables, shape, root, p) == Invalid
      modifies this
      ensures Valid() && Grows(old(shape), shape) && data == old(data)
      ensures Gains(old(shape), shape, root, Levels(arch), {p})
      ensures if ok then && MapsRange(old(tables), old(shape), tables, shape, root, p, 1, f, perm)
                         && Node(root, 0, p / PTES) in shape
              else SameMaps(old(tables), old(shape), tables, shape) && free == [] && Node(root, 0, p / PTES) !in shape
    {
      hide TreesOk, PagesOk, Lookup, Gains, MapsRange, SameMaps, Key;
      KeyOfValid(arch, p);
      PageOf(0, p);
      PageOf(0, f);
      OneKey(p);
      assert PGSIZE / PGSIZE == 1;
      var r, m := Mappages(root, p * PGSIZE, PGSIZE, f * PGSIZE, perm);
      ok := r == Ok;
      if !ok {
        MapsZero(old(tables), old(shape), tables, shape, root, p, f, perm);
      }
    }

    /**
      Allocate a page, fill it and map it at page p, as uvmalloc, uvmcopy and vmfault do.
      When either step fails everything but added table pages is as before, and the result is 0:
      exactly if the page and the missing tables are more than the free pages.
    */
    method MapNew(root: Frame, p: nat, content: Page, perm: Perm) returns (f: Frame)
      requires Valid() && IsRoot(Levels(arch), shape, root)
      requires p < MAXVA_PAGES && Lookup(tables, shape, root, p) == Invalid
      modifies this
      ensures Valid() && Grows(old(shape), shape)
      ensures f == 0 ==> SameMaps(old(tables), old(shape), tables, shape) && data == old(data)
      ensures f != 0 ==> f !in old(data) && data == old(data)[f := content]
                         && MapsRange(old(tables), old(shape), tables, shape, root, p, 1, f, perm)
      ensures Gains(old(shape), shape, root, Levels(arch), {p})
      ensures if f != 0 then Node(root, 0, p / PTES) in shape
              else free == [] || (|free| == 1 && Node(root, 0, p / PTES) !in shape)
      ensures f == 0 <==> |old(free)| < Need(old(shape), root, Levels(arch), {p})
    {
      hide TreesOk, PagesOk, Lookup, Gains, MapsRange, SameMaps, Missing, Bottoms, Need, Grows, Filled;
      GainsNone(shape, root, Levels(arch), {p});
      SameItself(tables, shape);
      Counted(free, tables, data, shape, node, pool, Levels(arch));
      f := Kalloc();
      if f != 0 {
        OnePage(old(data), f, Filled(5), content);
        SetPage(f, content);
        var ok := MapOne(root, p, f, perm);
        if !ok {
          Kfree(f);
          f := 0;
        }
      }
      NewCount(|old(free)|, old(shape), |old(data)|, free, tables, data, shape, node, pool, Levels(arch), root, p,
               f != 0);
    }

    /** Shrink from oldsz to newsz bytes: unmap and free exactly the pages in between. */
    method Uvmdealloc(root: Frame, oldsz: nat, newsz: nat) returns (r: nat)
      requires Valid() && IsRoot(Levels(arch), shape, root) && PagesFor(oldsz) <= MAXVA_PAGES
      requires newsz < oldsz ==>
                 Owns(tables, shape, data, root, PagesFor(newsz), PagesFor(oldsz) - PagesFor(newsz))
      modifies this
      ensures Valid() && shape == old(shape)
      ensures r == if newsz < oldsz then newsz else oldsz
      ensures var n := if newsz < oldsz then PagesFor(oldsz) - PagesFor(newsz) else 0;
              && UnmapsRange(old(tables), tables, shape, root, PagesFor(newsz), n)
              && data == old(data) - Mapped(old(tables), shape, root, PagesFor(newsz), n)
    {
      hide TreesOk, PagesOk, Lookup, Mapped, Owns, UnmapsRange;
      UnmapsNone(tables, shape, root, PagesFor(newsz));
      if newsz >= oldsz {
        return oldsz;
      }
      if PagesFor(newsz) < PagesFor(oldsz) {
        KeyOfValid(arch, PagesFor(newsz));
        var ok, m := Uvmunmap(root, PagesFor(newsz) * PGSIZE, PagesFor(oldsz) - PagesFor(newsz), true);
      }
      r := newsz;
    }

    /** uvmdealloc() after a failed round: everything mapped so far goes. */
    method Ungrow(root: Frame, lo: nat, m: nat, ghost perm: Perm, ghost t0: Tables, ghost s0: Shape,
                  ghost d0: map<Frame, Page>, ghost fr: seq<Frame>)
      requires Valid() && IsRoot(Levels(arch), shape, root) && lo + m <= MAXVA_PAGES && m == |fr|
      requires AddsPages(t0, s0, tables, shape, root, lo, fr, perm) && AddsData(d0, data, fr, Filled(0))
      requires forall k | lo <= k < lo + m :: Lookup(t0, s0, root, k) == Invalid
      modifies this
      ensures Valid() && shape == old(shape)
      ensures AddsPages(t0, s0, tables, shape, root, lo, [], perm) && AddsData(d0, data, [], Filled(0))
    {
      hide TreesOk, PagesOk, Lookup, AddsPages, AddsData, PagesFor, UnmapsRange, Mapped, Owns;
      AddsOwned(t0, s0, tables, shape, d0, data, root, lo, fr, perm, Filled(0));
      ghost var t2 := tables;
      PagesExact(lo + m);
      PagesExact(lo);
      var r := Uvmdealloc(root, (lo + m) * PGSIZE, lo * PGSIZE);
      AddsUndone(t0, s0, t2, tables, shape, d0, root, lo, fr, perm, Filled(0));
    }

    /** One round of the loop of uvmalloc(); on failure what the rounds before did is undone as well. */
    method GrowOne(root: Frame, lo: nat, m: nat, n: nat, perm: Perm, ghost t0: Tables, ghost s0: Shape,
                   ghost d0: map<Frame, Page>, ghost fr: seq<Frame>, ghost free0: nat) returns (ok: bool,
                   ghost fr': seq<Frame>)
      requires Valid() && IsRoot(Levels(arch), shape, root) && lo + n <= MAXVA_PAGES && m == |fr| < n
      requires Grown(t0, s0, d0, tables, shape, data, root, lo, fr, perm, Levels(arch), n)
      requires forall k | lo <= k < lo + n :: Lookup(t0, s0, root, k) == Invalid
      requires free0 + |s0| + |d0| == |pool|
      modifies this
      ensures Valid() && IsRoot(Levels(arch), shape, root)
      ensures ok ==> |fr'| == m + 1 && Grown(t0, s0, d0, tables, shape, data, root, lo, fr', perm, Levels(arch), n)
      ensures !ok ==> && fr' == [] && Grows(s0, shape) && free0 < Need(s0, root, Levels(arch), Range(lo, n))
                      && AddsPages(t0, s0, tables, shape, root, lo, [], perm) && AddsData(d0, data, [], Filled(0))
    {
      hide TreesOk, PagesOk, Lookup, AddsPages, AddsData, Gains, Missing, PagesFor, Range, SameMaps, MapsRange, Filled;
      hide Grown;
      ghost var t1, s1, d1 := tables, shape, data;
      GrownAt(t0, s0, d0, tables, shape, data, root, lo, fr, perm, Levels(arch), n);
      var f := MapNew(root, lo + m, Filled(0), perm);
      if f == 0 {
        GrownStays(t0, s0, d0, t1, s1, tables, shape, data, root, lo, fr, perm, Levels(arch), n);
        GrowFails(free, tables, data, shape, node, pool, Levels(arch), s0, d0, root, lo, n, fr, free0);
        Ungrow(root, lo, m, perm, t0, s0, d0, fr);
        return false, [];
      }
      GrownNext(t0, s0, d0, t1, s1, d1, tables, shape, data, root, lo, fr, perm, Levels(arch), n, f);
      ok, fr' := true, fr + [f];
    }

    /**
      Grow from oldsz to newsz bytes.  On success exactly the new pages are mapped, each to a
      zeroed page of its own; on failure no mapping and no data page has changed. It fails exactly if
      the new pages and the tables missing for them are more than the free pages.
    */
    method Uvmalloc(root: Frame, oldsz: nat, newsz: nat, perm: Perm) returns (r: nat, ghost fr: seq<Frame>)
      requires Valid() && IsRoot(Levels(arch), shape, root) && PagesFor(newsz) <= MAXVA_PAGES
      requires forall k | PagesFor(oldsz) <= k < PagesFor(newsz) :: Lookup(tables, shape, root, k) == Invalid
      modifies this
      ensures Valid() && Grows(old(shape), shape)
      ensures newsz < oldsz ==> r == oldsz
      ensures newsz >= oldsz ==> r == newsz || r == 0
      ensures newsz < oldsz || (r == 0 && newsz > 0) ==> fr == []
      ensures r == newsz > 0 ==> |fr| == PagesFor(newsz) - PagesFor(oldsz)
      ensures AddsPages(old(tables), old(shape), tables, shape, root, PagesFor(oldsz), fr, perm)
      ensures AddsData(old(data), data, fr, Filled(0))
      ensures newsz >= oldsz && newsz > 0 ==>
        var n := PagesFor(newsz) - PagesFor(oldsz);
        n >= 0 && (r == 0 <==> |old(free)| < Need(old(shape), root, Levels(arch), Range(PagesFor(oldsz), n)))
    {
      hide TreesOk, PagesOk, Lookup, AddsPages, AddsData, Gains, Missing, Bottoms, PagesFor, Range;
      fr := [];
      AddsNothing(tables, shape, data, root, PagesFor(oldsz), perm, Filled(0));
      if newsz < oldsz {
        return oldsz, [];
      }
      PagesOrdered(oldsz, newsz);
      var lo, m := PagesFor(oldsz), 0;
      ghost var n := PagesFor(newsz) - lo;
      Counted(free, tables, data, shape, node, pool, Levels(arch));
      GainsNone(shape, root, Levels(arch), Range(lo, n));
      BottomsNone(shape, root, lo);
      while lo + m < PagesFor(newsz)
        invariant m == |fr| <= n && Valid() && IsRoot(Levels(arch), shape, root)
        invariant Grown(old(tables), old(shape), old(data), tables, shape, data, root, lo, fr, perm, Levels(arch), n)
      {
        var ok;
        ok, fr := GrowOne(root, lo, m, PagesFor(newsz) - lo, perm, old(tables), old(shape), old(data), fr, |old(free)|);
        if !ok {
          return 0, [];
        }
        m := m + 1;
      }
      Counted(free, tables, data, shape, node, pool, Levels(arch));
      AddsSize(old(data), data, fr, Filled(0));
      TablesGained(old(shape), tables, shape, node, root, Levels(arch), Range(lo, n));
      r := newsz;
    }

    /** walk() without allocation followed by a load: the flat map at page p. */
    method Translate(root: Frame, p: nat) returns (e: Pte)
      requires VaValid(arch, p) && Valid() && IsRoot(Levels(arch), shape, root)
      modifies this
      ensures Valid() && Same(old(free), old(tables), old(data), old(shape))
      ensures e == Lookup(tables, shape, root, Key(Levels(arch), p)) && !e.Table?
    {
      hide TreesOk, PagesOk, Lookup;
      NoTableNoEntry(tables, shape, root, Key(Levels(arch), p));
      KeyIndex(Levels(arch), p);
      var slot := Walk(root, p, false);
      e := Invalid;
      if slot != NoSlot {
        e := LoadPte(root, Key(Levels(arch), p), slot.table, Px(p, 0));
      }
    }

    ghost predicate Same(free: seq<Frame>, tables: Tables, data: map<Frame, Page>, shape: Shape)
      reads this
    {
      this.free == free && this.tables == tables && this.data == data && this.shape == shape
    }

    /** The physical address behind a user virtual address, or 0. */
    method Walkaddr(root: Frame, va: nat) returns (pa: nat)
      requires Valid() && IsRoot(Levels(arch), shape, root)
      modifies this
      ensures Valid() && Same(old(free), old(tables), old(data), old(shape))
      ensures var e := if va / PGSIZE < MAXVA_PAGES then Lookup(tables, shape, root, va / PGSIZE) else Invalid;
              pa == if e.Leaf? && e.perm.u then e.frame * PGSIZE else 0
    {
      hide TreesOk, PagesOk, Lookup;
      if va >= MAXVA_PAGES * PGSIZE {
        return 0;
      }
      KeyOfValid(arch, va / PGSIZE);
      var e := Translate(root, va / PGSIZE);
      pa := if e.Leaf? && e.perm.u then e.frame * PGSIZE else 0;
    }

    /**
      Copy the first sz bytes of page table src into dst.  On success dst maps, for exactly the
      pages that src maps, a page of its own with equal contents and permissions; on failure no
      mapping and no data page has changed.  src is never changed. It fails exactly if the copies and
      the tables missing for them are more than the free pages.
    */
    method Uvmcopy(src: Frame, dst: Frame, sz: nat) returns (ok: bool, ghost cp: map<nat, Frame>)
      requires Valid() && IsRoot(Levels(arch), shape, src) && IsRoot(Levels(arch), shape, dst) && src != dst
      requires PagesFor(sz) <= MAXVA_PAGES
      requires forall k | 0 <= k < PagesFor(sz) :: Lookup(tables, shape, dst, k) == Invalid
      requires forall k | 0 <= k < PagesFor(sz) && Lookup(tables, shape, src, k).Leaf? ::
                 Lookup(tables, shape, src, k).frame in data
      modifies this
      ensures Valid() && Grows(old(shape), shape)
      ensures Copies(old(tables), old(shape), tables, shape, src, dst, if ok then PagesFor(sz) else 0, cp)
      ensures CopiesData(old(tables), old(shape), old(data), data, src, cp)
      ensures !ok <==>
              |old(free)| < Need(old(shape), dst, Levels(arch), MappedKeys(old(tables), old(shape), src, PagesFor(sz)))
    {
      hide TreesOk, PagesOk, Lookup, Copies, CopiesData, Gains, Missing, Bottoms;
      ghost var t0, s0, d0, free0 := tables, shape, data, |free|;
      ghost var ks := MappedKeys(tables, shape, src, PagesFor(sz));
      Counted(free, tables, data, shape, node, pool, Levels(arch));
      GainsNone(shape, dst, Levels(arch), ks);
      cp := map[];
      CopiesNothing(t0, s0, d0, src, dst);
      BottomsEmpty(shape, dst);
      assert cp.Keys == {};
      for i := 0 to PagesFor(sz)
        invariant Gains(s0, shape, dst, Levels(arch), ks) && Bottoms(shape, dst, cp.Keys)
        invariant Valid() && Grows(s0, shape)
        invariant IsRoot(Levels(arch), shape, src) && IsRoot(Levels(arch), shape, dst)
        invariant Copies(t0, s0, tables, shape, src, dst, i, cp)
        invariant CopiesData(t0, s0, d0, data, src, cp)
      {
        ghost var t1, s1, d1 := tables, shape, data;
        CopiesAt(t0, s0, t1, s1, d0, d1, src, dst, i, cp);
        KeyOfValid(arch, i);
        var e := Translate(src, i);
        if e == Invalid {
          CopiesSkip(t0, s0, t1, s1, src, dst, i, cp);
          continue;
        }
        var f := MapNew(dst, i, data[e.frame], e.perm);
        GainsKey(s0, s1, shape, dst, Levels(arch), ks, i);
        BottomsKey(s1, shape, dst, cp, i, f);
        if f == 0 {
          Counted(free, tables, data, shape, node, pool, Levels(arch));
          CopiesSize(t0, s0, d0, data, src, cp);
          FewerCopies(t0, s0, t1, s1, src, dst, i, cp, PagesFor(sz));
          OutOfPages(s0, tables, shape, node, dst, Levels(arch), ks, i, free0, |free|, |cp|);
          CopiesSame(t0, s0, t1, s1, tables, shape, src, dst, i, cp);
          CopiesOwned(t0, s0, tables, shape, d0, data, src, dst, i, cp);
          KeyOfValid(arch, 0);
          ghost var t2 := tables;
          ghost var undone;
          ok, undone := Uvmunmap(dst, 0, i, true);
          CopiesUndone(t0, s0, t2, tables, shape, src, dst, i, cp);
          CopiesNothing(t0, s0, d0, src, dst);
          return false, map[];
        }
        CopiesNext(t0, s0, t1, s1, tables, shape, src, dst, i, cp, f);
        CopiesDataNext(t0, s0, d0, d1, data, src, cp, i, f);
        cp := cp[i := f];
      }
      Counted(free, tables, data, shape, node, pool, Levels(arch));
      CopiesSize(t0, s0, d0, data, src, cp);
      AllCopied(t0, s0, tables, shape, src, dst, PagesFor(sz), cp);
      TablesGained(s0, tables, shape, node, dst, Levels(arch), ks);
      ok := true;
    }

    /** Clear entry i of table page t. */
    method ClearEntry(t: Frame, i: nat)
      requires t in tables && i < |tables[t]| && PagesOk(free, tables, data, pool) && Indexed(tables, shape, node)
      modifies this`tables
      ensures tables == old(tables)[t := old(tables)[t][i := Invalid]]
      ensures PagesOk(free, tables, data, pool) && Indexed(tables, shape, node)
    {
      tables := tables[t := tables[t][i := Invalid]];
    }

    /** kfree() of the table page t, which was table n. */
    method DropTable(t: Frame, ghost n: Node)
      requires n in shape && shape[n] == t && PagesOk(free, tables, data, pool) && Indexed(tables, shape, node)
      modifies this
      ensures tables == old(tables) - {t} && shape == old(shape) - {n} && node == old(node) - {t}
      ensures data == old(data) && free == [t] + old(free)
      ensures PagesOk(free, tables, data, pool)
    {
      tables := tables - {t};
      free := [t] + free;
      shape := shape - {n};
      node := node - {t};
    }

    /**
      freewalk() on the table page t, which is table n of its tree: free t and every table below
      it, each once, and nothing else.  Its panic on a leaf is unreachable.
    */
    method Freewalk(t: Frame, ghost n: Node)
      requires PagesOk(free, tables, data, pool) && Subtree(tables, shape, node, n)
      requires n in shape && shape[n] == t
      modifies this
      ensures PagesOk(free, tables, data, pool) && Indexed(tables, shape, node)
      ensures Pruned(old(tables), old(shape), tables, shape, n, PTES, true)
      ensures data == old(data)
      decreases n.level
    {
      hide PagesOk, Indexed, Subtree, Pruned;
      ghost var t0, s0, n0 := tables, shape, node;
      PrunedNone(tables, shape, node, n);
      for i := 0 to PTES
        invariant PagesOk(free, tables, data, pool) && Indexed(tables, shape, node)
        invariant n in shape && shape[n] == t
        invariant Pruned(t0, s0, tables, shape, n, i, false)
        invariant data == old(data)
      {
        PrunedEntry(t0, s0, n0, tables, shape, n, i);
        var pte := tables[t][i];
        if pte != Invalid {
          if pte.Leaf? {
            assert false; // panic("freewalk: leaf")
          }
          ghost var t1, s1, n1 := tables, shape, node;
          PrunedBelow(t0, s0, n0, t1, s1, n1, n, i);
          Freewalk(pte.frame, Down(n, i));
          PrunedNext(t0, s0, t1, s1, n1, tables, shape, n, i);
          ClearEntry(t, i);
        } else {
          PrunedSkip(t0, s0, n0, tables, shape, n, i);
        }
      }
      PrunedSelf(t0, s0, tables, shape, node, n);
      DropTable(t, n);
    }

    /**
      Free a process's memory: its user pages below sz, each once, and then all its table pages.
      Nothing of the page table remains and no other page table changes.
    */
    method Uvmfree(root: Frame, sz: nat)
      requires Valid() && IsRoot(Levels(arch), shape, root) && PagesFor(sz) <= MAXVA_PAGES
      requires Owns(tables, shape, data, root, 0, PagesFor(sz))
      requires forall k: nat | k >= PagesFor(sz) :: Lookup(tables, shape, root, k) == Invalid
      modifies this
      ensures Valid()
      ensures data == old(data) - Mapped(old(tables), old(shape), root, 0, PagesFor(sz))
      ensures forall m :: m in shape <==> m in old(shape) && m.root != root
      ensures forall r: Frame, k: nat | r != root ::
                Lookup(tables, shape, r, k) == Lookup(old(tables), old(shape), r, k)
    {
      hide TreesOk, PagesOk, Lookup, Mapped, Owns, Subtree, Pruned, Indexed;
      KeyOfValid(arch, 0);
      UnmapsNone(tables, shape, root, 0);
      if sz > 0 {
        var ok, m := Uvmunmap(root, 0, PagesFor(sz), true);
      }
      EmptyTreeBare(Levels(arch), tables, shape, node, root);
      RootTable(Levels(arch), tables, shape, node, root);
      ghost var t0, s0, n0 := tables, shape, node;
      Freewalk(root, Node(root, Levels(arch) - 1, 0));
      OtherTreesOk(Levels(arch), t0, s0, n0, tables, shape, node, root);
    }
  }
}
