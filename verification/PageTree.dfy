/**
  Radix page tables (kernel/vm.c) as trees of table pages, and the flat map they denote.

  A table page holds 512 entries.  The table of level l that serves page p is identified by
  (root, l, q), where q is p shifted right by 9 * (l + 1) bits and cut to the indexed part;
  its entry for p is number q' % 512 and its child on the path is (root, l - 1, q').
*/
module PageTree {
  const PTES: nat := 512

  type Frame = nat // physical page number; 0 is the null pointer

  datatype Perm = Perm(r: bool, w: bool, x: bool, u: bool)
  datatype Pte = Invalid | Table(frame: Frame) | Leaf(frame: Frame, perm: Perm)

  datatype Node = Node(root: Frame, level: nat, q: nat)

  // ---- Indices ----

  /** p shifted right by 9 * l bits. */
  function Shift(p: nat, l: nat): nat {
    if l == 0 then p else Shift(p, l - 1) / PTES
  }

  /** PX(l, va) for page number p = va >> 12. */
  function Px(p: nat, l: nat): (i: nat)
    ensures i < PTES
  {
    Shift(p, l) % PTES
  }

  /** The low 9 * levels bits of p: the part that a walk of that many levels looks at. */
  function Key(levels: nat, p: nat): nat {
    if levels == 0 then 0 else Key(levels - 1, p / PTES) * PTES + p % PTES
  }

  /** The part of p that selects the table of level l - 1 on p's path. */
  function Prefix(levels: nat, p: nat, l: nat): nat
    requires l <= levels
  {
    Key(levels - l, Shift(p, l))
  }

  lemma PrefixStep(levels: nat, p: nat, l: nat)
    requires l < levels
    ensures Prefix(levels, p, l) / PTES == Prefix(levels, p, l + 1)
    ensures Prefix(levels, p, l) % PTES == Px(p, l)
  {}

  function Power(levels: nat): (n: nat)
    ensures n > 0
  {
    if levels == 0 then 1 else Power(levels - 1) * PTES
  }

  lemma {:induction false} KeySplits(levels: nat, p: nat)
    ensures p == Shift(p, levels) * Power(levels) + Key(levels, p)
    ensures Key(levels, p) < Power(levels)
  {
    if levels > 0 {
      KeySplits(levels - 1, p / PTES);
      ShiftInside(p, levels - 1);
      var s, n := Shift(p, levels), Power(levels - 1);
      Grouped(p, s, n, Key(levels - 1, p / PTES));
    }
  }

  lemma Grouped(p: nat, s: nat, n: nat, k: nat)
    requires p / PTES == s * n + k
    ensures p == s * (n * PTES) + (k * PTES + p % PTES)
  {
    Associates(s, n);
  }

  lemma Associates(s: nat, n: nat)
    ensures (s * n) * PTES == s * (n * PTES)
  {}

  lemma {:induction false} ShiftInside(p: nat, l: nat)
    ensures Shift(p, l + 1) == Shift(p / PTES, l)
  {
    if l > 0 { ShiftInside(p, l - 1); }
  }

  /** Two pages with the same index at every level have the same key. */
  lemma {:induction false} IndicesDetermineKey(levels: nat, p: nat, p': nat)
    requires forall l | 0 <= l < levels :: Px(p, l) == Px(p', l)
    ensures Key(levels, p) == Key(levels, p')
  {
    if levels > 0 {
      forall l | 0 <= l < levels - 1
        ensures Px(p / PTES, l) == Px(p' / PTES, l)
      {
        ShiftInside(p, l);
        ShiftInside(p', l);
        assert Px(p, l + 1) == Px(p', l + 1);
      }
      IndicesDetermineKey(levels - 1, p / PTES, p' / PTES);
      assert Px(p, 0) == Px(p', 0);
    }
  }

  // ---- The two architectures ----

  datatype Arch = RiscV | LoongArch

  function Levels(a: Arch): (n: nat)
    ensures n > 0
  {
    match a case RiscV => 3 case LoongArch => 4
  }

  const MAXVA_PAGES: nat := 0x4000000           // MAXVA >> 12, both architectures
  const KSTACK_TOP_PAGE: nat := 0xFFFFFFFFFFFFF // KSTACK_TOP >> 12
  const KSTACK_PAGES: nat := 64 * 3             // NPROC stacks of two pages and a guard

  /** hal_pagetable_va_valid() for page number p. */
  predicate VaValid(a: Arch, p: nat) {
    || p < MAXVA_PAGES
    || (a == LoongArch && KSTACK_TOP_PAGE - KSTACK_PAGES <= p < KSTACK_TOP_PAGE)
  }

  /** Where each valid page falls among the keys of its architecture. */
  lemma KeyOfValid(a: Arch, p: nat)
    requires VaValid(a, p)
    ensures Key(Levels(a), p) == if p < MAXVA_PAGES then p else p - (KSTACK_TOP_PAGE - 0xFFFFFFFFF)
  {
    hide Power;
    KeySplits(Levels(a), p);
    Powers();
    match a
    case RiscV => Low(Shift(p, 3), Power(3), Key(3, p), p);
    case LoongArch =>
      if p < MAXVA_PAGES {
        Low(Shift(p, 4), Power(4), Key(4, p), p);
      } else {
        High(Shift(p, 4), Key(4, p), p);
      }
  }

  lemma Powers()
    ensures Power(3) == 0x800_0000 && Power(4) == 0x10_0000_0000
  {
    assert Power(0) == 1 && Power(1) == 0x200 && Power(2) == 0x4_0000;
  }

  lemma Low(s: nat, n: nat, k: nat, p: nat)
    requires p == s * n + k && k < n && p < n
    ensures k == p
  {
    if s > 0 { AtLeast(s, n); }
  }

  lemma AtLeast(s: nat, n: nat)
    requires s > 0
    ensures s * n >= n
  {}

  lemma High(s: nat, k: nat, p: nat)
    requires p == s * 0x10_0000_0000 + k && k < 0x10_0000_0000
    requires KSTACK_TOP_PAGE - KSTACK_PAGES <= p < KSTACK_TOP_PAGE
    ensures k == p - (KSTACK_TOP_PAGE - 0xFFFFFFFFF)
  {}

  /** Distinct valid pages are told apart by their index vectors, also across the two windows. */
  lemma ValidPagesDistinct(a: Arch, p: nat, p': nat)
    requires VaValid(a, p) && VaValid(a, p') && p != p'
    ensures Key(Levels(a), p) != Key(Levels(a), p')
    ensures exists l | 0 <= l < Levels(a) :: Px(p, l) != Px(p', l)
  {
    KeyOfValid(a, p);
    KeyOfValid(a, p');
    if forall l | 0 <= l < Levels(a) :: Px(p, l) == Px(p', l) {
      IndicesDetermineKey(Levels(a), p, p');
    }
  }

  lemma KeyNext(a: Arch, p: nat)
    requires VaValid(a, p) && VaValid(a, p + 1)
    ensures Key(Levels(a), p + 1) == Key(Levels(a), p) + 1
  {
    KeyOfValid(a, p);
    KeyOfValid(a, p + 1);
  }

  // ---- Trees of table pages ----

  type Tables = map<Frame, seq<Pte>>
  type Shape = map<Node, Frame>

  function Up(n: Node): Node {
    Node(n.root, n.level + 1, n.q / PTES)
  }

  function Down(n: Node, i: nat): Node
    requires n.level > 0
  {
    Node(n.root, n.level - 1, n.q * PTES + i)
  }

  /** Entry i of table n agrees with which tables exist below n. */
  predicate EntryOk(tables: Tables, shape: Shape, n: Node, i: nat)
    requires n in shape && shape[n] in tables && i < |tables[shape[n]]|
  {
    var e := tables[shape[n]][i];
    if n.level == 0 then !e.Table?
    else e == if Down(n, i) in shape then Table(shape[Down(n, i)]) else Invalid
  }

  /** Table n is a root, or the table above it exists. */
  predicate LinkOk(levels: nat, shape: Shape, n: Node)
    requires n in shape
  {
    && n.level < levels
    && if n.level == levels - 1 then n.q == 0 && n.root == shape[n] else Up(n) in shape
  }

  /** node is the inverse of shape: every table page is exactly one table of one tree. */
  ghost predicate TreesOk(levels: nat, tables: Tables, shape: Shape, node: map<Frame, Node>) {
    && (forall f :: f in tables <==> f in node)
    && (forall f | f in tables :: |tables[f]| == PTES && node[f] in shape && shape[node[f]] == f)
    && (forall n | n in shape :: shape[n] in tables && node[shape[n]] == n && LinkOk(levels, shape, n))
    && (forall n, i | n in shape && 0 <= i < PTES :: EntryOk(tables, shape, n, i))
  }

  predicate IsRoot(levels: nat, shape: Shape, root: Frame) {
    levels > 0 && Node(root, levels - 1, 0) in shape
  }

  /** The flat map of a page table: key k of the tree at root. */
  function Lookup(tables: Tables, shape: Shape, root: Frame, k: nat): Pte {
    var n := Node(root, 0, k / PTES);
    if n in shape && shape[n] in tables && k % PTES < |tables[shape[n]]| then tables[shape[n]][k % PTES] else Invalid
  }

  ghost predicate SameMaps(t0: Tables, s0: Shape, t1: Tables, s1: Shape) {
    forall root, k :: Lookup(t1, s1, root, k) == Lookup(t0, s0, root, k)
  }

  /** If the bottom table for page p exists, so does every table on the way to it. */
  lemma {:induction false} PathExists(levels: nat, tables: Tables, shape: Shape, node: map<Frame, Node>, root: Frame,
                                      p: nat, l: nat)
    requires TreesOk(levels, tables, shape, node) && l < levels
    requires Node(root, 0, Prefix(levels, p, 1)) in shape
    ensures Node(root, l, Prefix(levels, p, l + 1)) in shape
  {
    hide TreesOk, Prefix, Px;
    if l > 0 {
      PathExists(levels, tables, shape, node, root, p, l - 1);
      PrefixStep(levels, p, l);
      AboveExists(levels, tables, shape, node, Node(root, l - 1, Prefix(levels, p, l)));
    }
  }

  lemma AboveExists(levels: nat, tables: Tables, shape: Shape, node: map<Frame, Node>, n: Node)
    requires TreesOk(levels, tables, shape, node) && n in shape && n.level + 1 < levels
    ensures Up(n) in shape
  {
    assert LinkOk(levels, shape, n);
  }

  lemma PathMissing(levels: nat, tables: Tables, shape: Shape, node: map<Frame, Node>, root: Frame, p: nat, l: nat)
    requires TreesOk(levels, tables, shape, node) && l < levels
    requires Node(root, l, Prefix(levels, p, l + 1)) !in shape
    ensures Node(root, 0, Key(levels, p) / PTES) !in shape
  {
    hide TreesOk;
    PrefixStep(levels, p, 0);
    if Node(root, 0, Prefix(levels, p, 1)) in shape {
      PathExists(levels, tables, shape, node, root, p, l);
    }
  }

  lemma RootTable(levels: nat, tables: Tables, shape: Shape, node: map<Frame, Node>, root: Frame)
    requires TreesOk(levels, tables, shape, node) && IsRoot(levels, shape, root)
    ensures shape[Node(root, levels - 1, 0)] == root
  {
    assert LinkOk(levels, shape, Node(root, levels - 1, 0));
  }

  /** What walk() finds in entry i of an inner table: the child table, or nothing. */
  lemma TableEntry(levels: nat, tables: Tables, shape: Shape, node: map<Frame, Node>, n: Node, i: nat)
    requires TreesOk(levels, tables, shape, node) && n in shape && n.level > 0 && i < PTES
    ensures shape[n] in tables && |tables[shape[n]]| == PTES
    ensures tables[shape[n]][i] == if Down(n, i) in shape then Table(shape[Down(n, i)]) else Invalid
  {
    assert EntryOk(tables, shape, n, i);
  }

  /** uvmcreate(): a new root with an empty table. */
  lemma AddRoot(levels: nat, tables: Tables, shape: Shape, node: map<Frame, Node>, f: Frame)
    requires TreesOk(levels, tables, shape, node) && levels > 0 && f !in tables
    ensures var n := Node(f, levels - 1, 0);
            var t1, s1 := tables[f := seq(PTES, _ => Invalid)], shape[n := f];
            && TreesOk(levels, t1, s1, node[f := n])
            && SameMaps(tables, shape, t1, s1)
            && forall k: nat :: Lookup(t1, s1, f, k) == Invalid
  {
    var n := Node(f, levels - 1, 0);
    var t1, s1 := tables[f := seq(PTES, _ => Invalid)], shape[n := f];
    forall m | m in shape ensures m.root != f { RootOfNode(levels, tables, shape, node, m); }
    forall m, j | m in s1 && 0 <= j < PTES ensures EntryOk(t1, s1, m, j) {
      assert m in shape ==> EntryOk(tables, shape, m, j);
    }
  }

  lemma {:induction false} RootOfNode(levels: nat, tables: Tables, shape: Shape, node: map<Frame, Node>, m: Node)
    requires TreesOk(levels, tables, shape, node) && m in shape
    ensures m.level < levels && m.root in tables
    decreases levels - m.level
  {
    assert LinkOk(levels, shape, m);
    if m.level < levels - 1 { RootOfNode(levels, tables, shape, node, Up(m)); }
  }

  function WithTable(tables: Tables, shape: Shape, n: Node, i: nat, f: Frame): Tables
    requires n in shape && shape[n] in tables && i < |tables[shape[n]]|
  {
    tables[f := seq(PTES, _ => Invalid)][shape[n] := tables[shape[n]][i := Table(f)]]
  }

  /** walk(): hanging an empty table f under entry i of table n leaves every flat map as it was. */
  lemma AddTable(levels: nat, tables: Tables, shape: Shape, node: map<Frame, Node>, n: Node, i: nat, f: Frame)
    requires TreesOk(levels, tables, shape, node)
    requires n in shape && n.level > 0 && i < PTES && Down(n, i) !in shape && f !in tables
    ensures var c := Down(n, i);
            var t1 := WithTable(tables, shape, n, i, f);
            && TreesOk(levels, t1, shape[c := f], node[f := c])
            && SameMaps(tables, shape, t1, shape[c := f])
  {
    hide Lookup;
    var c := Down(n, i);
    assert Up(c) == n;
    var t1 := WithTable(tables, shape, n, i, f);
    var s1 := shape[c := f];
    forall m, j | m in s1 && 0 <= j < PTES
      ensures EntryOk(t1, s1, m, j)
    {
      AddTableEntry(levels, tables, shape, node, n, i, f, m, j);
    }
    forall root: Frame, k: nat
      ensures Lookup(t1, s1, root, k) == Lookup(tables, shape, root, k)
    {
      AddTableLookup(levels, tables, shape, node, n, i, f, root, k);
    }
  }

  lemma AddTableLookup(levels: nat, tables: Tables, shape: Shape, node: map<Frame, Node>, n: Node, i: nat, f: Frame,
                       root: Frame, k: nat)
    requires TreesOk(levels, tables, shape, node)
    requires n in shape && n.level > 0 && i < PTES && Down(n, i) !in shape && f !in tables
    ensures shape[n] in tables && i < |tables[shape[n]]|
    ensures Lookup(WithTable(tables, shape, n, i, f), shape[Down(n, i) := f], root, k) == Lookup(tables, shape, root, k)
  {
    var m := Node(root, 0, k / PTES);
    if m in shape && m != n { assert shape[m] != shape[n] && shape[m] != f; }
  }

  lemma AddTableEntry(levels: nat, tables: Tables, shape: Shape, node: map<Frame, Node>, n: Node, i: nat, f: Frame,
                      m: Node, j: nat)
    requires TreesOk(levels, tables, shape, node)
    requires n in shape && n.level > 0 && i < PTES && Down(n, i) !in shape && f !in tables
    requires (m in shape || m == Down(n, i)) && j < PTES
    ensures var t1, s1 := WithTable(tables, shape, n, i, f), shape[Down(n, i) := f];
            s1[m] in t1 && |t1[s1[m]]| == PTES && EntryOk(t1, s1, m, j)
  {
    var c := Down(n, i);
    assert Up(c) == n;
    assert m.level > 0 ==> Up(Down(m, j)) == m;
    if m != c {
      assert EntryOk(tables, shape, m, j);
      assert m != n ==> shape[m] != shape[n];
    }
  }

  /** Writing a bottom entry changes the flat map at one key. */
  lemma SetEntry(levels: nat, tables: Tables, shape: Shape, node: map<Frame, Node>, root: Frame, k: nat, e: Pte)
    requires TreesOk(levels, tables, shape, node)
    requires Node(root, 0, k / PTES) in shape && !e.Table?
    ensures var f := shape[Node(root, 0, k / PTES)];
            var t1 := tables[f := tables[f][k % PTES := e]];
            && TreesOk(levels, t1, shape, node)
            && forall r: Frame, j: nat ::
                 Lookup(t1, shape, r, j) == if r == root && j == k then e else Lookup(tables, shape, r, j)
  {
    var n := Node(root, 0, k / PTES);
    var f := shape[n];
    var t1 := tables[f := tables[f][k % PTES := e]];
    forall m, j | m in shape && 0 <= j < PTES
      ensures EntryOk(t1, shape, m, j)
    {
      assert EntryOk(tables, shape, m, j);
      assert m != n ==> shape[m] != f;
    }
    forall r: Frame, j: nat
      ensures Lookup(t1, shape, r, j) == if r == root && j == k then e else Lookup(tables, shape, r, j)
    {
      SetEntryAt(levels, tables, shape, node, root, k, e, r, j);
    }
  }

  lemma SetEntryAt(levels: nat, tables: Tables, shape: Shape, node: map<Frame, Node>, root: Frame, k: nat, e: Pte,
                   r: Frame, j: nat)
    requires TreesOk(levels, tables, shape, node) && Node(root, 0, k / PTES) in shape
    ensures var f := shape[Node(root, 0, k / PTES)];
            Lookup(tables[f := tables[f][k % PTES := e]], shape, r, j)
            == if r == root && j == k then e else Lookup(tables, shape, r, j)
  {
    var m, n := Node(r, 0, j / PTES), Node(root, 0, k / PTES);
    if m in shape && m != n { assert shape[m] != shape[n]; }
    assert j == j / PTES * PTES + j % PTES && k == k / PTES * PTES + k % PTES;
  }
}
