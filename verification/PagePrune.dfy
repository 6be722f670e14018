/** Removing a subtree of table pages, as freewalk() does. */
module PagePrune {
  import opened PageTree

  /** m is table n or lies below it. */
  predicate Under(n: Node, m: Node) {
    m.root == n.root && m.level <= n.level && Shift(m.q, n.level - m.level) == n.q
  }

  /** m lies below one of the first i entries of table n. */
  predicate Gone(n: Node, i: nat, m: Node) {
    && m.root == n.root && m.level < n.level
    && n.q * PTES <= Shift(m.q, n.level - 1 - m.level) < n.q * PTES + i
  }

  lemma GoneStep(n: Node, i: nat, m: Node)
    requires n.level > 0 && i < PTES
    ensures Gone(n, i + 1, m) <==> Gone(n, i, m) || Under(Down(n, i), m)
    ensures Under(Down(n, i), m) ==> Under(n, m) && !Gone(n, i, m)
  {}

  lemma UnderSteps(n: Node, m: Node)
    requires Under(n, m)
    ensures m != n ==> Under(n, Up(m))
    ensures m.level > 0 ==> forall k | 0 <= k < PTES :: Under(n, Down(m, k))
  {
    if m.level < n.level {
      ShiftInside(m.q, n.level - m.level - 1);
    }
    if m.level > 0 {
      forall k | 0 <= k < PTES ensures Under(n, Down(m, k)) {
        ShiftInside(m.q * PTES + k, n.level - m.level);
        assert (m.q * PTES + k) / PTES == m.q;
      }
    }
  }

  /** shape and node are inverse, and every table page has a place in some tree. */
  ghost predicate Indexed(tables: Tables, shape: Shape, node: map<Frame, Node>) {
    && (forall f :: f in tables <==> f in node)
    && (forall f | f in tables :: |tables[f]| == PTES && node[f] in shape && shape[node[f]] == f)
    && (forall n | n in shape :: shape[n] in tables && node[shape[n]] == n)
  }

  ghost predicate BareTable(tables: Tables, shape: Shape, n: Node, m: Node)
    requires m in shape && shape[m] in tables && |tables[shape[m]]| == PTES
  {
    && (m != n ==> Up(m) in shape)
    && (forall i | 0 <= i < PTES :: EntryOk(tables, shape, m, i))
    && (m.level == 0 ==> forall i | 0 <= i < PTES :: tables[shape[m]][i] == Invalid)
  }

  /** The tables at and below n are well linked and map no page. */
  ghost predicate Subtree(tables: Tables, shape: Shape, node: map<Frame, Node>, n: Node) {
    Indexed(tables, shape, node) && forall m | m in shape && Under(n, m) :: BareTable(tables, shape, n, m)
  }

  /** Tables below the first i entries of n are gone and those entries cleared; with `self`, n is gone too. */
  ghost predicate Pruned(t0: Tables, s0: Shape, t1: Tables, s1: Shape, n: Node, i: nat, self: bool) {
    && (forall m :: m in s1 <==> m in s0 && !Gone(n, i, m) && !(self && m == n))
    && (forall m | m in s1 :: s1[m] == s0[m] && s0[m] in t0 && s0[m] in t1)
    && (forall m | m in s1 && m != n :: t1[s0[m]] == t0[s0[m]])
    && (n in s1 ==>
          && |t0[s0[n]]| == |t1[s0[n]]| == PTES
          && forall j | 0 <= j < PTES :: t1[s0[n]][j] == if j < i then Invalid else t0[s0[n]][j])
  }

  lemma PrunedNone(tables: Tables, shape: Shape, node: map<Frame, Node>, n: Node)
    requires Subtree(tables, shape, node, n)
    ensures Indexed(tables, shape, node) && Pruned(tables, shape, tables, shape, n, 0, false)
  {}

  /** What freewalk() reads at entry i of n. */
  lemma PrunedEntry(t0: Tables, s0: Shape, n0: map<Frame, Node>, t1: Tables, s1: Shape, n: Node, i: nat)
    requires Subtree(t0, s0, n0, n) && n in s1 && i < PTES && Pruned(t0, s0, t1, s1, n, i, false)
    ensures s1[n] in t1 && |t1[s1[n]]| == PTES
    ensures n.level == 0 ==> t1[s1[n]][i] == Invalid
    ensures n.level > 0 ==> t1[s1[n]][i] == if Down(n, i) in s0 then Table(s0[Down(n, i)]) else Invalid
    ensures n.level > 0 ==> (Down(n, i) in s0 <==> Down(n, i) in s1)
    ensures n.level > 0 && Down(n, i) in s1 ==> s1[Down(n, i)] == s0[Down(n, i)]
  {
    assert Under(n, n);
    assert EntryOk(t0, s0, n, i);
  }

  lemma {:induction false} ChildAbove(t: Tables, s: Shape, node: map<Frame, Node>, n: Node, i: nat, m: Node)
    requires Subtree(t, s, node, n) && n.level > 0 && i < PTES && m in s && Under(Down(n, i), m)
    ensures Down(n, i) in s
    decreases n.level - m.level
  {
    if m != Down(n, i) {
      GoneStep(n, i, m);
      UnderSteps(Down(n, i), m);
      assert BareTable(t, s, n, m);
      ChildAbove(t, s, node, n, i, Up(m));
    }
  }

  /** An empty entry has nothing below it. */
  lemma PrunedSkip(t0: Tables, s0: Shape, n0: map<Frame, Node>, t1: Tables, s1: Shape, n: Node, i: nat)
    requires Subtree(t0, s0, n0, n) && n in s1 && i < PTES && Pruned(t0, s0, t1, s1, n, i, false)
    requires t1[s1[n]][i] == Invalid
    ensures Pruned(t0, s0, t1, s1, n, i + 1, false)
  {
    PrunedEntry(t0, s0, n0, t1, s1, n, i);
    if n.level > 0 {
      forall m | m in s0 ensures Gone(n, i + 1, m) <==> Gone(n, i, m) {
        GoneStep(n, i, m);
        if Under(Down(n, i), m) { ChildAbove(t0, s0, n0, n, i, m); }
      }
    }
  }

  /** The subtree below entry i is still intact when freewalk() reaches it. */
  lemma PrunedBelow(t0: Tables, s0: Shape, n0: map<Frame, Node>, t1: Tables, s1: Shape, n1: map<Frame, Node>, n: Node,
                    i: nat)
    requires Subtree(t0, s0, n0, n) && Indexed(t1, s1, n1) && n in s1 && n.level > 0 && i < PTES
    requires Pruned(t0, s0, t1, s1, n, i, false)
    ensures Subtree(t1, s1, n1, Down(n, i))
  {
    var c := Down(n, i);
    forall m | m in s1 && Under(c, m) ensures BareTable(t1, s1, c, m) {
      PrunedBelowAt(t0, s0, n0, t1, s1, n1, n, i, m);
    }
  }

  lemma PrunedBelowAt(t0: Tables, s0: Shape, n0: map<Frame, Node>, t1: Tables, s1: Shape, n1: map<Frame, Node>, n: Node,
                      i: nat, m: Node)
    requires Subtree(t0, s0, n0, n) && Indexed(t1, s1, n1) && n in s1 && n.level > 0 && i < PTES
    requires Pruned(t0, s0, t1, s1, n, i, false) && m in s1 && Under(Down(n, i), m)
    ensures BareTable(t1, s1, Down(n, i), m)
  {
    var c := Down(n, i);
    GoneStep(n, i, m);
    UnderSteps(c, m);
    assert BareTable(t0, s0, n, m);
    if m != c { GoneStep(n, i, Up(m)); }
    forall k | 0 <= k < PTES ensures EntryOk(t1, s1, m, k) {
      assert EntryOk(t0, s0, m, k);
      if m.level > 0 { GoneStep(n, i, Down(m, k)); }
    }
  }

  /** Freeing the subtree below entry i and clearing the entry completes one round. */
  lemma PrunedNext(t0: Tables, s0: Shape, t1: Tables, s1: Shape, n1: map<Frame, Node>, t2: Tables, s2: Shape, n: Node,
                   i: nat)
    requires Pruned(t0, s0, t1, s1, n, i, false) && n in s1 && n.level > 0 && i < PTES
    requires Indexed(t1, s1, n1) && Pruned(t1, s1, t2, s2, Down(n, i), PTES, true)
    ensures n in s2 && s2[n] == s1[n] && s2[n] in t2 && |t2[s2[n]]| == PTES
    ensures Pruned(t0, s0, t2[s2[n] := t2[s2[n]][i := Invalid]], s2, n, i + 1, false)
  {
    var c := Down(n, i);
    assert !Gone(c, PTES, n);
    forall m ensures Gone(n, i + 1, m) <==> Gone(n, i, m) || m == c || Gone(c, PTES, m) {
      GoneStep(n, i, m);
      UnderGone(c, m);
    }
    forall m | m in s1 && m != n ensures s1[m] != s1[n] {
      assert n1[s1[m]] == m && n1[s1[n]] == n;
    }
  }

  lemma UnderGone(n: Node, m: Node)
    ensures Under(n, m) <==> m == n || Gone(n, PTES, m)
  {
    if m.level < n.level {
      assert Shift(m.q, n.level - m.level) == Shift(m.q, n.level - 1 - m.level) / PTES;
    }
  }

  /** Dropping n itself once everything below it is gone. */
  lemma PrunedSelf(t0: Tables, s0: Shape, t1: Tables, s1: Shape, n1: map<Frame, Node>, n: Node)
    requires Pruned(t0, s0, t1, s1, n, PTES, false) && n in s1 && Indexed(t1, s1, n1)
    ensures Pruned(t0, s0, t1 - {s1[n]}, s1 - {n}, n, PTES, true)
    ensures Indexed(t1 - {s1[n]}, s1 - {n}, n1 - {s1[n]})
  {
    forall m | m in s1 && m != n ensures s1[m] != s1[n] {
      assert n1[s1[m]] == m && n1[s1[n]] == n;
    }
  }

  // ---- Whole trees ----

  lemma {:induction false} BelowRoot(levels: nat, tables: Tables, shape: Shape, node: map<Frame, Node>, m: Node)
    requires TreesOk(levels, tables, shape, node) && m in shape
    ensures m.level < levels && Under(Node(m.root, levels - 1, 0), m)
    decreases levels - m.level
  {
    assert LinkOk(levels, shape, m);
    if m.level < levels - 1 {
      BelowRoot(levels, tables, shape, node, Up(m));
      ShiftInside(m.q, levels - 2 - m.level);
    }
  }

  /** A page table that maps nothing is a bare tree, so freewalk() meets no leaf in it. */
  lemma EmptyTreeBare(levels: nat, tables: Tables, shape: Shape, node: map<Frame, Node>, root: Frame)
    requires TreesOk(levels, tables, shape, node) && IsRoot(levels, shape, root)
    requires forall k: nat :: Lookup(tables, shape, root, k) == Invalid
    ensures Subtree(tables, shape, node, Node(root, levels - 1, 0))
  {
    var n := Node(root, levels - 1, 0);
    forall m | m in shape && Under(n, m) ensures BareTable(tables, shape, n, m) {
      assert LinkOk(levels, shape, m);
      forall i | 0 <= i < PTES
        ensures EntryOk(tables, shape, m, i)
        ensures m.level == 0 ==> tables[shape[m]][i] == Invalid
      {
        assert EntryOk(tables, shape, m, i);
        assert (m.q * PTES + i) / PTES == m.q && (m.q * PTES + i) % PTES == i;
        assert Lookup(tables, shape, root, m.q * PTES + i) == Invalid;
      }
    }
  }

  /** With one whole tree removed the others are untouched. */
  lemma OtherTreesOk(levels: nat, t0: Tables, s0: Shape, n0: map<Frame, Node>, t1: Tables, s1: Shape, n1: map<Frame,
                     Node>, root: Frame)
    requires TreesOk(levels, t0, s0, n0) && IsRoot(levels, s0, root)
    requires Indexed(t1, s1, n1) && Pruned(t0, s0, t1, s1, Node(root, levels - 1, 0), PTES, true)
    ensures TreesOk(levels, t1, s1, n1)
    ensures forall m :: m in s1 <==> m in s0 && m.root != root
    ensures forall r: Frame, k: nat | r != root :: Lookup(t1, s1, r, k) == Lookup(t0, s0, r, k)
  {
    var n := Node(root, levels - 1, 0);
    forall m | m in s0 ensures m in s1 <==> m.root != root {
      BelowRoot(levels, t0, s0, n0, m);
      UnderGone(n, m);
    }
    forall m | m in s1 ensures LinkOk(levels, s1, m) {
      assert LinkOk(levels, s0, m);
    }
    forall m, i | m in s1 && 0 <= i < PTES ensures EntryOk(t1, s1, m, i) {
      assert EntryOk(t0, s0, m, i);
    }
  }
}
