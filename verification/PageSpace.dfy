/**
  Table pages that mapping a set of keys needs: the tables missing on the way to them, and how many
  that leaves of the free pages (walk() of kernel/vm.c with kernel/kalloc.c).
*/
module PageSpace {
  import opened Sets
  import opened PageTree

  /** The table of level l on the way to key k. */
  function NodeOn(root: Frame, k: nat, l: nat): Node {
    Node(root, l, Shift(k, l + 1))
  }

  /** n is a table below the root on the way to key k. */
  predicate OnPath(n: Node, root: Frame, k: nat, levels: nat) {
    n.level + 1 < levels && n == NodeOn(root, k, n.level)
  }

  /** The tables that do not exist on the way to the keys ks. */
  ghost function Missing(shape: Shape, root: Frame, levels: nat, ks: set<nat>): set<Node> {
    set k: nat, l: nat | k in ks && l + 1 < levels && NodeOn(root, k, l) !in shape :: NodeOn(root, k, l)
  }

  ghost predicate OnSome(n: Node, root: Frame, levels: nat, ks: set<nat>) {
    exists k :: k in ks && OnPath(n, root, k, levels)
  }

  lemma MissingIff(shape: Shape, root: Frame, levels: nat, ks: set<nat>, n: Node)
    ensures n in Missing(shape, root, levels, ks) <==> n !in shape && OnSome(n, root, levels, ks)
  {
    if n !in shape && OnSome(n, root, levels, ks) {
      var k :| k in ks && OnPath(n, root, k, levels);
      assert n == NodeOn(root, k, n.level);
    }
  }

  /** How many pages mapping new pages at the keys ks takes: one each, and the missing tables. */
  ghost function Need(shape: Shape, root: Frame, levels: nat, ks: set<nat>): nat {
    |ks| + |Missing(shape, root, levels, ks)|
  }

  ghost predicate Grows(s0: Shape, s1: Shape) {
    forall n | n in s0 :: n in s1 && s1[n] == s0[n]
  }

  /** Tables were added on the way to keys ks only. */
  ghost predicate Gains(s0: Shape, s1: Shape, root: Frame, levels: nat, ks: set<nat>) {
    Grows(s0, s1) && forall n | n in s1 && n !in s0 :: OnSome(n, root, levels, ks)
  }

  lemma GainsNone(s: Shape, root: Frame, levels: nat, ks: set<nat>)
    ensures Gains(s, s, root, levels, ks)
  {}

  lemma GainsMore(s0: Shape, s1: Shape, s2: Shape, root: Frame, levels: nat, ks: set<nat>, ls: set<nat>)
    requires Gains(s0, s1, root, levels, ks) && Gains(s1, s2, root, levels, ls)
    ensures Gains(s0, s2, root, levels, ks + ls)
  {
    forall n | n in s2 && n !in s0 ensures OnSome(n, root, levels, ks + ls) {
      var k :| (k in ks || k in ls) && OnPath(n, root, k, levels);
      assert k in ks + ls;
    }
  }

  /** No more tables than were missing are gained, all of them exactly if none is missing any more. */
  lemma GainedSize(s0: Shape, s1: Shape, root: Frame, levels: nat, ks: set<nat>)
    requires Gains(s0, s1, root, levels, ks)
    ensures |s0| <= |s1| <= |s0| + |Missing(s0, root, levels, ks)|
    ensures |s1| == |s0| + |Missing(s0, root, levels, ks)| <==> Missing(s0, root, levels, ks) <= s1.Keys
  {
    hide Missing, OnSome;
    var missing := Missing(s0, root, levels, ks);
    forall n | n in s1.Keys - s0.Keys ensures n in missing { MissingIff(s0, root, levels, ks, n); }
    forall n | n in missing ensures n !in s0.Keys { MissingIff(s0, root, levels, ks, n); }
    GrownSize(s0.Keys, s1.Keys, missing);
  }

  /** Every table on the way to key k exists. */
  ghost predicate PathFull(shape: Shape, root: Frame, levels: nat, k: nat) {
    forall n: Node | OnPath(n, root, k, levels) :: n in shape
  }

  lemma {:induction false} PathUp(levels: nat, tables: Tables, shape: Shape, node: map<Frame, Node>, root: Frame,
                                  k: nat, l: nat)
    requires TreesOk(levels, tables, shape, node) && l + 1 < levels && NodeOn(root, k, 0) in shape
    ensures NodeOn(root, k, l) in shape
  {
    hide TreesOk;
    if l > 0 {
      PathUp(levels, tables, shape, node, root, k, l - 1);
      AboveExists(levels, tables, shape, node, NodeOn(root, k, l - 1));
      assert Up(NodeOn(root, k, l - 1)) == NodeOn(root, k, l);
    }
  }

  lemma BottomFull(levels: nat, tables: Tables, shape: Shape, node: map<Frame, Node>, root: Frame, k: nat)
    requires TreesOk(levels, tables, shape, node) && NodeOn(root, k, 0) in shape
    ensures PathFull(shape, root, levels, k)
  {
    hide TreesOk;
    forall n: Node | OnPath(n, root, k, levels) ensures n in shape {
      PathUp(levels, tables, shape, node, root, k, n.level);
    }
  }

  lemma FullNotMissing(s0: Shape, s1: Shape, root: Frame, levels: nat, ks: set<nat>)
    requires forall k | k in ks :: PathFull(s1, root, levels, k)
    ensures Missing(s0, root, levels, ks) <= s1.Keys
  {
    forall n | n in Missing(s0, root, levels, ks) ensures n in s1.Keys {
      MissingIff(s0, root, levels, ks, n);
      var k :| k in ks && OnPath(n, root, k, levels);
      assert PathFull(s1, root, levels, k);
    }
  }

  /** The parts of p that select tables are those of its key. */
  lemma {:induction false} PrefixKey(levels: nat, p: nat, l: nat)
    requires l <= levels
    ensures Prefix(levels, p, l) == Shift(Key(levels, p), l)
  {
    if l > 0 {
      PrefixKey(levels, p, l - 1);
      PrefixStep(levels, p, l - 1);
    }
  }
}
