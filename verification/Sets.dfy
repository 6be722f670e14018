/** Counting finite sets, and sequences without repetition. */
module Sets {
  predicate Distinct(t: seq<nat>) {
    forall i, j | 0 <= i < j < |t| :: t[i] != t[j]
  }

  lemma {:induction false} Smaller<T>(a: set<T>, b: set<T>)
    requires a <= b
    ensures |a| <= |b|
  {
    if a != {} {
      var x :| x in a;
      Smaller(a - {x}, b - {x});
    }
  }

  /** The n numbers from lo on. */
  function Range(lo: nat, n: nat): (u: set<nat>)
    ensures |u| == n && forall b :: b in u <==> lo <= b < lo + n
  {
    if n == 0 then {} else Range(lo, n - 1) + {lo + n - 1}
  }

  ghost function Image<A, B>(m: map<A, B>, s: set<A>): set<B>
    requires s <= m.Keys
  {
    set a | a in s :: m[a]
  }

  ghost predicate Injective<A, B>(m: map<A, B>, s: set<A>)
    requires s <= m.Keys
  {
    forall a, b | a in s && b in s && m[a] == m[b] :: a == b
  }

  /** A one-to-one map keeps the size of a set. */
  lemma {:induction false} ImageSize<A, B>(m: map<A, B>, s: set<A>)
    requires s <= m.Keys && Injective(m, s)
    ensures |Image(m, s)| == |s|
  {
    if s != {} {
      var a :| a in s;
      ImageSize(m, s - {a});
      assert Image(m, s) == Image(m, s - {a}) + {m[a]};
      assert m[a] !in Image(m, s - {a});
    } else {
      assert Image(m, s) == {};
    }
  }

  /** A sequence without repetition has as many elements as its set. */
  lemma {:induction false} ElementsSize<A>(q: seq<A>, s: set<A>)
    requires (forall i, j | 0 <= i < j < |q| :: q[i] != q[j]) && forall x :: x in s <==> x in q
    ensures |s| == |q|
  {
    if q == [] {
      assert s == {};
    } else {
      var last := q[|q| - 1];
      ElementsSize(q[..|q| - 1], s - {last});
      assert s == (s - {last}) + {last};
    }
  }

  lemma ValuesSize<A, B>(m: map<A, B>, s: set<B>)
    requires Injective(m, m.Keys) && (forall a | a in m :: m[a] in s) && forall b | b in s :: b in m.Values
    ensures |s| == |m|
  {
    hide Injective;
    ImageSize(m, m.Keys);
    forall b | b in s ensures b in Image(m, m.Keys) {
      var a :| a in m && m[a] == b;
    }
    assert Image(m, m.Keys) == s;
  }

  lemma ThreeParts<A>(all: set<A>, a: set<A>, b: set<A>, c: set<A>)
    requires all == a + b + c && a !! b && a !! c && b !! c
    ensures |all| == |a| + |b| + |c|
  {}

  /** A set that grew inside a gap gains at most the gap, and all of it exactly if it covers the gap. */
  lemma GrownSize<T>(a: set<T>, b: set<T>, gap: set<T>)
    requires a <= b && b - a <= gap && gap !! a
    ensures |a| <= |b| <= |a| + |gap|
    ensures |b| == |a| + |gap| <==> gap <= b
  {
    Smaller(b - a, gap);
    assert b == a + (b - a);
    if gap <= b {
      assert b - a == gap;
    } else {
      var n :| n in gap && n !in b;
      Smaller(b - a + {n}, gap);
    }
  }
}
