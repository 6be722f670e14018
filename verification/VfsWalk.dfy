/**
  Path walking of kernel/vfs.c on values: vnode slots with reference counts, a mount table, and the
  walk over the elements of a path as a function. A back end's lookup() is an arbitrary outcome.
*/
module VfsWalk {
  /** A vnode slot: free when ref is 0. mp is the owning mount's index, -1 for none. */
  datatype Vnode = Vnode(ref: nat, dir: bool, hasLookup: bool, mp: int, dev: nat, inum: nat)

  /** A mount: its root vnode and the vnode it covers, -1 for the root mount. */
  datatype Mount = Mount(root: nat, mountpoint: int)

  /**
    What a back end's lookup() does: the name is not there and the result is not stored; or the name is
    there, and the result is null for want of a vnode, a live vnode, or a free slot filled in.
  */
  datatype Outcome = Fails | NoVnode | Existing(v: nat) | Filled(v: nat, node: Vnode)

  const NULL: int := -1

  function Node(vs: seq<Vnode>, v: int): Vnode {
    if 0 <= v < |vs| then vs[v] else Vnode(0, false, false, -1, 0, 0)
  }

  /** vget() */
  function Gets(vs: seq<Vnode>, v: int): (r: seq<Vnode>)
    ensures |r| == |vs|
  {
    if 0 <= v < |vs| then vs[v := vs[v].(ref := vs[v].ref + 1)] else vs
  }

  /** vput(): the last reference clears the slot. */
  function Puts(vs: seq<Vnode>, v: int): (r: seq<Vnode>)
    ensures |r| == |vs|
  {
    if 0 <= v < |vs| && vs[v].ref > 1 then vs[v := vs[v].(ref := vs[v].ref - 1)]
    else if 0 <= v < |vs| then vs[v := Vnode(0, false, false, -1, vs[v].dev, vs[v].inum)]
    else vs
  }

  /** The back end hands out a vnode: one that is live, or a free slot. */
  predicate Answers(vs: seq<Vnode>, mounts: seq<Mount>, o: Outcome) {
    match o
    case Existing(v) => v < |vs| && vs[v].ref > 0
    case Filled(v, node) => v < |vs| && vs[v].ref == 0 && -1 <= node.mp < |mounts|
    case _ => false
  }

  function Answered(vs: seq<Vnode>, mounts: seq<Mount>, o: Outcome): (r: seq<Vnode>)
    ensures |r| == |vs|
  {
    if !Answers(vs, mounts, o) then vs
    else if o.Existing? then Gets(vs, o.v)
    else vs[o.v := o.node.(ref := 1)]
  }

  /** What lookup() leaves in its result variable, which held `next` before. */
  function Stored(vs: seq<Vnode>, mounts: seq<Mount>, o: Outcome, next: int): int {
    if Answers(vs, mounts, o) then o.v else if o == Fails then next else NULL
  }

  predicate Covers(vs: seq<Vnode>, m: Mount, v: int) {
    var p := m.mountpoint;
    p != NULL && Node(vs, p).dev == Node(vs, v).dev && Node(vs, p).inum == Node(vs, v).inum
  }

  /** The first mount from i on that covers v, -1 for none. */
  function Covering(vs: seq<Vnode>, mounts: seq<Mount>, v: int, i: nat): (m: int)
    ensures m == -1 || (i <= m < |mounts| && Covers(vs, mounts[m], v))
    ensures forall k | i <= k < (if m == -1 then |mounts| else m) :: !Covers(vs, mounts[k], v)
    decreases |mounts| - i
  {
    if i >= |mounts| then -1 else if Covers(vs, mounts[i], v) then i else Covering(vs, mounts, v, i + 1)
  }

  /** v is the root of a mount that covers another vnode. */
  predicate IsMountRoot(vs: seq<Vnode>, mounts: seq<Mount>, v: int) {
    var n := Node(vs, v);
    && 0 <= n.mp < |mounts| && mounts[n.mp].mountpoint != NULL
    && n.dev == Node(vs, mounts[n.mp].root).dev && n.inum == Node(vs, mounts[n.mp].root).inum
  }

  /**
    Where a walk is: the slots, the vnode (NULL when it has ended), the last lookup result, and whether
    `at` is that result unreferenced.
  */
  datatype Place = Place(vs: seq<Vnode>, at: int, next: int, dangling: bool)

  predicate Over(p: Place) {
    p.at == NULL || p.dangling
  }

  /** The vnode covered by the mount whose root is v. */
  function Below(vs: seq<Vnode>, mounts: seq<Mount>, v: int): int
    requires IsMountRoot(vs, mounts, v)
  {
    mounts[Node(vs, v).mp].mountpoint
  }

  /** ".." at a mount root: the ".." of the covered vnode; a failing lookup leaves the earlier result. */
  function Up(p: Place, mounts: seq<Mount>, o: Outcome): Place
    requires IsMountRoot(p.vs, mounts, p.at)
  {
    var m := Below(p.vs, mounts, p.at);
    var vs := Puts(Gets(p.vs, m), p.at);
    if !Node(vs, m).hasLookup then Place(Puts(vs, m), NULL, NULL, false)
    else
      var next := Stored(vs, mounts, o, p.next);
      Place(Puts(Answered(vs, mounts, o), m), next, next, o == Fails && p.next != NULL)
  }

  /** An element looked up in the directory itself, then into a mount that covers the result. */
  function Down(p: Place, mounts: seq<Mount>, o: Outcome): Place {
    if !Node(p.vs, p.at).hasLookup || !Answers(p.vs, mounts, o) then Place(Puts(p.vs, p.at), NULL, p.next, false)
    else
      var vs := Puts(Answered(p.vs, mounts, o), p.at);
      var m := Covering(vs, mounts, o.v, 1);
      if m == -1 then Place(vs, o.v, o.v, false)
      else Place(Gets(Puts(vs, o.v), mounts[m].root), mounts[m].root, o.v, false)
  }

  function StepTo(p: Place, mounts: seq<Mount>, name: string, o: Outcome): Place {
    if !Node(p.vs, p.at).dir then Place(Puts(p.vs, p.at), NULL, p.next, false)
    else if name == ".." && IsMountRoot(p.vs, mounts, p.at) then Up(p, mounts, o)
    else Down(p, mounts, o)
  }

  /** What lookup() call k does; every call past the script fails. */
  function Reply(script: seq<Outcome>, k: nat): Outcome {
    if k < |script| then script[k] else Fails
  }

  /** The first k elements; a walk that is over stays where it is. */
  function Walk(p: Place, mounts: seq<Mount>, names: seq<string>, script: seq<Outcome>, k: nat): Place
    requires k <= |names|
  {
    if k == 0 then p
    else
      var q := Walk(p, mounts, names, script, k - 1);
      if Over(q) then q else StepTo(q, mounts, names[k - 1], Reply(script, k - 1))
  }

  lemma WalkStarts(p: Place, mounts: seq<Mount>, names: seq<string>, script: seq<Outcome>)
    ensures Walk(p, mounts, names, script, 0) == p
  {}

  lemma WalkNext(p: Place, mounts: seq<Mount>, names: seq<string>, script: seq<Outcome>, k: nat)
    requires k < |names|
    ensures var q := Walk(p, mounts, names, script, k);
            Walk(p, mounts, names, script, k + 1) == if Over(q) then q
                                                     else StepTo(q, mounts, names[k], Reply(script, k))
  {}

  lemma {:induction false} Stays(p: Place, mounts: seq<Mount>, names: seq<string>, script: seq<Outcome>, k: nat, n: nat)
    requires k <= n <= |names| && Over(Walk(p, mounts, names, script, k))
    ensures Walk(p, mounts, names, script, n) == Walk(p, mounts, names, script, k)
  {
    hide StepTo;
    if k < n { Stays(p, mounts, names, script, k, n - 1); }
  }

  // ---- When a walk goes on without a reference ----

  /** At this place ".." crosses a mount outwards, and the lookup there fails leaving an earlier result in place. */
  predicate Slips(p: Place, mounts: seq<Mount>, name: string, o: Outcome) {
    && !Over(p) && name == ".." && o == Fails && p.next != NULL
    && Node(p.vs, p.at).dir && IsMountRoot(p.vs, mounts, p.at)
    && var m := Below(p.vs, mounts, p.at); Node(Puts(Gets(p.vs, m), p.at), m).hasLookup
  }

  lemma StepSlips(p: Place, mounts: seq<Mount>, name: string, o: Outcome)
    requires !Over(p)
    ensures StepTo(p, mounts, name, o).dangling <==> Slips(p, mounts, name, o)
  {
    hide Puts, Gets, IsMountRoot, Answered, Covering;
  }

  /** Some element is a slip. */
  ghost predicate SlipsBy(p: Place, mounts: seq<Mount>, names: seq<string>, script: seq<Outcome>, n: nat)
    requires n <= |names|
  {
    exists k | 0 <= k < n :: Slips(Walk(p, mounts, names, script, k), mounts, names[k], Reply(script, k))
  }

  /** A walk ends dangling exactly when one of its elements is a slip. */
  lemma {:induction false} DanglingIff(p: Place, mounts: seq<Mount>, names: seq<string>, script: seq<Outcome>, n: nat)
    requires n <= |names| && !p.dangling
    ensures Walk(p, mounts, names, script, n).dangling <==> SlipsBy(p, mounts, names, script, n)
  {
    hide Slips, StepTo;
    if n > 0 {
      var q := Walk(p, mounts, names, script, n - 1);
      DanglingIff(p, mounts, names, script, n - 1);
      if Over(q) {
        assert !Slips(q, mounts, names[n - 1], Reply(script, n - 1)) by {
          NoSlipWhenOver(q, mounts, names[n - 1], Reply(script, n - 1));
        }
      } else {
        StepSlips(q, mounts, names[n - 1], Reply(script, n - 1));
      }
      if SlipsBy(p, mounts, names, script, n - 1) {
        var k :| 0 <= k < n - 1 && Slips(Walk(p, mounts, names, script, k), mounts, names[k], Reply(script, k));
      }
    }
  }

  lemma NoSlipWhenOver(p: Place, mounts: seq<Mount>, name: string, o: Outcome)
    requires Over(p)
    ensures !Slips(p, mounts, name, o)
  {}

  /** No ".." element meets a failing lookup, or no mount covers a vnode: the walk is never dangling. */
  lemma NeverDangling(p: Place, mounts: seq<Mount>, names: seq<string>, script: seq<Outcome>, n: nat)
    requires n <= |names| && !p.dangling
    requires || (forall k | 0 <= k < n && names[k] == ".." :: Reply(script, k) != Fails)
             || (forall i | 0 <= i < |mounts| :: mounts[i].mountpoint == NULL)
    ensures !Walk(p, mounts, names, script, n).dangling
  {
    DanglingIff(p, mounts, names, script, n);
  }

  /** From the second element on, a failing ".." across a mount always slips: the earlier result is there. */
  lemma {:induction false} EarlierResult(p: Place, mounts: seq<Mount>, names: seq<string>, script: seq<Outcome>, n: nat)
    requires 0 < n <= |names| && !Over(Walk(p, mounts, names, script, n))
    ensures Walk(p, mounts, names, script, n).next != NULL
  {
    hide Puts, Gets, IsMountRoot, Covering;
    var q := Walk(p, mounts, names, script, n - 1);
    assert !Over(q);
  }
}
