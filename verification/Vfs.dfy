/**
  Path walking in kernel/vfs.c over reference-counted vnodes and a mount table: the loops, proved to
  follow the walk of VfsWalk and to conserve references and locks.
*/
module Vfs {
  import opened VfsPath
  import opened VfsWalk

  function Refs(vnodes: seq<Vnode>): (r: seq<nat>)
    ensures |r| == |vnodes| && forall i | 0 <= i < |r| :: r[i] == vnodes[i].ref
  {
    seq(|vnodes|, i requires 0 <= i < |vnodes| => vnodes[i].ref)
  }

  /** One more reference to v. */
  function Plus(refs: seq<nat>, v: nat): seq<nat>
    requires v < |refs|
  {
    refs[v := refs[v] + 1]
  }

  function Minus(refs: seq<nat>, v: nat): seq<nat>
    requires v < |refs| && refs[v] > 0
  {
    refs[v := refs[v] - 1]
  }

  /** Giving up the older of two references leaves the newer. */
  lemma Exchange(base: seq<nat>, v: nat, w: nat)
    requires v < |base| && w < |base|
    ensures Plus(Plus(base, v), w)[v] > 0 && Minus(Plus(Plus(base, v), w), v) == Plus(base, w)
    ensures Plus(base, v)[v] > 0 && Minus(Plus(base, v), v) == base
  {}

  /** Mounts hold their root and the vnode they cover, so those slots are live. */
  predicate MountsOk(mounts: seq<Mount>, refs: seq<nat>) {
    forall i | 0 <= i < |mounts| ::
      && mounts[i].root < |refs| && refs[mounts[i].root] > 0
      && -1 <= mounts[i].mountpoint < |refs| && (mounts[i].mountpoint >= 0 ==> refs[mounts[i].mountpoint] > 0)
  }

  predicate NodesOk(vnodes: seq<Vnode>, mounts: seq<Mount>) {
    forall i | 0 <= i < |vnodes| :: -1 <= vnodes[i].mp < |mounts|
  }

  class Vfs {
    var vnodes: seq<Vnode>
    const mounts: seq<Mount>
    const cwd: int
    ghost var held: set<nat> // vnode locks this thread holds
    ghost var most: nat      // the most it has held at once

    constructor (vnodes: seq<Vnode>, mounts: seq<Mount>, cwd: int)
      requires MountsOk(mounts, Refs(vnodes)) && NodesOk(vnodes, mounts)
      requires -1 <= cwd < |vnodes| && (cwd >= 0 ==> vnodes[cwd].ref > 0)
      ensures Restored(Refs(vnodes)) && this.vnodes == vnodes && this.mounts == mounts && this.cwd == cwd
    {
      this.vnodes, this.mounts, this.cwd := vnodes, mounts, cwd;
      held, most := {}, 0;
    }

    /** Between the steps of a walk: the reference counts are `base` plus one for the vnode the walk is at. */
    ghost predicate Walking(base: seq<nat>, v: nat)
      reads this
    {
      At(base, v) && held == {}
    }

    /** The same with the lock of v held. */
    ghost predicate Locked(base: seq<nat>, v: nat)
      reads this
    {
      At(base, v) && held == {v}
    }

    ghost predicate At(base: seq<nat>, v: nat)
      reads this
    {
      v < |vnodes| == |base| && Refs(vnodes) == Plus(base, v) && Calm(base)
    }

    /** No reference and no lock left over. */
    ghost predicate Restored(base: seq<nat>)
      reads this
    {
      Calm(base) && Refs(vnodes) == base && held == {}
    }

    ghost predicate Calm(base: seq<nat>)
      reads this
    {
      && |vnodes| == |base| && MountsOk(mounts, base) && NodesOk(vnodes, mounts) && most <= 1
      && -1 <= cwd < |base| && (cwd >= 0 ==> base[cwd] > 0)
    }

    /** vget() */
    method Vget(v: nat)
      requires v < |vnodes| && NodesOk(vnodes, mounts)
      modifies this`vnodes
      ensures NodesOk(vnodes, mounts) && Refs(vnodes) == Plus(old(Refs(vnodes)), v)
      ensures vnodes == Gets(old(vnodes), v)
    {
      vnodes := vnodes[v := vnodes[v].(ref := vnodes[v].ref + 1)];
    }

    /** vput(): the last reference clears the slot; the caller must hold one. */
    method Vput(v: nat)
      requires v < |vnodes| && vnodes[v].ref >= 1 && NodesOk(vnodes, mounts)
      modifies this`vnodes
      ensures NodesOk(vnodes, mounts) && Refs(vnodes) == Minus(old(Refs(vnodes)), v)
      ensures vnodes == Puts(old(vnodes), v)
    {
      var n := vnodes[v];
      vnodes := vnodes[v := n.(ref := n.ref - 1)];
      if n.ref - 1 == 0 {
        vnodes := vnodes[v := vnodes[v].(dir := false, hasLookup := false, mp := -1)];
      }
    }

    method VnLock(v: nat)
      requires v !in held
      modifies this`held, this`most
      ensures held == old(held) + {v} && most == if |held| > old(most) then |held| else old(most)
    {
      held := held + {v};
      most := if |held| > most then |held| else most;
    }

    method VnUnlock(v: nat)
      requires v in held
      modifies this`held
      ensures held == old(held) - {v}
    {
      held := held - {v};
    }

    /** A back end's lookup(): it succeeds exactly when it has a vnode to hand out, with one more reference. */
    method Lookup(o: Outcome, stale: int) returns (ok: bool, next: int)
      requires NodesOk(vnodes, mounts)
      modifies this`vnodes
      ensures NodesOk(vnodes, mounts) && vnodes == Answered(old(vnodes), mounts, o)
      ensures (ok <==> Answers(old(vnodes), mounts, o)) && next == Stored(old(vnodes), mounts, o, stale)
      ensures if ok then 0 <= next < |vnodes| && Refs(vnodes) == Plus(old(Refs(vnodes)), next)
              else vnodes == old(vnodes)
    {
      ok, next := false, if o == Fails then stale else NULL;
      match o
      case Existing(v) =>
        if v < |vnodes| && vnodes[v].ref > 0 {
          ok, next := true, v;
          vnodes := vnodes[v := vnodes[v].(ref := vnodes[v].ref + 1)];
        }
      case Filled(v, node) =>
        if v < |vnodes| && vnodes[v].ref == 0 && -1 <= node.mp < |mounts| {
          ok, next := true, v;
          vnodes := vnodes[v := node.(ref := 1)];
        }
      case _ =>
    }

    /** vfs_lookup_mount(): the first mount, other than the root mount, that covers this directory. */
    method LookupMount(v: nat) returns (m: int)
      requires v < |vnodes| && (forall i | 0 <= i < |mounts| :: -1 <= mounts[i].mountpoint < |vnodes|)
      ensures m == -1 || (1 <= m < |mounts| && Covers(vnodes, mounts[m], v))
      ensures forall k | 1 <= k < (if m == -1 then |mounts| else m) :: !Covers(vnodes, mounts[k], v)
    {
      var i := 1;
      while i < |mounts|
        invariant 1 <= i && forall k | 1 <= k < i && k < |mounts| :: !Covers(vnodes, mounts[k], v)
      {
        var p := mounts[i].mountpoint;
        if p != NULL && vnodes[p].dev == vnodes[v].dev && vnodes[p].inum == vnodes[v].inum {
          return i;
        }
        i := i + 1;
      }
      m := -1;
    }

    /**
      cross_mount(): consumes the reference to v and returns one to the root of the first covering
      mount, or v itself.
    */
    method CrossMount(v: nat, ghost base: seq<nat>) returns (r: nat)
      requires Walking(base, v)
      modifies this`vnodes
      ensures Walking(base, r)
      ensures var m := Covering(old(vnodes), mounts, v, 1);
              && r == (if m == -1 then v else mounts[m].root)
              && vnodes == if m == -1 then old(vnodes) else Gets(Puts(old(vnodes), v), r)
    {
      var m := LookupMount(v);
      assert m == Covering(vnodes, mounts, v, 1);
      if m == -1 {
        return v;
      }
      Exchange(base, v, v);
      Vput(v);
      r := mounts[m].root;
      Vget(r);
    }

    /** path_start(): a reference to the root of the first mount for an absolute path, else to the current directory. */
    method PathStart(path: string, ghost base: seq<nat>) returns (v: int)
      requires Restored(base)
      modifies this`vnodes
      ensures v == StartOf(path) && vnodes == Gets(old(vnodes), v)
      ensures v == NULL ==> Restored(base)
      ensures v != NULL ==> 0 <= v && Walking(base, v)
    {
      if path != "" && path[0] == '/' {
        if mounts == [] {
          return NULL;
        }
        v := mounts[0].root;
      } else {
        v := cwd;
        if v == NULL {
          return;
        }
      }
      Vget(v);
    }

    function StartOf(path: string): int {
      if path != "" && path[0] == '/' then (if mounts == [] then NULL else mounts[0].root) else cwd
    }

    /**
      ".." at a mount root: the parent of the covered vnode. The back end's result is ignored, so a
      failure leaves `next` as it was.
    */
    method UpFromRoot(v: nat, o: Outcome, stale: int, ghost base: seq<nat>) returns (next: int)
      requires Locked(base, v) && IsMountRoot(vnodes, mounts, v) && -1 <= stale < |base|
      modifies this
      ensures Place(vnodes, next, next, o == Fails && next != NULL)
           == Up(Place(old(vnodes), v, stale, false), mounts, o)
      ensures -1 <= next < |base| && if next == NULL || o == Fails then Restored(base) else Walking(base, next)
    {
      hide MountsOk, NodesOk, Minus, Puts, Gets, Answered;
      Covered(mounts, vnodes, base, v);
      var p := mounts[vnodes[v].mp].mountpoint;
      Vget(p);
      VnUnlock(v);
      Exchange(base, v, p);
      Vput(v);
      Exchange(base, p, p);
      VnLock(p);
      next := NULL;
      if vnodes[p].hasLookup {
        var ok;
        ok, next := Lookup(o, stale);
        if ok {
          Exchange(base, p, next);
        }
      }
      VnUnlock(p);
      Vput(p);
    }

    /** Unlocks and releases the vnode the walk is at. */
    method GiveUp(v: nat, ghost base: seq<nat>)
      requires Locked(base, v)
      modifies this
      ensures Restored(base) && vnodes == Puts(old(vnodes), v)
    {
      VnUnlock(v);
      Exchange(base, v, v);
      Vput(v);
    }

    /**
      One element of the path. The result is NULL with everything restored, or a vnode with exactly the
      walk's reference, or dangling: an earlier lookup result without a reference.
    */
    method Step(v: nat, name: string, o: Outcome, stale: int, ghost base: seq<nat>) returns (r: int, next: int,
                dangling: bool)
      requires Walking(base, v) && -1 <= stale < |base|
      modifies this
      ensures Place(vnodes, r, next, dangling) == StepTo(Place(old(vnodes), v, stale, false), mounts, name, o)
      ensures -1 <= next < |base| && if r == NULL || dangling then Restored(base) else 0 <= r && Walking(base, r)
    {
      hide MountsOk, NodesOk, Plus, Minus, Puts, Gets, Answered, Covering;
      r, next, dangling := NULL, stale, false;
      VnLock(v);
      if !vnodes[v].dir {
        GiveUp(v, base);
        return;
      }
      if name == ".." && IsMountRoot(vnodes, mounts, v) {
        next := UpFromRoot(v, o, stale, base);
        r, dangling := next, o == Fails && next != NULL;
        return;
      }
      if !vnodes[v].hasLookup {
        GiveUp(v, base);
        return;
      }
      var ok, found := Lookup(o, stale);
      if !ok {
        GiveUp(v, base);
        return;
      }
      next := found;
      VnUnlock(v);
      Exchange(base, v, next);
      Vput(v);
      r := CrossMount(next, base);
    }

    /** Where the walk of a path starts, with the starting vnode's reference taken. */
    function Started(vs: seq<Vnode>, path: string, garbage: int): Place {
      Place(Gets(vs, StartOf(path)), StartOf(path), garbage, false)
    }

    /**
      vfs_namei(): where the walk over all elements ends, with one reference to the result and none
      elsewhere, no lock left and never two held. It is dangling exactly when an element slips.
    */
    method Namei(path: string, script: seq<Outcome>, garbage: int) returns (r: int, dangling: bool)
      requires Restored(Refs(vnodes)) && -1 <= garbage < |vnodes|
      modifies this
      ensures held == {} && most <= 1 && |vnodes| == |old(vnodes)|
      ensures if r == NULL || dangling then Refs(vnodes) == old(Refs(vnodes))
              else 0 <= r < |vnodes| && Refs(vnodes) == Plus(old(Refs(vnodes)), r)
      ensures var w := Walk(Started(old(vnodes), path, garbage), mounts, Elems(path), script, |Elems(path)|);
              r == w.at && dangling == w.dangling && vnodes == w.vs
      ensures dangling <==> SlipsBy(Started(old(vnodes), path, garbage), mounts, Elems(path), script, |Elems(path)|)
    {
      hide MountsOk, NodesOk, Plus, Minus, Elems, StepTo, Gets, Puts, SlipsBy, Walk;
      ghost var base, names := Refs(vnodes), Elems(path);
      ghost var start := Started(vnodes, path, garbage);
      DanglingIff(start, mounts, names, script, |names|);
      dangling := false;
      r := PathStart(path, base);
      if r == NULL {
        WalkStarts(start, mounts, names, script);
        Stays(start, mounts, names, script, 0, |names|);
        return;
      }
      var rest, next, k := path, garbage, 0;
      WalkStarts(start, mounts, names, script);
      while true
        invariant r >= 0 && Walking(base, r) && -1 <= next < |base| && 0 <= k <= |names| && !dangling
        invariant names[k..] == Elems(rest) && Place(vnodes, r, next, false) == Walk(start, mounts, names, script, k)
        decreases |rest|
      {
        var found, name, rest' := Skipelem(rest);
        if !found {
          break;
        }
        NextElem(names, k, name, Elems(rest'));
        WalkNext(start, mounts, names, script, k);
        r, next, dangling := Step(r, name, if k < |script| then script[k] else Fails, next, base);
        if r == NULL || dangling {
          Stays(start, mounts, names, script, k + 1, |names|);
          return;
        }
        rest, k := rest', k + 1;
      }
    }

    /** Where vfs_nameiparent() ends: at a directory before the last element, or nowhere. */
    function ParentEnd(start: Place, names: seq<string>, script: seq<Outcome>): Place {
      if names == [] then Place(if Over(start) then start.vs else Puts(start.vs, start.at), NULL, start.next, false)
      else
        var p := Walk(start, mounts, names, script, |names| - 1);
        if Over(p) || Node(p.vs, p.at).dir then p else Place(Puts(p.vs, p.at), NULL, p.next, false)
    }

    /** vfs_nameiparent(): the directory of the last element, with the same reference and lock discipline. */
    method NameiParent(path: string, script: seq<Outcome>, garbage: int) returns (r: int, last: string, dangling: bool)
      requires Restored(Refs(vnodes)) && -1 <= garbage < |vnodes|
      modifies this
      ensures held == {} && most <= 1 && |vnodes| == |old(vnodes)|
      ensures if r == NULL || dangling then Refs(vnodes) == old(Refs(vnodes))
              else && 0 <= r < |vnodes| && Refs(vnodes) == Plus(old(Refs(vnodes)), r) && vnodes[r].dir
                   && Elems(path) != [] && last == Elems(path)[|Elems(path)| - 1]
      ensures var w := ParentEnd(Started(old(vnodes), path, garbage), Elems(path), script);
              r == w.at && dangling == w.dangling && vnodes == w.vs
      ensures var names, start := Elems(path), Started(old(vnodes), path, garbage);
              dangling <==> names != [] && SlipsBy(start, mounts, names, script, |names| - 1)
    {
      hide MountsOk, NodesOk, Plus, Minus, Elems, StepTo, Gets, Puts, SlipsBy, Walk;
      ghost var base, names := Refs(vnodes), Elems(path);
      ghost var start := Started(vnodes, path, garbage);
      if names != [] { DanglingIff(start, mounts, names, script, |names| - 1); }
      last, dangling := "", false;
      r := PathStart(path, base);
      if r == NULL {
        WalkStarts(start, mounts, names, script);
        if names != [] { Stays(start, mounts, names, script, 0, |names| - 1); }
        return;
      }
      var rest, next, k := path, garbage, 0;
      WalkStarts(start, mounts, names, script);
      while true
        invariant r >= 0 && Walking(base, r) && -1 <= next < |base| && 0 <= k <= |names| && !dangling
        invariant (k > 0 ==> k < |names|)
        invariant names[k..] == Elems(rest) && Place(vnodes, r, next, false) == Walk(start, mounts, names, script, k)
        decreases |rest|
      {
        var found, name, rest' := Skipelem(rest);
        if !found {
          break;
        }
        NextElem(names, k, name, Elems(rest'));
        if rest' == "" {
          last := name;
          if !vnodes[r].dir {
            Exchange(base, r, r);
            Vput(r);
            r := NULL;
          }
          return;
        }
        WalkNext(start, mounts, names, script, k);
        r, next, dangling := Step(r, name, if k < |script| then script[k] else Fails, next, base);
        if r == NULL || dangling {
          Stays(start, mounts, names, script, k + 1, |names| - 1);
          return;
        }
        rest, k := rest', k + 1;
      }
      Exchange(base, r, r);
      Vput(r);
      r := NULL;
    }
  }

  lemma NextElem(names: seq<string>, k: nat, name: string, rest: seq<string>)
    requires k <= |names| && names[k..] == [name] + rest
    ensures k < |names| && names[k] == name && names[k + 1..] == rest && (rest == [] <==> k + 1 == |names|)
  {
    assert names[k..][0] == name && names[k..][1..] == names[k + 1..];
  }

  /** A root directory 0, its subdirectory 1, and the root 2 of a file system mounted on that. */
  const EXAMPLE: seq<Vnode> :=
    [Vnode(1, true, true, 0, 0, 1), Vnode(1, true, true, 0, 0, 2), Vnode(1, true, true, 1, 1, 1)]
  const EXAMPLE_MOUNTS: seq<Mount> := [Mount(0, NULL), Mount(2, 1)]

  /**
    A failing ".." across a mount: vfs_namei("/d/..") returns the mountpoint, which the walk saw on the
    way in, without a reference to it.
  */
  method DanglingExample(garbage: int) returns (fs: Vfs, r: int, dangling: bool)
    requires -1 <= garbage < 3
    ensures r == 1 && dangling && Refs(fs.vnodes) == Refs(EXAMPLE)
  {
    fs := new Vfs(EXAMPLE, EXAMPLE_MOUNTS, NULL);
    var script := [Existing(1), Fails];
    ExampleElems();
    ExampleWalk(fs.Started(EXAMPLE, "/d/..", garbage), script);
    r, dangling := fs.Namei("/d/..", script, garbage);
  }

  lemma ExampleWalk(start: Place, script: seq<Outcome>)
    requires start == Place(Gets(EXAMPLE, 0), 0, start.next, false) && script == [Existing(1), Fails]
    ensures var w := Walk(start, EXAMPLE_MOUNTS, ["d", ".."], script, 2); w.at == 1 && w.dangling
  {
    hide StepTo;
    var p := Place(Gets(EXAMPLE, 2), 2, 1, false);
    ExampleIn(start);
    assert Walk(start, EXAMPLE_MOUNTS, ["d", ".."], script, 0) == start;
    assert Walk(start, EXAMPLE_MOUNTS, ["d", ".."], script, 1) == p;
    ExampleOut(p);
  }

  lemma ExampleIn(p: Place)
    requires p == Place(Gets(EXAMPLE, 0), 0, p.next, false)
    ensures StepTo(p, EXAMPLE_MOUNTS, "d", Existing(1)) == Place(Gets(EXAMPLE, 2), 2, 1, false)
  {
    hide Covering;
    var vs := Puts(Answered(p.vs, EXAMPLE_MOUNTS, Existing(1)), 0);
    assert vs == Gets(EXAMPLE, 1);
    assert Covers(vs, EXAMPLE_MOUNTS[1], 1);
    assert Puts(vs, 1) == EXAMPLE;
  }

  lemma ExampleOut(p: Place)
    requires p == Place(Gets(EXAMPLE, 2), 2, 1, false)
    ensures var q := StepTo(p, EXAMPLE_MOUNTS, "..", Fails); q.at == 1 && q.dangling
  {
    hide Covering;
    assert IsMountRoot(p.vs, EXAMPLE_MOUNTS, 2);
  }

  lemma ExampleElems()
    ensures Elems("/d/..") == ["d", ".."]
  {
    FirstElem("/d/..", 1, 2, 3);
    FirstElem("..", 0, 2, 2);
    assert "/d/.."[1..2] == "d" && "/d/.."[3..] == "..";
    assert ".."[0..2] == ".." && ".."[2..] == "";
  }

  lemma Covered(mounts: seq<Mount>, vnodes: seq<Vnode>, base: seq<nat>, v: nat)
    requires MountsOk(mounts, base) && NodesOk(vnodes, mounts) && v < |vnodes| && vnodes[v].mp != -1
    ensures 0 <= vnodes[v].mp < |mounts|
    ensures var p := mounts[vnodes[v].mp].mountpoint; p != NULL ==> 0 <= p < |base| && base[p] > 0
  {}
}
