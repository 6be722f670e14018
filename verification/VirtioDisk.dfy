/**
  The driver side of hal/riscv/hal_virtio.c: the descriptor allocator with its loops, and the three
  critical sections of a request, each proved to be the protocol step of module Virtio.
*/
module VirtioDisk {
  import opened Virtio

  const ZERO: Desc := Desc(Nowhere, 0, false, false)

  function FreeCount(free: seq<bool>): nat {
    if free == [] then 0 else FreeCount(free[..|free| - 1]) + (if free[|free| - 1] then 1 else 0)
  }

  lemma {:induction false} CountTake(free: seq<bool>, i: nat)
    requires i < |free| && free[i]
    ensures FreeCount(free) == FreeCount(free[i := false]) + 1
    decreases |free|
  {
    var n := |free| - 1;
    if i < n {
      CountTake(free[..n], i);
      assert free[i := false][..n] == free[..n][i := false];
    } else {
      assert free[i := false][..n] == free[..n];
    }
  }

  lemma {:induction false} CountNone(free: seq<bool>)
    ensures FreeCount(free) == 0 <==> forall i | 0 <= i < |free| :: !free[i]
  {
    if free != [] {
      CountNone(free[..|free| - 1]);
      assert forall i | 0 <= i < |free| - 1 :: free[i] == free[..|free| - 1][i];
    }
  }

  class Disk {
    var free: seq<bool>
    var desc: seq<Desc>

    /** A free descriptor is all zero. */
    ghost predicate Tidy()
      reads this
    {
      |free| == NUM && |desc| == NUM && forall i | 0 <= i < NUM && free[i] :: desc[i] == ZERO
    }

    constructor ()
      ensures Tidy() && free == seq(NUM, _ => true)
    {
      free := seq(NUM, _ => true);
      desc := seq(NUM, _ => ZERO);
    }

    /** alloc_desc(): the first free descriptor, or -1 exactly when none is free. */
    method AllocDesc() returns (r: int)
      requires Tidy()
      modifies this`free
      ensures Tidy() && (r == -1 <==> FreeCount(old(free)) == 0)
      ensures r == -1 ==> free == old(free)
      ensures r != -1 ==>
        0 <= r < NUM && old(free)[r] && (forall k | 0 <= k < r :: !old(free)[k]) && free == old(free)[r := false]
    {
      CountNone(free);
      var i := 0;
      while i < NUM
        invariant 0 <= i <= NUM && free == old(free) && forall k | 0 <= k < i :: !free[k]
      {
        if free[i] {
          free := free[i := false];
          return i;
        }
        i := i + 1;
      }
      r := -1;
    }

    /** free_desc(): neither panic is met for an allocated descriptor. */
    method FreeDesc(i: nat)
      requires Tidy() && i < NUM && !free[i]
      modifies this
      ensures Tidy() && free == old(free)[i := true] && desc == old(desc)[i := ZERO]
    {
      desc := desc[i := ZERO];
      free := free[i := true];
    }

    /** The loop of alloc3_desc() that returns what it got before running out. */
    method GiveBack(idx: seq<nat>, ghost before: seq<bool>)
      requires Tidy() && |before| == NUM && (forall k | 0 <= k < |idx| :: idx[k] < NUM)
      requires forall k, m | 0 <= k < m < |idx| :: idx[k] < idx[m]
      requires forall k | 0 <= k < NUM :: free[k] <==> before[k] && k !in idx
      requires forall k | k in idx :: 0 <= k < NUM && desc[k] == ZERO
      modifies this
      ensures Tidy() && desc == old(desc) && forall k | 0 <= k < NUM :: free[k] <==> before[k] || k in idx
    {
      var j := 0;
      while j < |idx|
        invariant 0 <= j <= |idx| && Tidy() && desc == old(desc)
        invariant forall k | 0 <= k < NUM :: free[k] <==> (before[k] && k !in idx) || k in idx[..j]
      {
        assert idx[j] !in idx[..j];
        FreeDesc(idx[j]);
        assert idx[..j + 1] == idx[..j] + [idx[j]];
        j := j + 1;
      }
      assert idx[..|idx|] == idx;
    }

    /** alloc3_desc(): three distinct free descriptors, or none at all if fewer are free. */
    method Alloc3Desc() returns (ok: bool, idx: seq<nat>)
      requires Tidy()
      modifies this
      ensures Tidy() && (ok <==> FreeCount(old(free)) >= 3)
      ensures !ok ==> free == old(free) && desc == old(desc)
      ensures ok ==>
        && |idx| == 3 && idx[0] < idx[1] < idx[2] < NUM && (forall k | 0 <= k < 3 :: old(free)[idx[k]])
        && (forall i | 0 <= i < idx[2] :: old(free)[i] ==> i in idx)
        && free == old(free)[idx[0] := false][idx[1] := false][idx[2] := false] && desc == old(desc)
    {
      hide FreeCount;
      idx := [];
      var i := 0;
      while i < 3
        invariant 0 <= i == |idx| <= 3 && Tidy() && desc == old(desc)
        invariant FreeCount(old(free)) == FreeCount(free) + i
        invariant forall k | 0 <= k < i :: idx[k] < NUM && old(free)[idx[k]]
        invariant forall k, m | 0 <= k < m < i :: idx[k] < idx[m]
        invariant forall k | 0 <= k < NUM :: free[k] <==> old(free)[k] && k !in idx
        invariant i > 0 ==> forall k | 0 <= k < idx[i - 1] :: !free[k]
      {
        ghost var before := free;
        var r := AllocDesc();
        if r < 0 {
          GiveBack(idx, old(free));
          assert free == old(free);
          return false, [];
        }
        CountTake(before, r);
        assert i > 0 ==> idx[i - 1] < r by { assert i > 0 ==> idx[i - 1] in idx; }
        idx := idx + [r];
        i := i + 1;
      }
      ok := true;
    }

    /** hal_disk_rw() filling in the three descriptors of a request. */
    method Format(i0: nat, i1: nat, i2: nat, r: Request)
      requires Tidy() && i0 < NUM && i1 < NUM && i2 < NUM && !free[i0] && !free[i1] && !free[i2]
      modifies this`desc
      ensures Tidy()
      ensures desc == old(desc)[i0 := Desc(OpAt(i0), i1, true, false)][i1 := Desc(DataOf(r.buf), i2, true, !r.write)]
                               [i2 := Desc(StatusAt(i0), 0, false, true)]
    {
      desc := desc[i0 := Desc(OpAt(i0), i1, true, false)];
      desc := desc[i1 := Desc(DataOf(r.buf), i2, true, !r.write)];
      desc := desc[i2 := Desc(StatusAt(i0), 0, false, true)];
    }

    /** free_chain(): follows the next flags and frees exactly the chain. */
    method FreeChain(h: nat, ghost d1: nat, ghost d2: nat)
      requires Tidy() && h < NUM && d1 < NUM && d2 < NUM && h != d1 && h != d2 && d1 != d2
      requires !free[h] && !free[d1] && !free[d2]
      requires desc[h].hasNext && desc[h].next == d1 && desc[d1].hasNext && desc[d1].next == d2 && !desc[d2].hasNext
      modifies this
      ensures Tidy() && free == old(free)[h := true][d1 := true][d2 := true]
      ensures desc == old(desc)[h := ZERO][d1 := ZERO][d2 := ZERO]
    {
      var i := h;
      ghost var n := 0;
      ghost var chain := [h, d1, d2];
      while true
        invariant 0 <= n < 3 && Tidy() && i == chain[n]
        invariant forall k | 0 <= k < NUM :: free[k] == (old(free)[k] || k in chain[..n])
        invariant forall k | 0 <= k < NUM :: desc[k] == if k in chain[..n] then ZERO else old(desc)[k]
        decreases 3 - n
      {
        var flag, nxt := desc[i].hasNext, desc[i].next;
        assert chain[..n + 1] == chain[..n] + [i];
        FreeDesc(i);
        assert forall k | 0 <= k < NUM :: free[k] == (old(free)[k] || k in chain[..n + 1]);
        assert forall k | 0 <= k < NUM :: desc[k] == if k in chain[..n + 1] then ZERO else old(desc)[k];
        if flag {
          i := nxt;
          n := n + 1;
        } else {
          assert n == 2 && chain[..3] == chain;
          break;
        }
      }
    }
  }

  /** The queue memory and bookkeeping of one disk, with the protocol state it stands for. */
  class Queue {
    const table: Disk
    var ops: seq<Op>
    var info: seq<Info>
    var availRing: seq<nat>
    var availIdx: nat
    var usedRing: seq<nat>
    var usedIdx: nat
    var devUsed: nat // used->idx, written by the device
    var busy: set<nat>
    ghost var state: State

    /** Outside a critical section vdisk_lock is free. */
    ghost predicate Valid()
      reads this, table
    {
      Matches() && LockFree(state)
    }

    /** The driver's variables are those of a protocol state that satisfies the invariant. */
    ghost predicate Matches()
      reads this, table
    {
      && Inv(state) && table.Tidy()
      && state.free == table.free && state.desc == table.desc && state.ops == ops && state.info == info
      && state.availRing == availRing && state.availIdx == availIdx && state.usedRing == usedRing
      && state.usedIdx == usedIdx && state.devUsed == devUsed && state.busy == busy
      && |ops| == |info| == |availRing| == |usedRing| == NUM
    }

    constructor (table: Disk, ghost state: State, ops: seq<Op>, info: seq<Info>, availRing: seq<nat>,
                 usedRing: seq<nat>)
      requires table.Tidy() && Init(state) && state.free == table.free && state.desc == table.desc
      requires state.ops == ops && state.info == info && state.availRing == availRing && state.usedRing == usedRing
      ensures Valid() && this.table == table && this.state == state
    {
      this.table, this.state := table, state;
      this.ops, this.info, this.availRing, this.usedRing := ops, info, availRing, usedRing;
      availIdx, usedIdx, devUsed, busy := 0, 0, 0, {};
    }

    /**
      hal_disk_rw() from allocation to filling the ring slot: fails exactly when fewer than three
      descriptors are free.
    */
    method LayOut(r: Request) returns (ok: bool, idx: seq<nat>)
      requires Valid() && r.buf !in state.holder
      modifies this, table
      ensures Matches() && (ok <==> FreeCount(old(table.free)) >= 3)
      ensures !ok ==> state == old(state)
      ensures ok ==>
        && |idx| == 3 && Can(old(state), Prepare(r, idx[0], idx[1], idx[2]))
        && state == Do(old(state), Prepare(r, idx[0], idx[1], idx[2])) && Can(state, Publish(idx[0]))
    {
      hide Inv, Do, FreeCount;
      ok, idx := table.Alloc3Desc();
      if ok {
        FillSlot(r, idx[0], idx[1], idx[2]);
      }
    }

    /** The part of hal_disk_rw() between the allocation of its descriptors and the publication. */
    method FillSlot(r: Request, i0: nat, i1: nat, i2: nat)
      requires Inv(state) && Can(state, Prepare(r, i0, i1, i2)) && table.Tidy()
      requires |state.free| == NUM && table.free == state.free[i0 := false][i1 := false][i2 := false]
      requires state.desc == table.desc && state.ops == ops && state.info == info && state.availRing == availRing
      requires state.availIdx == availIdx && state.usedRing == usedRing && state.usedIdx == usedIdx
      requires state.devUsed == devUsed && state.busy == busy && |ops| == |info| == |availRing| == |usedRing| == NUM
      modifies this, table
      ensures Matches()
      ensures state == Do(old(state), Prepare(r, i0, i1, i2)) && Can(state, Publish(i0))
    {
      hide Inv, Do, LockFree;
      StepKeeps(state, Prepare(r, i0, i1, i2));
      PrepareFields(state, r, i0, i1, i2);
      state := Do(state, Prepare(r, i0, i1, i2));
      table.Format(i0, i1, i2, r);
      ops := ops[i0 := Op(r.write, SectorOf(r.blockno))];
      info := info[i0 := Info(Ref(r.buf), 0xff)];
      busy := busy + {r.buf};
      availRing := availRing[availIdx % NUM := i0];
    }

    /** hal_disk_rw() up to its wait, for a buffer its caller has locked. */
    method StartRw(r: Request) returns (ok: bool, idx: seq<nat>)
      requires Valid() && r.buf !in state.holder
      modifies this, table
      ensures Valid() && (ok <==> FreeCount(old(table.free)) >= 3)
      ensures !ok ==> state == old(state)
      ensures ok ==>
        && |idx| == 3 && Can(old(state), Prepare(r, idx[0], idx[1], idx[2]))
        && var s1 := Do(old(state), Prepare(r, idx[0], idx[1], idx[2]));
           Inv(s1) && Can(s1, Publish(idx[0])) && state == Do(s1, Publish(idx[0]))
    {
      hide Inv, Do;
      ok, idx := LayOut(r);
      if !ok {
        return;
      }
      StepKeeps(state, Publish(idx[0]));
      PublishFields(state, idx[0]);
      state := Do(state, Publish(idx[0]));
      availIdx := (availIdx + 1) % WRAP;
    }

    /**
      One round of hal_disk_intr_one(): the next used entry is reported; its status byte is 0, so there
      is no panic.
    */
    method Report()
      requires Valid() && usedIdx != devUsed
      modifies this
      ensures Valid() && Can(old(state), Intr) && state == Do(old(state), Intr)
    {
      hide Inv, DoIntr, Do;
      SeesFirst(state);
      StepKeeps(state, Intr);
      IntrFields(state);
      var id := usedRing[usedIdx % NUM];
      assert info[id].status == 0;
      busy := busy - {info[id].b.id};
      usedIdx := (usedIdx + 1) % WRAP;
      state := Do(state, Intr);
    }

    /** hal_disk_intr_one(): every completion the device has posted is reported, and nothing else. */
    method Interrupt()
      requires Valid()
      modifies this
      ensures Valid() && usedIdx == devUsed && state.done == []
      ensures Reaches(old(state), seq(|old(state).done|, _ => Intr), state)
    {
      hide Inv, DoIntr, Do;
      ghost var n := 0;
      ghost var acts: seq<Action> := [];
      while usedIdx != devUsed
        invariant Valid() && n <= |old(state).done| && state.done == old(state).done[n..]
        invariant acts == seq(n, _ => Intr) && Reaches(old(state), acts, state)
        decreases |old(state).done| - n
      {
        SeesFirst(state);
        ReachesNext(old(state), acts, state, Intr);
        IntrFields(state);
        Report();
        n, acts := n + 1, acts + [Intr];
      }
      EmptyRing(state);
    }

    /** hal_disk_rw() after its wait: the buffer is done, the chain is freed. */
    method EndRw(h: nat)
      requires Valid() && h in state.chains && h < NUM && info[h].b.Ref? && info[h].b.id !in busy
      modifies this, table
      ensures Valid() && Can(old(state), Finish(h)) && state == Do(old(state), Finish(h))
    {
      SeenIff(state, h);
      StepKeeps(state, Finish(h));
      ghost var c := state.chains[h];
      state := Do(state, Finish(h));
      info := info[h := info[h].(b := Null)];
      table.FreeChain(h, c.d1, c.d2);
    }
  }

  lemma PrepareFields(s: State, r: Request, i0: nat, i1: nat, i2: nat)
    requires Inv(s) && Can(s, Prepare(r, i0, i1, i2))
    requires |s.free| == |s.desc| == |s.ops| == |s.info| == |s.availRing| == NUM
    ensures var s' := Do(s, Prepare(r, i0, i1, i2));
            && s'.free == s.free[i0 := false][i1 := false][i2 := false]
            && s'.desc == s.desc[i0 := Desc(OpAt(i0), i1, true, false)][i1 := Desc(DataOf(r.buf), i2, true, !r.write)]
                                [i2 := Desc(StatusAt(i0), 0, false, true)]
            && s'.ops == s.ops[i0 := Op(r.write, SectorOf(r.blockno))]
            && s'.info == s.info[i0 := Info(Ref(r.buf), 0xff)]
            && s'.busy == s.busy + {r.buf} && s'.availRing == s.availRing[s.availIdx % NUM := i0]
            && s'.availIdx == s.availIdx
            && s'.usedRing == s.usedRing && s'.usedIdx == s.usedIdx && s'.devUsed == s.devUsed
            && i0 in s'.chains && s'.chains[i0].phase == Prepared
  {}

  lemma PublishFields(s: State, h: nat)
    requires Inv(s) && Can(s, Publish(h))
    ensures var s' := Do(s, Publish(h));
            && s'.availIdx == (s.availIdx + 1) % WRAP && LockFree(s')
            && s' == s.(availIdx := s'.availIdx, chains := s'.chains, offered := s'.offered)
  {
    OnePrepared(s, h);
  }

  /** What one round of the handler does to the driver's variables. */
  lemma IntrFields(s: State)
    requires Inv(s) && Can(s, Intr)
    ensures var s' := Do(s, Intr);
            && s.done != [] && |s.usedRing| == NUM && s.done[0] < |s.info| && s.info[s.done[0]].b.Ref?
            && s'.usedIdx == (s.usedIdx + 1) % WRAP && s'.busy == s.busy - {s.info[s.done[0]].b.id}
            && s'.done == s.done[1..]
            && s'.free == s.free && s'.desc == s.desc && s'.ops == s.ops && s'.info == s.info && s'.devUsed == s.devUsed
            && s'.availRing == s.availRing && s'.availIdx == s.availIdx && s'.usedRing == s.usedRing && LockFree(s')
  {
    SeesFirst(s);
  }

  lemma {:induction false} ReachesNext(s: State, acts: seq<Action>, s1: State, a: Action)
    requires Inv(s1) && Can(s1, a) && Reaches(s, acts, s1)
    ensures Reaches(s, acts + [a], Do(s1, a))
    decreases |acts|
  {
    hide Inv, Can, Do;
    if acts == [] {
      assert Reaches(Do(s1, a), [], Do(s1, a));
      assert [a][1..] == [];
    } else {
      ReachesNext(Do(s, acts[0]), acts[1..], s1, a);
      assert (acts + [a])[1..] == acts[1..] + [a];
    }
  }

  lemma EmptyRing(s: State)
    requires Inv(s) && s.usedIdx == s.devUsed
    ensures s.done == []
  {}

  /** While hal_disk_rw() fills a ring slot it is the only one doing so. */
  lemma OnePrepared(s: State, h: nat)
    requires Inv(s) && h in s.chains && s.chains[h].phase == Prepared
    ensures forall g | g in s.chains && g != h :: s.chains[g].phase != Prepared
  {}

  /** The disk flag of a live chain's buffer is clear exactly when its completion was reported. */
  lemma SeenIff(s: State, h: nat)
    requires Inv(s) && h in s.chains
    ensures h < NUM && |s.info| == NUM && s.info[h].b.Ref? && (s.info[h].b.id !in s.busy <==> s.chains[h].phase == Seen)
    ensures var c := s.chains[h];
            && c.d1 < NUM && c.d2 < NUM && h != c.d1 && h != c.d2 && c.d1 != c.d2
            && |s.free| == |s.desc| == NUM && !s.free[h] && !s.free[c.d1] && !s.free[c.d2]
            && s.desc[h].hasNext && s.desc[h].next == c.d1 && s.desc[c.d1].hasNext && s.desc[c.d1].next == c.d2
            && !s.desc[c.d2].hasNext
  {
    assert ChainOk(s, h);
  }
}
