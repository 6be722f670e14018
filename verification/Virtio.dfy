/**
  The virtio block protocol of hal/riscv/hal_virtio.c as a step system: hal_disk_rw() and
  hal_disk_intr_one() under vdisk_lock against a conforming device that takes and completes requests
  at any time and in any order (sections 2.6 and 5.2 of Virtio v1.1). Memory is sequentially consistent.
*/
module Virtio {
  import opened Sets

  const NUM: nat := 8
  const WRAP: nat := 0x1_0000 // ring indices are 16 bits

  datatype Addr = Nowhere | OpAt(i: nat) | DataOf(buf: nat) | StatusAt(i: nat)
  datatype Desc = Desc(addr: Addr, next: nat, hasNext: bool, devWrites: bool)
  datatype Op = Op(write: bool, sector: nat)
  datatype BufRef = Null | Ref(id: nat)
  datatype Info = Info(b: BufRef, status: nat)
  datatype Request = Request(buf: nat, write: bool, blockno: Uint)

  type Uint = x: nat | x < UINT

  const UINT: nat := 0x1_0000_0000

  /** The sector of a block; the product is taken in 32 bits. */
  function SectorOf(blockno: Uint): nat {
    2 * blockno % UINT
  }

  /** The sector is the block's own exactly below block 2^31; from there on it is that of block blockno - 2^31. */
  lemma SectorExact(blockno: Uint)
    ensures SectorOf(blockno) == 2 * blockno <==> blockno < UINT / 2
    ensures blockno >= UINT / 2 ==> SectorOf(blockno) == SectorOf(blockno - UINT / 2)
  {}

  /**
    How far a request has come: ring slot filled, index published, taken by the device, data moved, used
    entry pushed, seen by the handler.
  */
  datatype Phase = Prepared | Offered | Taken | Served | Used | Seen

  /** A three-descriptor chain, named by its head. */
  datatype Chain = Chain(d1: nat, d2: nat, req: nat, phase: Phase)

  datatype State = State(
    free: seq<bool>, desc: seq<Desc>, ops: seq<Op>, info: seq<Info>,
    availRing: seq<nat>, availIdx: nat, devAvail: nat, // devAvail is the device's own position
    usedRing: seq<nat>, usedIdx: nat, devUsed: nat,    // devUsed is used->idx, usedIdx the driver's position
    busy: set<nat>,                                    // buffers with b->disk == 1
    memory: map<nat, int>, disk: map<nat, int>,        // contents of buffers and of sectors
    // history
    chains: map<nat, Chain>, owner: map<nat, nat>, holder: map<nat, nat>, runner: map<nat, nat>,
    offered: seq<nat>, done: seq<nat>, reqs: seq<Request>, completed: seq<nat>)

  // ---- Invariant ----

  predicate Member(h: nat, c: Chain, i: nat) {
    i == h || i == c.d1 || i == c.d2
  }

  /** Chain h is laid out for its own request and owns its three descriptors, its buffer and its request. */
  ghost predicate ChainOk(s: State, h: nat)
    requires |s.desc| == NUM && |s.ops| == NUM && |s.info| == NUM && h in s.chains
  {
    var c := s.chains[h];
    && h < NUM && c.d1 < NUM && c.d2 < NUM && h != c.d1 && h != c.d2 && c.d1 != c.d2
    && h in s.owner && s.owner[h] == h && c.d1 in s.owner && s.owner[c.d1] == h && c.d2 in s.owner && s.owner[c.d2] == h
    && c.req < |s.reqs|
    && var r := s.reqs[c.req];
       && s.desc[h] == Desc(OpAt(h), c.d1, true, false)
       && s.desc[c.d1] == Desc(DataOf(r.buf), c.d2, true, !r.write)
       && s.desc[c.d2] == Desc(StatusAt(h), 0, false, true)
       && s.ops[h] == Op(r.write, SectorOf(r.blockno)) && s.info[h].b == Ref(r.buf)
       && r.buf in s.holder && s.holder[r.buf] == h && c.req in s.runner && s.runner[c.req] == h
       && (c.phase in {Served, Used, Seen} ==> s.info[h].status == 0)
       && (r.buf in s.busy <==> c.phase != Seen)
  }

  ghost predicate ChainsOk(s: State) {
    && |s.free| == NUM && |s.desc| == NUM && |s.ops| == NUM && |s.info| == NUM
    && (forall i | 0 <= i < NUM :: s.free[i] <==> i !in s.owner)
    && (forall i {:trigger OwnerOk(s, i)} | i in s.owner :: OwnerOk(s, i))
    && (forall h {:trigger ChainOk(s, h)} | h in s.chains :: ChainOk(s, h))
    && (forall b {:trigger HolderOk(s, b)} | b in s.holder :: HolderOk(s, b))
    && (forall r {:trigger RunnerOk(s, r)} | r in s.runner :: RunnerOk(s, r))
  }

  predicate OwnerOk(s: State, i: nat)
    requires i in s.owner
  {
    i < NUM && s.owner[i] in s.chains && Member(s.owner[i], s.chains[s.owner[i]], i)
  }

  predicate HolderOk(s: State, b: nat)
    requires b in s.holder
  {
    var h := s.holder[b];
    h in s.chains && s.chains[h].req < |s.reqs| && s.reqs[s.chains[h].req].buf == b
  }

  predicate RunnerOk(s: State, r: nat)
    requires r in s.runner
  {
    s.runner[r] in s.chains && s.chains[s.runner[r]].req == r
  }

  /** The queue q of chain heads lies in the ring from index `from` up to index `to`. */
  ghost predicate Queued(ring: seq<nat>, from: nat, to: nat, q: seq<nat>) {
    && |ring| == NUM && from < WRAP && to == (from + |q|) % WRAP && Distinct(q) && |q| <= 2
    && (forall k | 0 <= k < |q| :: ring[(from + k) % NUM] == q[k])
  }

  ghost predicate RingsOk(s: State) {
    && Queued(s.availRing, s.devAvail, s.availIdx, s.offered)
    && Queued(s.usedRing, s.usedIdx, s.devUsed, s.done)
    && (forall h | h in s.offered :: h in s.chains && s.chains[h].phase == Offered)
    && (forall h | h in s.done :: h in s.chains && s.chains[h].phase == Used)
    && (forall h | h in s.chains ::
          (s.chains[h].phase == Offered ==> h in s.offered) && (s.chains[h].phase == Used ==> h in s.done))
    && (forall h | h in s.chains && s.chains[h].phase == Prepared :: s.availRing[s.availIdx % NUM] == h)
  }

  /** Every request is reported at most once, and is reported exactly if it is not still under way. */
  ghost predicate HistoryOk(s: State) {
    && Distinct(s.completed)
    && (forall r | r in s.completed :: r < |s.reqs|)
    && (forall r | 0 <= r < |s.reqs| ::
          r in s.completed <==> r !in s.runner || (s.runner[r] in s.chains && s.chains[s.runner[r]].phase == Seen))
  }

  ghost predicate Inv(s: State) {
    ChainsOk(s) && RingsOk(s) && HistoryOk(s)
  }

  // ---- Steps ----

  datatype Action =
    | Prepare(r: Request, i0: nat, i1: nat, i2: nat) | Publish(h: nat)
    | Take | Transfer(h: nat) | Push(h: nat)
    | Intr | Finish(h: nat)
    | Store(b: nat, v: int) // its owner changes a buffer that is not in flight

  /** vdisk_lock is held between filling a ring slot and publishing it. */
  ghost predicate LockFree(s: State) {
    forall h | h in s.chains :: s.chains[h].phase != Prepared
  }

  ghost predicate Can(s: State, a: Action)
    requires Inv(s)
  {
    match a
    case Prepare(r, i0, i1, i2) =>
      && LockFree(s) && r.buf !in s.holder && i0 != i1 && i0 != i2 && i1 != i2
      && i0 < NUM && i1 < NUM && i2 < NUM && s.free[i0] && s.free[i1] && s.free[i2]
    case Publish(h) => h in s.chains && s.chains[h].phase == Prepared
    case Take => s.devAvail != s.availIdx
    case Transfer(h) => h in s.chains && s.chains[h].phase == Taken
    case Push(h) => h in s.chains && s.chains[h].phase == Served
    case Intr => LockFree(s) && s.usedIdx != s.devUsed
    case Finish(h) => LockFree(s) && h in s.chains && s.chains[h].phase == Seen
    case Store(b, v) => b !in s.holder
  }

  function SetPhase(s: State, h: nat, p: Phase): State
    requires h in s.chains
  {
    s.(chains := s.chains[h := s.chains[h].(phase := p)])
  }

  /** hal_disk_rw() up to the ring slot. */
  function DoPrepare(s: State, r: Request, i0: nat, i1: nat, i2: nat): State
    requires Inv(s) && i0 < NUM && i1 < NUM && i2 < NUM
  {
    s.(free := s.free[i0 := false][i1 := false][i2 := false],
       desc := s.desc[i0 := Desc(OpAt(i0), i1, true, false)][i1 := Desc(DataOf(r.buf), i2, true, !r.write)]
                     [i2 := Desc(StatusAt(i0), 0, false, true)],
       ops := s.ops[i0 := Op(r.write, SectorOf(r.blockno))],
       info := s.info[i0 := Info(Ref(r.buf), 0xff)],
       busy := s.busy + {r.buf},
       availRing := s.availRing[s.availIdx % NUM := i0],
       chains := s.chains[i0 := Chain(i1, i2, |s.reqs|, Prepared)],
       owner := s.owner[i0 := i0][i1 := i0][i2 := i0],
       holder := s.holder[r.buf := i0], runner := s.runner[|s.reqs| := i0], reqs := s.reqs + [r])
  }

  /** The slot the device reads next holds the oldest offered chain. */
  lemma TakesFirst(s: State)
    requires Inv(s) && s.devAvail != s.availIdx
    ensures s.offered != [] && |s.availRing| == NUM && s.availRing[s.devAvail % NUM] == s.offered[0]
    ensures s.offered[0] in s.chains
    ensures s.chains[s.offered[0]].phase == Offered
  {
    assert s.offered != [] ==> s.availRing[(s.devAvail + 0) % NUM] == s.offered[0];
  }

  /** The device reading the next ring slot. */
  function DoTake(s: State): State
    requires Inv(s) && s.devAvail != s.availIdx
  {
    TakesFirst(s);
    var h := s.availRing[s.devAvail % NUM];
    SetPhase(s, h, Taken).(devAvail := (s.devAvail + 1) % WRAP, offered := s.offered[1..])
  }

  /** The descriptors from head h lead to the request's own header, buffer and status byte. */
  lemma LeadsToOwn(s: State, h: nat)
    requires Inv(s) && h in s.chains
    ensures h < NUM && |s.desc| == |s.ops| == |s.info| == NUM && s.chains[h].req < |s.reqs| && s.desc[h].next < NUM
    ensures var d1, r := s.desc[s.desc[h].next], s.reqs[s.chains[h].req];
            && s.desc[h].addr == OpAt(h) && d1.addr == DataOf(r.buf) && d1.next < NUM
            && s.desc[d1.next].addr == StatusAt(h)
            && s.ops[h] == Op(r.write, SectorOf(r.blockno))
  {
    assert ChainOk(s, h);
  }

  /** The device following the descriptors from head h: move the data, write the status byte. */
  function DoTransfer(s: State, h: nat): State
    requires Inv(s) && h in s.chains
  {
    LeadsToOwn(s, h);
    var b, op := s.desc[s.desc[h].next].addr.buf, s.ops[s.desc[h].addr.i];
    SetPhase(s, h, Served).(
      memory := if op.write then s.memory else s.memory[b := Sector(s, op.sector)],
      disk := if op.write then s.disk[op.sector := Contents(s, b)] else s.disk,
      info := s.info[h := s.info[h].(status := 0)])
  }

  function Sector(s: State, n: nat): int {
    if n in s.disk then s.disk[n] else 0
  }

  function Contents(s: State, b: nat): int {
    if b in s.memory then s.memory[b] else 0
  }

  /** The device adding a used entry. */
  function DoPush(s: State, h: nat): State
    requires Inv(s) && h in s.chains
  {
    SetPhase(s, h, Used).(usedRing := s.usedRing[s.devUsed % NUM := h],
                          devUsed := (s.devUsed + 1) % WRAP, done := s.done + [h])
  }

  /**
    The used entry the handler reads next names the oldest completed chain, whose status is 0 and whose
    buffer is recorded.
  */
  lemma SeesFirst(s: State)
    requires Inv(s) && s.usedIdx != s.devUsed
    ensures s.done != [] && |s.usedRing| == NUM && s.usedRing[s.usedIdx % NUM] == s.done[0] && s.done[0] in s.chains
    ensures s.done[0] < NUM
    ensures s.chains[s.done[0]].phase == Used && |s.info| == NUM && s.info[s.done[0]].status == 0
    ensures s.chains[s.done[0]].req < |s.reqs| && s.info[s.done[0]].b == Ref(s.reqs[s.chains[s.done[0]].req].buf)
  {
    assert s.done != [] ==> s.usedRing[(s.usedIdx + 0) % NUM] == s.done[0];
    assert s.done != [] ==> ChainOk(s, s.done[0]);
  }

  /** One round of hal_disk_intr_one(). */
  function DoIntr(s: State): State
    requires Inv(s) && s.usedIdx != s.devUsed
  {
    SeesFirst(s);
    var id := s.usedRing[s.usedIdx % NUM];
    SetPhase(s, id, Seen).(busy := s.busy - {s.info[id].b.id}, usedIdx := (s.usedIdx + 1) % WRAP, done := s.done[1..],
                           completed := s.completed + [s.chains[id].req])
  }

  /** hal_disk_rw() after its wait: the chain is freed. */
  function DoFinish(s: State, h: nat): State
    requires Inv(s) && h in s.chains
  {
    assert ChainOk(s, h);
    var c := s.chains[h];
    var zero := Desc(Nowhere, 0, false, false);
    s.(info := s.info[h := s.info[h].(b := Null)],
       desc := s.desc[h := zero][c.d1 := zero][c.d2 := zero],
       free := s.free[h := true][c.d1 := true][c.d2 := true],
       chains := s.chains - {h}, owner := s.owner - {h, c.d1, c.d2},
       holder := s.holder - {s.reqs[c.req].buf}, runner := s.runner - {c.req})
  }

  function Do(s: State, a: Action): State
    requires Inv(s) && Can(s, a)
  {
    match a
    case Prepare(r, i0, i1, i2) => DoPrepare(s, r, i0, i1, i2)
    case Publish(h) => SetPhase(s, h, Offered).(availIdx := (s.availIdx + 1) % WRAP, offered := s.offered + [h])
    case Take => DoTake(s)
    case Transfer(h) => DoTransfer(s, h)
    case Push(h) => DoPush(s, h)
    case Intr => DoIntr(s)
    case Finish(h) => DoFinish(s, h)
    case Store(b, v) => s.(memory := s.memory[b := v])
  }

  // ---- At most two chains ----

  lemma ThreeMembers(s: State, h: nat) returns (m: set<nat>)
    requires ChainsOk(s) && h in s.chains
    ensures |m| == 3 && m <= {0, 1, 2, 3, 4, 5, 6, 7} && forall i | i in m :: i in s.owner && s.owner[i] == h
  {
    assert ChainOk(s, h);
    var c := s.chains[h];
    m := {h, c.d1, c.d2};
  }

  /** Three chains would need nine descriptors. */
  lemma NotThree(s: State, a: nat, b: nat, c: nat)
    requires ChainsOk(s) && a in s.chains && b in s.chains && c in s.chains
    ensures a == b || a == c || b == c
  {
    hide ChainsOk;
    var ma := ThreeMembers(s, a);
    var mb := ThreeMembers(s, b);
    var mc := ThreeMembers(s, c);
    assert a != b ==> ma !! mb;
    assert a != c && b != c ==> ma + mb !! mc;
    Smaller(ma + mb + mc, {0, 1, 2, 3, 4, 5, 6, 7});
  }

  /** At most two requests are in flight, so a queue of distinct live chains has at most two. */
  lemma AtMostTwo(s: State, q: seq<nat>)
    requires ChainsOk(s) && Distinct(q) && forall h | h in q :: h in s.chains
    ensures |q| <= 2
  {
    if |q| > 2 { NotThree(s, q[0], q[1], q[2]); }
  }

  // ---- Rings ----

  /** Filling the slot behind the queue overwrites none of its entries, at any 16-bit position. */
  lemma QueuedPut(ring: seq<nat>, from: nat, to: nat, q: seq<nat>, h: nat)
    requires Queued(ring, from, to, q)
    ensures Queued(ring[to % NUM := h], from, to, q)
  {
    forall k | 0 <= k < |q| ensures ring[to % NUM := h][(from + k) % NUM] == q[k] {
      assert (from + k) % NUM != (from + |q|) % NUM == to % NUM;
    }
  }

  lemma QueuedPush(ring: seq<nat>, from: nat, to: nat, q: seq<nat>, h: nat)
    requires Queued(ring, from, to, q) && h !in q && |q| < 2 && ring[to % NUM] == h
    ensures Queued(ring, from, (to + 1) % WRAP, q + [h])
  {
    assert (from + |q|) % NUM == to % NUM;
    assert (from + |q| + 1) % WRAP == (to + 1) % WRAP;
  }

  lemma QueueFacts(ring: seq<nat>, from: nat, to: nat, q: seq<nat>)
    requires Queued(ring, from, to, q)
    ensures Distinct(q) && |q| <= 2 && |ring| == NUM
  {}

  lemma QueuedPop(ring: seq<nat>, from: nat, to: nat, q: seq<nat>)
    requires Queued(ring, from, to, q) && q != []
    ensures Queued(ring, (from + 1) % WRAP, to, q[1..])
  {
    var from' := (from + 1) % WRAP;
    assert (from' + (|q| - 1)) % WRAP == (from + |q|) % WRAP;
    forall k | 0 <= k < |q| - 1 ensures ring[(from' + k) % NUM] == q[1..][k] {
      assert (from' + k) % NUM == (from + (k + 1)) % NUM;
    }
  }

  // ---- Every step keeps the invariant ----

  lemma PrepareOld(s: State, r: Request, i0: nat, i1: nat, i2: nat, h: nat)
    requires Inv(s) && Can(s, Prepare(r, i0, i1, i2)) && h in s.chains
    ensures h != i0 && ChainOk(DoPrepare(s, r, i0, i1, i2), h)
  {
    hide RingsOk, HistoryOk;
    assert ChainOk(s, h);
  }

  lemma PrepareNew(s: State, r: Request, i0: nat, i1: nat, i2: nat)
    requires Inv(s) && Can(s, Prepare(r, i0, i1, i2))
    ensures ChainOk(DoPrepare(s, r, i0, i1, i2), i0)
  {
    hide RingsOk, HistoryOk;
  }

  lemma PrepareOwners(s: State, r: Request, i0: nat, i1: nat, i2: nat)
    requires Inv(s) && Can(s, Prepare(r, i0, i1, i2))
    ensures var s' := DoPrepare(s, r, i0, i1, i2);
            && |s'.free| == NUM && |s'.desc| == NUM && |s'.ops| == NUM && |s'.info| == NUM
            && (forall i | 0 <= i < NUM :: s'.free[i] <==> i !in s'.owner)
            && (forall i {:trigger OwnerOk(s', i)} | i in s'.owner :: OwnerOk(s', i))
  {
    hide RingsOk, HistoryOk, ChainOk, OwnerOk, HolderOk, RunnerOk, LockFree;
    var s' := DoPrepare(s, r, i0, i1, i2);
    forall i | i in s'.owner ensures OwnerOk(s', i) {
      PrepareOwner(s, r, i0, i1, i2, i);
    }
  }

  lemma PrepareOwner(s: State, r: Request, i0: nat, i1: nat, i2: nat, i: nat)
    requires Inv(s) && Can(s, Prepare(r, i0, i1, i2)) && i in DoPrepare(s, r, i0, i1, i2).owner
    ensures OwnerOk(DoPrepare(s, r, i0, i1, i2), i)
  {
    hide RingsOk, HistoryOk, ChainOk, HolderOk, RunnerOk, LockFree;
    NewHead(s, i0);
    assert i in s.owner ==> OwnerOk(s, i);
  }

  lemma PrepareHolders(s: State, r: Request, i0: nat, i1: nat, i2: nat)
    requires Inv(s) && Can(s, Prepare(r, i0, i1, i2))
    ensures var s' := DoPrepare(s, r, i0, i1, i2);
            && (forall b {:trigger HolderOk(s', b)} | b in s'.holder :: HolderOk(s', b))
            && (forall q {:trigger RunnerOk(s', q)} | q in s'.runner :: RunnerOk(s', q))
  {
    hide RingsOk, HistoryOk, ChainOk, OwnerOk;
    var s' := DoPrepare(s, r, i0, i1, i2);
    NewHead(s, i0);
    forall b | b in s'.holder ensures HolderOk(s', b) {
      assert b in s.holder ==> HolderOk(s, b);
    }
    forall q | q in s'.runner ensures RunnerOk(s', q) {
      assert q in s.runner ==> RunnerOk(s, q);
    }
  }

  lemma PrepareChains(s: State, r: Request, i0: nat, i1: nat, i2: nat)
    requires Inv(s) && Can(s, Prepare(r, i0, i1, i2))
    ensures ChainsOk(DoPrepare(s, r, i0, i1, i2))
  {
    hide RingsOk, HistoryOk, ChainOk, OwnerOk, HolderOk, RunnerOk;
    PrepareOwners(s, r, i0, i1, i2);
    PrepareHolders(s, r, i0, i1, i2);
    var s' := DoPrepare(s, r, i0, i1, i2);
    forall h | h in s'.chains ensures ChainOk(s', h) {
      if h in s.chains { PrepareOld(s, r, i0, i1, i2, h); } else { PrepareNew(s, r, i0, i1, i2); }
    }
  }

  /** A free descriptor heads no chain, and a new request number is not running. */
  lemma NewHead(s: State, i: nat)
    requires Inv(s) && i < NUM && s.free[i]
    ensures i !in s.chains && |s.reqs| !in s.runner
  {
    hide RingsOk, HistoryOk;
    assert i in s.chains ==> ChainOk(s, i);
    forall r | r in s.runner ensures r < |s.reqs| {
      assert RunnerOk(s, r) && ChainOk(s, s.runner[r]);
    }
  }

  lemma PrepareRings(s: State, r: Request, i0: nat, i1: nat, i2: nat)
    requires Inv(s) && Can(s, Prepare(r, i0, i1, i2))
    ensures RingsOk(DoPrepare(s, r, i0, i1, i2))
  {
    hide ChainsOk, HistoryOk, Queued;
    NewHead(s, i0);
    QueueFacts(s.availRing, s.devAvail, s.availIdx, s.offered);
    QueuedPut(s.availRing, s.devAvail, s.availIdx, s.offered, i0);
  }

  lemma PrepareHistory(s: State, r: Request, i0: nat, i1: nat, i2: nat)
    requires Inv(s) && Can(s, Prepare(r, i0, i1, i2))
    ensures HistoryOk(DoPrepare(s, r, i0, i1, i2))
  {
    hide ChainsOk, RingsOk;
    NewHead(s, i0);
  }

  lemma PrepareKeeps(s: State, r: Request, i0: nat, i1: nat, i2: nat)
    requires Inv(s) && Can(s, Prepare(r, i0, i1, i2))
    ensures Inv(DoPrepare(s, r, i0, i1, i2))
  {
    hide ChainsOk, RingsOk, HistoryOk;
    PrepareChains(s, r, i0, i1, i2);
    PrepareRings(s, r, i0, i1, i2);
    PrepareHistory(s, r, i0, i1, i2);
  }

  /** s' is s with chain h moved on to a phase before Seen; the rings may have moved with it. */
  ghost predicate Moved(s: State, s': State, h: nat, p: Phase)
    requires |s.info| == NUM && h in s.chains
  {
    && s.chains[h].phase != Seen && p in {Offered, Taken, Served, Used}
    && s' == SetPhase(s, h, p).(availIdx := s'.availIdx, devAvail := s'.devAvail, offered := s'.offered,
                                done := s'.done, usedRing := s'.usedRing, devUsed := s'.devUsed,
                                memory := s'.memory, disk := s'.disk, info := s'.info)
    && |s'.info| == NUM && h < NUM && s'.info == s.info[h := s'.info[h]] && s'.info[h].b == s.info[h].b
    && (p in {Served, Used} ==> s'.info[h].status == 0)
  }

  lemma MovedChain(s: State, s': State, h: nat, p: Phase, g: nat)
    requires ChainsOk(s) && h in s.chains && Moved(s, s', h, p) && g in s.chains
    ensures ChainOk(s', g)
  {
    assert ChainOk(s, g);
  }

  lemma MovedChains(s: State, s': State, h: nat, p: Phase)
    requires Inv(s) && h in s.chains && Moved(s, s', h, p)
    ensures ChainsOk(s') && HistoryOk(s')
  {
    hide RingsOk, ChainOk;
    forall g | g in s'.chains ensures ChainOk(s', g) {
      MovedChain(s, s', h, p, g);
    }
    forall i | i in s'.owner ensures OwnerOk(s', i) {
      assert OwnerOk(s, i);
    }
    forall b | b in s'.holder ensures HolderOk(s', b) {
      assert HolderOk(s, b);
    }
    forall r | r in s'.runner ensures RunnerOk(s', r) {
      assert RunnerOk(s, r);
    }
  }

  lemma PublishKeeps(s: State, h: nat)
    requires Inv(s) && Can(s, Publish(h))
    ensures Inv(Do(s, Publish(h)))
  {
    var s' := Do(s, Publish(h));
    assert ChainOk(s, h);
    MovedChains(s, s', h, Offered);
    AtMostTwo(s, s.offered + [h]);
    QueuedPush(s.availRing, s.devAvail, s.availIdx, s.offered, h);
    forall g | g in s.chains && g != h ensures s.chains[g].phase != Prepared {
    }
  }

  lemma TakeKeeps(s: State)
    requires Inv(s) && Can(s, Take)
    ensures Inv(DoTake(s))
  {
    hide HistoryOk, Queued;
    TakesFirst(s);
    assert ChainOk(s, s.offered[0]);
    assert Distinct(s.offered) by { QueueFacts(s.availRing, s.devAvail, s.availIdx, s.offered); }
    MovedChains(s, DoTake(s), s.offered[0], Taken);
    QueuedPop(s.availRing, s.devAvail, s.availIdx, s.offered);
  }

  lemma TransferKeeps(s: State, h: nat)
    requires Inv(s) && Can(s, Transfer(h))
    ensures Inv(DoTransfer(s, h))
  {
    assert ChainOk(s, h);
    MovedChains(s, DoTransfer(s, h), h, Served);
  }

  lemma PushKeeps(s: State, h: nat)
    requires Inv(s) && Can(s, Push(h))
    ensures Inv(DoPush(s, h))
  {
    assert ChainOk(s, h);
    MovedChains(s, DoPush(s, h), h, Used);
    AtMostTwo(s, s.done + [h]);
    QueuedPut(s.usedRing, s.usedIdx, s.devUsed, s.done, h);
    QueuedPush(s.usedRing[s.devUsed % NUM := h], s.usedIdx, s.devUsed, s.done, h);
  }

  lemma IntrChain(s: State, g: nat)
    requires Inv(s) && Can(s, Intr) && g in s.chains
    ensures ChainOk(DoIntr(s), g)
  {
    hide RingsOk, HistoryOk, OwnerOk, HolderOk, RunnerOk;
    SeesFirst(s);
    assert ChainOk(s, g) && ChainOk(s, s.done[0]);
  }

  lemma IntrChains(s: State)
    requires Inv(s) && Can(s, Intr)
    ensures ChainsOk(DoIntr(s))
  {
    hide RingsOk, HistoryOk, ChainOk;
    var s' := DoIntr(s);
    SeesFirst(s);
    forall g | g in s'.chains ensures ChainOk(s', g) {
      IntrChain(s, g);
    }
    forall i | i in s'.owner ensures OwnerOk(s', i) {
      assert OwnerOk(s, i);
    }
    forall b | b in s'.holder ensures HolderOk(s', b) {
      assert HolderOk(s, b);
    }
    forall r | r in s'.runner ensures RunnerOk(s', r) {
      assert RunnerOk(s, r);
    }
  }

  lemma IntrHistory(s: State)
    requires Inv(s) && Can(s, Intr)
    ensures HistoryOk(DoIntr(s))
  {
    hide RingsOk, OwnerOk, HolderOk;
    SeesFirst(s);
    var s', h := DoIntr(s), s.done[0];
    assert ChainOk(s, h);
    forall r | 0 <= r < |s'.reqs|
      ensures r in s'.completed <==>
              r !in s'.runner || (s'.runner[r] in s'.chains && s'.chains[s'.runner[r]].phase == Seen)
    {
      assert r in s.runner ==> RunnerOk(s, r);
    }
  }

  lemma IntrKeeps(s: State)
    requires Inv(s) && Can(s, Intr)
    ensures Inv(DoIntr(s))
  {
    hide ChainsOk, HistoryOk, Queued;
    SeesFirst(s);
    IntrChains(s);
    IntrHistory(s);
    QueueFacts(s.usedRing, s.usedIdx, s.devUsed, s.done);
    QueuedPop(s.usedRing, s.usedIdx, s.devUsed, s.done);
  }

  lemma FinishChain(s: State, h: nat, g: nat)
    requires Inv(s) && Can(s, Finish(h)) && g in s.chains && g != h
    ensures var s' := DoFinish(s, h); |s'.desc| == NUM && |s'.ops| == NUM && |s'.info| == NUM && g in s'.chains
    ensures ChainOk(DoFinish(s, h), g)
  {
    hide RingsOk, HistoryOk, OwnerOk, HolderOk, RunnerOk;
    assert ChainOk(s, g) && ChainOk(s, h);
  }

  lemma FinishOwners(s: State, h: nat)
    requires Inv(s) && Can(s, Finish(h))
    ensures var s' := DoFinish(s, h);
            && |s'.free| == NUM && |s'.desc| == NUM && |s'.ops| == NUM && |s'.info| == NUM
            && (forall i | 0 <= i < NUM :: s'.free[i] <==> i !in s'.owner)
            && (forall i {:trigger OwnerOk(s', i)} | i in s'.owner :: OwnerOk(s', i))
  {
    hide RingsOk, HistoryOk, HolderOk, RunnerOk;
    var s' := DoFinish(s, h);
    assert ChainOk(s, h);
    forall i | i in s'.owner ensures OwnerOk(s', i) {
      assert OwnerOk(s, i);
    }
  }

  lemma FinishHolders(s: State, h: nat)
    requires Inv(s) && Can(s, Finish(h))
    ensures var s' := DoFinish(s, h);
            && (forall b {:trigger HolderOk(s', b)} | b in s'.holder :: HolderOk(s', b))
            && (forall q {:trigger RunnerOk(s', q)} | q in s'.runner :: RunnerOk(s', q))
  {
    hide RingsOk, HistoryOk, OwnerOk;
    var s' := DoFinish(s, h);
    assert ChainOk(s, h);
    forall b | b in s'.holder ensures HolderOk(s', b) {
      assert HolderOk(s, b);
    }
    forall q | q in s'.runner ensures RunnerOk(s', q) {
      assert RunnerOk(s, q);
    }
  }

  lemma FinishHistory(s: State, h: nat)
    requires Inv(s) && Can(s, Finish(h))
    ensures HistoryOk(DoFinish(s, h))
  {
    hide RingsOk, OwnerOk, HolderOk;
    var s' := DoFinish(s, h);
    assert ChainOk(s, h);
    forall r | 0 <= r < |s'.reqs|
      ensures r in s'.completed <==>
              r !in s'.runner || (s'.runner[r] in s'.chains && s'.chains[s'.runner[r]].phase == Seen)
    {
      assert r in s.runner ==> RunnerOk(s, r);
    }
  }

  lemma FinishKeeps(s: State, h: nat)
    requires Inv(s) && Can(s, Finish(h))
    ensures Inv(DoFinish(s, h))
  {
    hide HistoryOk, ChainOk, OwnerOk, HolderOk, RunnerOk, Queued;
    FinishOwners(s, h);
    FinishHolders(s, h);
    FinishHistory(s, h);
    var s' := DoFinish(s, h);
    forall g | g in s'.chains ensures ChainOk(s', g) {
      FinishChain(s, h, g);
    }
  }

  lemma StoreKeeps(s: State, b: nat, v: int)
    requires Inv(s)
    ensures Inv(s.(memory := s.memory[b := v]))
  {
    hide ChainsOk, HistoryOk, Queued;
    StoreChains(s, b, v);
    assert HistoryOk(s.(memory := s.memory[b := v])) by { StoreHistory(s, b, v); }
  }

  lemma StoreChains(s: State, b: nat, v: int)
    requires ChainsOk(s)
    ensures ChainsOk(s.(memory := s.memory[b := v]))
  {
    hide ChainOk, OwnerOk, HolderOk, RunnerOk;
    var s' := s.(memory := s.memory[b := v]);
    forall h | h in s'.chains ensures ChainOk(s', h) { StoreChain(s, b, v, h); }
    forall i | i in s'.owner ensures OwnerOk(s', i) { StoreOwner(s, b, v, i); }
    forall c | c in s'.holder ensures HolderOk(s', c) { StoreHolder(s, b, v, c); }
    forall r | r in s'.runner ensures RunnerOk(s', r) { StoreRunner(s, b, v, r); }
  }

  lemma StoreChain(s: State, b: nat, v: int, h: nat)
    requires |s.desc| == NUM && |s.ops| == NUM && |s.info| == NUM && h in s.chains
    ensures ChainOk(s.(memory := s.memory[b := v]), h) == ChainOk(s, h)
  {}

  lemma StoreOwner(s: State, b: nat, v: int, i: nat)
    requires i in s.owner
    ensures OwnerOk(s.(memory := s.memory[b := v]), i) == OwnerOk(s, i)
  {}

  lemma StoreHolder(s: State, b: nat, v: int, c: nat)
    requires c in s.holder
    ensures HolderOk(s.(memory := s.memory[b := v]), c) == HolderOk(s, c)
  {}

  lemma StoreRunner(s: State, b: nat, v: int, r: nat)
    requires r in s.runner
    ensures RunnerOk(s.(memory := s.memory[b := v]), r) == RunnerOk(s, r)
  {}

  lemma StoreHistory(s: State, b: nat, v: int)
    requires HistoryOk(s)
    ensures HistoryOk(s.(memory := s.memory[b := v]))
  {}

  lemma StepKeeps(s: State, a: Action)
    requires Inv(s) && Can(s, a)
    ensures Inv(Do(s, a))
  {
    hide Inv, Can;
    match a
    case Prepare(r, i0, i1, i2) => PrepareKeeps(s, r, i0, i1, i2);
    case Publish(h) => PublishKeeps(s, h);
    case Take => TakeKeeps(s);
    case Transfer(h) => TransferKeeps(s, h);
    case Push(h) => PushKeeps(s, h);
    case Intr => IntrKeeps(s);
    case Finish(h) => FinishKeeps(s, h);
    case Store(b, v) => StoreKeeps(s, b, v);
  }

  // ---- Runs ----

  /** After initialisation: all descriptors free, both rings empty. */
  ghost predicate Init(s: State) {
    && s.free == seq(NUM, _ => true) && |s.desc| == NUM && |s.ops| == NUM && |s.info| == NUM
    && |s.availRing| == NUM && |s.usedRing| == NUM && s.availIdx == s.devAvail == s.usedIdx == s.devUsed == 0
    && s.busy == {} && s.chains == map[] && s.owner == map[] && s.holder == map[] && s.runner == map[]
    && s.offered == [] && s.done == [] && s.reqs == [] && s.completed == []
  }

  /** A run of driver, device and interrupt steps in any interleaving. */
  ghost predicate Reaches(s: State, acts: seq<Action>, s': State)
    decreases |acts|
  {
    if acts == [] then s' == s else Inv(s) && Can(s, acts[0]) && Reaches(Do(s, acts[0]), acts[1..], s')
  }

  lemma {:induction false} RunKeeps(s: State, acts: seq<Action>, s': State)
    requires (Init(s) || Inv(s)) && Reaches(s, acts, s')
    ensures Inv(s')
    ensures s.completed <= s'.completed && s.reqs <= s'.reqs
    decreases |acts|
  {
    if Init(s) { assert Inv(s); }
    if acts != [] {
      StepKeeps(s, acts[0]);
      Grows(s, acts[0]);
      RunKeeps(Do(s, acts[0]), acts[1..], s');
    }
  }

  lemma Grows(s: State, a: Action)
    requires Inv(s) && Can(s, a)
    ensures s.completed <= Do(s, a).completed && s.reqs <= Do(s, a).reqs
  {
    hide Inv, Can;
  }

  /** In every run each request is reported at most once, and one that hal_disk_rw() has returned from was reported. */
  lemma CompletesOnce(s: State, acts: seq<Action>, s': State, i: nat, j: nat)
    requires Init(s) && Reaches(s, acts, s') && i < |s'.completed| && j < |s'.completed|
    requires s'.completed[i] == s'.completed[j]
    ensures i == j
    ensures forall r | 0 <= r < |s'.reqs| && r !in s'.runner :: r in s'.completed
  {
    RunKeeps(s, acts, s');
  }

  /** Free descriptors and the chains in flight partition the table, and at most two are in flight. */
  lemma Partition(s: State, acts: seq<Action>, s': State)
    requires Init(s) && Reaches(s, acts, s')
    ensures |s'.free| == NUM && |s'.chains| <= 2
    ensures forall i | 0 <= i < NUM :: s'.free[i] <==> forall h | h in s'.chains :: !Member(h, s'.chains[h], i)
    ensures forall h, g, i | h in s'.chains && g in s'.chains
                             && Member(h, s'.chains[h], i) && Member(g, s'.chains[g], i) ::
              h == g
  {
    hide ChainsOk, RingsOk, HistoryOk, Init, Reaches, Member;
    RunKeeps(s, acts, s');
    TwoKeys(s');
    FreeIs(s', 0);
    forall h, g, i | h in s'.chains && g in s'.chains && Member(h, s'.chains[h], i) && Member(g, s'.chains[g], i)
      ensures h == g
    {
      MemberOwned(s', h, i);
      MemberOwned(s', g, i);
    }
    forall i: nat | i < NUM
      ensures s'.free[i] <==> forall h | h in s'.chains :: !Member(h, s'.chains[h], i)
    {
      NoMember(s', i);
    }
  }

  /** A descriptor is free exactly if it is in no chain. */
  lemma NoMember(s: State, i: nat)
    requires ChainsOk(s) && i < NUM
    ensures |s.free| == NUM && (s.free[i] <==> forall h | h in s.chains :: !Member(h, s.chains[h], i))
  {
    hide ChainsOk, Member;
    FreeIs(s, i);
    forall h | h in s.chains && Member(h, s.chains[h], i) ensures i in s.owner { MemberOwned(s, h, i); }
    if i in s.owner { OwnerIs(s, i); }
  }

  lemma FreeIs(s: State, i: nat)
    requires ChainsOk(s) && i < NUM
    ensures |s.free| == NUM && (s.free[i] <==> i !in s.owner)
  {}

  lemma MemberOwned(s: State, h: nat, i: nat)
    requires ChainsOk(s) && h in s.chains && Member(h, s.chains[h], i)
    ensures i in s.owner && s.owner[i] == h
  {
    assert ChainOk(s, h);
  }

  lemma OwnerIs(s: State, i: nat)
    requires ChainsOk(s) && i in s.owner
    ensures s.owner[i] in s.chains && Member(s.owner[i], s.chains[s.owner[i]], i)
  {
    assert OwnerOk(s, i);
  }

  lemma TwoKeys(s: State)
    requires ChainsOk(s)
    ensures |s.chains| <= 2
  {
    hide ChainsOk;
    var keys := s.chains.Keys;
    if |keys| > 2 {
      var a :| a in keys;
      assert |keys - {a}| > 1;
      var b :| b in keys - {a};
      assert |keys - {a} - {b}| > 0;
      var c :| c in keys - {a} - {b};
      NotThree(s, a, b, c);
    }
  }

  /** The handler clears the disk flag of the buffer of the request it reports, and of no other. */
  lemma ReportsOwn(s: State)
    requires Inv(s) && Can(s, Intr)
    ensures s.done != [] && s.done[0] in s.chains && s.chains[s.done[0]].req < |s.reqs|
    ensures var s', r := DoIntr(s), s.chains[s.done[0]].req;
            && r !in s.completed && s'.completed == s.completed + [r]
            && s.reqs[r].buf in s.busy && s'.busy == s.busy - {s.reqs[r].buf}
  {
    SeesFirst(s);
    assert ChainOk(s, s.done[0]);
    assert RunnerOk(s, s.chains[s.done[0]].req);
  }

  /** The device moves exactly the data of the request: its own block to or from its own buffer. */
  lemma TransfersOwn(s: State, h: nat)
    requires Inv(s) && Can(s, Transfer(h))
    ensures s.chains[h].req < |s.reqs|
    ensures var s', r := DoTransfer(s, h), s.reqs[s.chains[h].req];
            if r.write then s'.disk == s.disk[SectorOf(r.blockno) := Contents(s, r.buf)] && s'.memory == s.memory
            else s'.memory == s.memory[r.buf := Sector(s, SectorOf(r.blockno))] && s'.disk == s.disk
  {
    LeadsToOwn(s, h);
  }

  // ---- What a returned request has done ----

  predicate Over(s: State, h: nat) {
    h in s.chains && s.chains[h].phase in {Served, Used, Seen}
  }

  /** A chain whose data has been moved keeps its request and its buffer's contents until it is freed. */
  lemma StepBack(s: State, a: Action, h: nat)
    requires Inv(s) && Can(s, a) && Over(Do(s, a), h) && a != Transfer(h)
    ensures Over(s, h) && Do(s, a).chains[h].req == s.chains[h].req < |s.reqs| && s.reqs <= Do(s, a).reqs
    ensures var b := s.reqs[s.chains[h].req].buf; Contents(Do(s, a), b) == Contents(s, b)
  {
    hide RingsOk, HistoryOk, OwnerOk, HolderOk, RunnerOk, Can, Do, Contents;
    StepPhase(s, a, h);
    assert ChainOk(s, h);
    BufferKept(s, a, h);
  }

  /** Only its own transfer, if it is a read, changes the buffer of a request in flight. */
  lemma BufferKept(s: State, a: Action, h: nat)
    requires Inv(s) && Can(s, a) && h in s.chains && s.chains[h].req < |s.reqs|
    requires a != Transfer(h) || s.reqs[s.chains[h].req].write
    ensures var b := s.reqs[s.chains[h].req].buf; Contents(Do(s, a), b) == Contents(s, b)
  {
    hide RingsOk, HistoryOk, OwnerOk, HolderOk, RunnerOk, LockFree;
    assert ChainOk(s, h);
    if a.Transfer? {
      assert ChainOk(s, a.h);
      TransfersOwn(s, a.h);
    }
  }

  lemma StepPhase(s: State, a: Action, h: nat)
    requires Inv(s) && Can(s, a) && Over(Do(s, a), h) && a != Transfer(h)
    ensures Over(s, h) && Do(s, a).chains[h].req == s.chains[h].req && s.reqs <= Do(s, a).reqs
  {
    hide ChainsOk, RingsOk, HistoryOk;
    match a
    case Prepare(r, i0, i1, i2) => NewHead(s, i0);
    case Take => TakesFirst(s);
    case Intr => SeesFirst(s);
    case _ =>
  }

  lemma {:induction false} LastStep(s: State, acts: seq<Action>, s': State) returns (m: State)
    requires Reaches(s, acts, s') && acts != []
    ensures Reaches(s, acts[..|acts| - 1], m) && Inv(m) && Can(m, acts[|acts| - 1]) && Do(m, acts[|acts| - 1]) == s'
    decreases |acts|
  {
    hide Inv, Can, Do;
    if |acts| == 1 {
      assert acts[1..] == [] && acts[..0] == [];
      m := s;
    } else {
      m := LastStep(Do(s, acts[0]), acts[1..], s');
      assert acts[1..][..|acts| - 2] == acts[..|acts| - 1][1..];
    }
  }

  /**
    When hal_disk_rw() is about to return from request h, its transfer took place at a state m of the
    run, after it was issued: a read buffer holds what the request's block held at m, and a write put
    what the buffer held there, and still holds, into the block.
  */
  lemma {:induction false} ReturnsOwnBlock(s: State, acts: seq<Action>, s': State, h: nat) returns (k: nat, m: State)
    requires Init(s) && Reaches(s, acts, s') && Over(s', h)
    ensures k < |acts| && acts[k] == Transfer(h) && Reaches(s, acts[..k], m) && Inv(m) && Can(m, Transfer(h))
    ensures h in m.chains && m.chains[h].req == s'.chains[h].req < |m.reqs| && m.reqs <= s'.reqs
    ensures var r := m.reqs[m.chains[h].req];
            if r.write then && Do(m, Transfer(h)).disk == m.disk[SectorOf(r.blockno) := Contents(m, r.buf)]
                            && Contents(s', r.buf) == Contents(m, r.buf)
            else Contents(s', r.buf) == Sector(m, SectorOf(r.blockno))
    decreases |acts|
  {
    hide Inv, Can, Do, Contents, Sector;
    RunKeeps(s, acts, s');
    assert acts != [] by { NotAtStart(s, h); }
    var n := |acts| - 1;
    var t := LastStep(s, acts, s');
    if acts[n] == Transfer(h) {
      k, m := n, t;
      TransferEnds(t, h);
    } else {
      StepBack(t, acts[n], h);
      k, m := ReturnsOwnBlock(s, acts[..n], t, h);
      assert acts[..n][..k] == acts[..k];
      assert t.reqs[t.chains[h].req] == m.reqs[m.chains[h].req];
    }
  }

  /** A step keeps the request of a chain that stays, or is the one that made the chain. */
  lemma StepRequest(s: State, a: Action, h: nat)
    requires Inv(s) && Can(s, a) && h in Do(s, a).chains && Do(s, a).chains[h].req < |Do(s, a).reqs|
    ensures var r := Do(s, a).reqs[Do(s, a).chains[h].req];
            || (a.Prepare? && a.i0 == h && a.r == r && Contents(Do(s, a), r.buf) == Contents(s, r.buf))
            || (h in s.chains && s.chains[h].req < |s.reqs| && s.reqs[s.chains[h].req] == r)
  {
    hide RingsOk, HistoryOk, OwnerOk, HolderOk, RunnerOk, LockFree;
    if h in s.chains { assert ChainOk(s, h); }
    match a
    case Take => TakesFirst(s);
    case Intr => SeesFirst(s);
    case _ =>
  }

  /** While a write is in flight its buffer holds what it held when hal_disk_rw() was called. */
  lemma {:induction false} HoldsIssued(s: State, acts: seq<Action>, s': State, h: nat) returns (i: nat, p: State)
    requires Init(s) && Reaches(s, acts, s') && h in s'.chains && s'.chains[h].req < |s'.reqs|
    requires s'.reqs[s'.chains[h].req].write
    ensures var r := s'.reqs[s'.chains[h].req];
            && i < |acts| && acts[i].Prepare? && acts[i].i0 == h && acts[i].r == r
            && Reaches(s, acts[..i], p) && Contents(p, r.buf) == Contents(s', r.buf)
    decreases |acts|
  {
    hide Inv, Can, Do, Contents;
    RunKeeps(s, acts, s');
    assert acts != [] by { NoneAtStart(s, h); }
    var n := |acts| - 1;
    var t := LastStep(s, acts, s');
    StepRequest(t, acts[n], h);
    if acts[n].Prepare? && acts[n].i0 == h {
      i, p := n, t;
      OnlyNew(t, acts[n], h);
    } else {
      BufferKept(t, acts[n], h);
      i, p := HoldsIssued(s, acts[..n], t, h);
      assert acts[..n][..i] == acts[..i];
    }
  }

  /** The head of a new chain was free. */
  lemma OnlyNew(s: State, a: Action, h: nat)
    requires Inv(s) && Can(s, a) && a.Prepare? && a.i0 == h
    ensures h !in s.chains
  {
    hide RingsOk, HistoryOk, ChainOk, OwnerOk, HolderOk, RunnerOk;
    if h in s.chains { HeadOwned(s, h); }
  }

  lemma HeadOwned(s: State, h: nat)
    requires Inv(s) && h in s.chains
    ensures h in s.owner
  {
    assert ChainOk(s, h);
  }

  lemma NoneAtStart(s: State, h: nat)
    requires Init(s)
    ensures h !in s.chains
  {}

  /**
    In every run a write that hal_disk_rw() can return from put into its sector what its buffer held
    when the request was issued, at step i.
  */
  lemma WritesIssued(s: State, acts: seq<Action>, s': State, h: nat) returns (i: nat, p: State, k: nat, m: State)
    requires Init(s) && Reaches(s, acts, s') && Over(s', h) && s'.chains[h].req < |s'.reqs|
    requires s'.reqs[s'.chains[h].req].write
    ensures i < k < |acts| && acts[i].Prepare? && acts[i].r == s'.reqs[s'.chains[h].req] && acts[k] == Transfer(h)
    ensures Reaches(s, acts[..i], p) && Reaches(s, acts[..k], m) && Inv(m) && Can(m, Transfer(h))
    ensures Do(m, Transfer(h)).disk == m.disk[SectorOf(acts[i].r.blockno) := Contents(p, acts[i].r.buf)]
  {
    hide Inv, Can, Do, Contents, Sector;
    k, m := ReturnsOwnBlock(s, acts, s', h);
    assert m.reqs[m.chains[h].req] == s'.reqs[s'.chains[h].req];
    i, p := HoldsIssued(s, acts[..k], m, h);
    assert acts[..k][..i] == acts[..i];
  }

  lemma NotAtStart(s: State, h: nat)
    requires Init(s)
    ensures !Over(s, h)
  {}

  lemma TransferEnds(s: State, h: nat)
    requires Inv(s) && Can(s, Transfer(h))
    ensures h in s.chains && Do(s, Transfer(h)).chains[h].req == s.chains[h].req < |s.reqs|
    ensures Do(s, Transfer(h)).reqs == s.reqs
    ensures var s', r := Do(s, Transfer(h)), s.reqs[s.chains[h].req];
            if r.write then && s'.disk == s.disk[SectorOf(r.blockno) := Contents(s, r.buf)]
                            && Contents(s', r.buf) == Contents(s, r.buf)
            else Contents(s', r.buf) == Sector(s, SectorOf(r.blockno))
  {
    TransfersOwn(s, h);
  }
}
