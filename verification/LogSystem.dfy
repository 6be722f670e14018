/**
  The log as a concurrent system: any interleaving of begin_op, log_write and end_op by any
  number of file-system operations, the block writes of commit() and recover_from_log(), and
  crashes at any point, including crashes during recovery.
*/
module LogSystem {
  import opened Sets
  import opened Log

  /** `from` is the disk when commit or recovery began and `done` the block writes made since. */
  datatype Phase = Running | Committing(from: Disk, done: nat) | Recovering(from: Disk, done: nat)

  /**
    block is lh.block[..lh.n]; cache holds the contents of the buffers that log_write pinned;
    ops has one element per outstanding operation, the set of blocks it has logged so far.
  */
  datatype State = State(start: nat, disk: Disk, phase: Phase, block: seq<nat>,
                         cache: map<nat, Block>, ops: seq<set<nat>>)

  datatype Action =
    | Begin
    | Write(op: nat, b: nat, data: Block)
    | End(op: nat)
    | DiskWrite
    | Crash

  datatype Outcome = Go(s: State) | Sleep | Panic

  // ---- Reservation ----

  /** Blocks that the outstanding operations may still add to the log. */
  function Unused(ops: seq<set<nat>>): int {
    if ops == [] then 0 else MAXOPBLOCKS - |ops[0]| + Unused(ops[1..])
  }

  lemma {:induction false} UnusedConcat(a: seq<set<nat>>, b: seq<set<nat>>)
    ensures Unused(a + b) == Unused(a) + Unused(b)
  {
    if a == [] {
      assert a + b == b;
    } else {
      assert (a + b)[1..] == a[1..] + b;
      UnusedConcat(a[1..], b);
    }
  }

  lemma UnusedUpdate(ops: seq<set<nat>>, i: nat, u: set<nat>)
    requires i < |ops|
    ensures Unused(ops[i := u]) == Unused(ops) + |ops[i]| - |u|
  {
    UnusedConcat(ops[..i], ops[i..]);
    UnusedConcat(ops[..i], [u] + ops[i + 1..]);
    assert ops == ops[..i] + ops[i..] && ops[i := u] == ops[..i] + ([u] + ops[i + 1..]);
    assert ops[i..][1..] == ([u] + ops[i + 1..])[1..];
  }

  lemma UnusedRemove(ops: seq<set<nat>>, i: nat)
    requires i < |ops|
    ensures Unused(ops[..i] + ops[i + 1..]) == Unused(ops) + |ops[i]| - MAXOPBLOCKS
  {
    UnusedConcat(ops[..i], ops[i..]);
    UnusedConcat(ops[..i], ops[i + 1..]);
    assert ops == ops[..i] + ops[i..];
    assert ops[i..][1..] == ops[i + 1..];
  }

  lemma {:induction false} UnusedRange(ops: seq<set<nat>>)
    requires forall i | 0 <= i < |ops| :: |ops[i]| <= MAXOPBLOCKS
    ensures 0 <= Unused(ops) <= |ops| * MAXOPBLOCKS
    ensures forall i | 0 <= i < |ops| :: MAXOPBLOCKS - |ops[i]| <= Unused(ops)
  {
    if ops != [] { UnusedRange(ops[1..]); }
  }

  // ---- Invariant ----

  function Values(block: seq<nat>, cache: map<nat, Block>): (v: seq<Block>)
    requires forall b | b in block :: b in cache
    ensures |v| == |block|
  {
    seq(|block|, i requires 0 <= i < |block| => cache[block[i]])
  }

  ghost predicate InvLog(s: State) {
    && Loggable(s.start, s.disk, s.block)
    && Distinct(s.block)
    && (forall b :: b in s.cache <==> b in s.block)
    && |s.block| + Unused(s.ops) <= LOGBLOCKS
    && forall i | 0 <= i < |s.ops| :: |s.ops[i]| <= MAXOPBLOCKS && forall b | b in s.ops[i] :: b in s.block
  }

  ghost predicate InvPhase(s: State)
    requires InvLog(s)
  {
    match s.phase
    case Running => s.disk[s.start][0] == 0
    case Committing(from, done) =>
      && s.ops == [] && s.block != [] && done < 2 * |s.block| + 2
      && Loggable(s.start, from, s.block) && from[s.start][0] == 0
      && s.disk == CommitPrefix(s.start, from, s.block, Values(s.block, s.cache), done)
    case Recovering(from, done) =>
      && s.ops == [] && s.block == []
      && ValidHead(s.start, from) && done <= |Targets(s.start, from)|
      && s.disk == RecoverPrefix(s.start, from, done)
  }

  ghost predicate Inv(s: State) {
    InvLog(s) && InvPhase(s)
  }

  /** What the callers of the log promise; everything else the log checks itself. */
  ghost predicate Legal(s: State, a: Action) {
    match a
    case Begin => true
    case Write(op, b, data) =>
      && b < |s.disk| && !InLog(s.start, b)
      && (s.ops != [] ==> op < |s.ops| && |s.ops[op] + {b}| <= MAXOPBLOCKS)
    case End(op) => op < |s.ops|
    case DiskWrite => !s.phase.Running?
    case Crash => true
  }

  // ---- Steps ----

  ghost function Next(s: State, a: Action): Outcome
    requires Inv(s) && Legal(s, a)
  {
    match a
    case Begin =>
      if !s.phase.Running? then Sleep
      else if |s.block| + (|s.ops| + 1) * MAXOPBLOCKS > LOGBLOCKS then Sleep
      else Go(s.(ops := s.ops + [{}]))
    case Write(op, b, data) =>
      if |s.block| >= LOGBLOCKS then Panic        // too big a transaction
      else if |s.ops| < 1 then Panic              // log_write outside of trans
      else Go(s.(block := if b in s.block then s.block else s.block + [b],   // log absorption
                 cache := s.cache[b := data],
                 ops := s.ops[op := s.ops[op] + {b}]))
    case End(op) =>
      var rest := s.ops[..op] + s.ops[op + 1..];
      if s.phase.Committing? then Panic
      else if rest == [] && s.block != [] then Go(s.(ops := rest, phase := Committing(s.disk, 0)))
      else Go(s.(ops := rest))
    case DiskWrite => Go(StepDisk(s))
    case Crash => Go(State(s.start, s.disk, Recovering(s.disk, 0), [], map[], []))
  }

  /** The next block write of commit() or recover_from_log(). */
  ghost function StepDisk(s: State): State
    requires Inv(s) && !s.phase.Running?
  {
    match s.phase
    case Committing(from, done) =>
      var d := CommitWrite(s.start, s.disk, s.block, Values(s.block, s.cache), done);
      if done == 2 * |s.block| + 1 then State(s.start, d, Running, [], map[], [])
      else s.(disk := d, phase := Committing(from, done + 1))
    case Recovering(from, done) =>
      var t := Targets(s.start, from);          // read by read_head() when recovery began
      if done == |t| then s.(disk := ClearHead(s.start, s.disk), phase := Running)
      else s.(disk := s.disk[t[done] := s.disk[s.start + 1 + done]], phase := Recovering(from, done + 1))
  }

  // ---- Views ----

  /** What a file-system operation reads: pinned buffers over the disk. */
  ghost function View(s: State): (v: Disk)
    ensures |v| == |s.disk|
  {
    seq(|s.disk|, b requires 0 <= b < |s.disk| => if b in s.cache then s.cache[b] else s.disk[b])
  }

  lemma HeadOk(s: State)
    requires Inv(s)
    ensures ValidHead(s.start, s.disk)
  {
    match s.phase
    case Running =>
    case Committing(from, done) =>
      CommitHead(s.start, from, s.block, Values(s.block, s.cache), done);
    case Recovering(from, done) =>
      RecoverResumes(s.start, from, done);
  }

  lemma CommitHead(start: nat, d: Disk, t: seq<nat>, v: seq<Block>, j: nat)
    requires Loggable(start, d, t) && |v| == |t| && d[start][0] == 0 && j <= 2 * |t| + 1
    ensures ValidHead(start, CommitPrefix(start, d, t, v, j))
  {
    if j <= |t| {
      BeforeHeader(start, d, t, v, j);
    } else {
      RecoverMidInstall(start, d, t, v, j - |t| - 1);
    }
  }

  /** The disk that a crash now, followed by a complete recovery, would produce. */
  ghost function Durable(s: State): (d: Disk)
    requires Inv(s)
    ensures |d| == |s.disk|
  {
    HeadOk(s);
    Recover(s.start, s.disk)
  }

  // ---- Every step keeps the invariant ----

  lemma BeginKeeps(s: State)
    requires Inv(s) && Next(s, Begin).Go?
    ensures Inv(Next(s, Begin).s)
  {
    UnusedConcat(s.ops, [{}]);
    UnusedRange(s.ops);
  }

  lemma WriteKeeps(s: State, op: nat, b: nat, data: Block)
    requires Inv(s) && Legal(s, Write(op, b, data)) && Next(s, Write(op, b, data)).Go?
    ensures Inv(Next(s, Write(op, b, data)).s)
  {
    hide Loggable, Distinct, Unused, CommitPrefix, RecoverPrefix;
    WriteSpace(s.block, s.ops, op, b);
    WriteNames(s.start, s.disk, s.block, b);
    WriteOps(s.block, s.ops, op, b);
  }

  /** The log with b in it. */
  function Added(block: seq<nat>, b: nat): seq<nat> {
    if b in block then block else block + [b]
  }

  lemma WriteSpace(block: seq<nat>, ops: seq<set<nat>>, op: nat, b: nat)
    requires op < |ops| && (forall x | x in ops[op] :: x in block) && |block| + Unused(ops) <= LOGBLOCKS
    ensures |Added(block, b)| + Unused(ops[op := ops[op] + {b}]) <= LOGBLOCKS
  {
    hide Unused;
    UnusedUpdate(ops, op, ops[op] + {b});
    Smaller(ops[op], ops[op] + {b});
  }

  lemma WriteNames(start: nat, d: Disk, block: seq<nat>, b: nat)
    requires Loggable(start, d, block) && Distinct(block) && |block| < LOGBLOCKS && b < |d| && !InLog(start, b)
    ensures Loggable(start, d, Added(block, b)) && Distinct(Added(block, b))
  {}

  lemma WriteOps(block: seq<nat>, ops: seq<set<nat>>, op: nat, b: nat)
    requires op < |ops| && |ops[op] + {b}| <= MAXOPBLOCKS
    requires forall i | 0 <= i < |ops| :: |ops[i]| <= MAXOPBLOCKS && forall x | x in ops[i] :: x in block
    ensures var ops' := ops[op := ops[op] + {b}];
            forall i | 0 <= i < |ops'| :: |ops'[i]| <= MAXOPBLOCKS && forall x | x in ops'[i] :: x in Added(block, b)
  {}

  lemma EndKeeps(s: State, op: nat)
    requires Inv(s) && Legal(s, End(op)) && Next(s, End(op)).Go?
    ensures Inv(Next(s, End(op)).s)
  {
    hide RecoverPrefix, Loggable, Unused, Targets, ValidHead;
    UnusedRemove(s.ops, op);
    UnusedNone();
  }

  lemma UnusedNone()
    ensures Unused([]) == 0
  {}

  lemma CommitWriteKeeps(s: State)
    requires Inv(s) && s.phase.Committing?
    ensures Inv(StepDisk(s))
  {
    if s.phase.done == 2 * |s.block| + 1 {
      CommitLast(s.start, s.phase.from, s.block, Values(s.block, s.cache));
    }
  }

  lemma RecoverWriteIs(start: nat, from: Disk, done: nat)
    requires ValidHead(start, from) && done <= |Targets(start, from)|
    ensures var d, t := RecoverPrefix(start, from, done), Targets(start, from);
            RecoverPrefix(start, from, done + 1) ==
            if done == |t| then ClearHead(start, d) else d[t[done] := d[start + 1 + done]]
  {}

  lemma RecoverWriteKeeps(s: State)
    requires Inv(s) && s.phase.Recovering?
    ensures Inv(StepDisk(s))
    ensures StepDisk(s).disk == RecoverPrefix(s.start, s.phase.from, s.phase.done + 1)
  {
    hide RecoverPrefix;
    RecoverWriteIs(s.start, s.phase.from, s.phase.done);
  }

  lemma DiskWriteKeeps(s: State)
    requires Inv(s) && Legal(s, DiskWrite)
    ensures Inv(Next(s, DiskWrite).s)
  {
    if s.phase.Committing? { CommitWriteKeeps(s); } else { RecoverWriteKeeps(s); }
  }

  lemma CrashKeeps(s: State)
    requires Inv(s)
    ensures Inv(Next(s, Crash).s)
  {
    HeadOk(s);
  }

  lemma StepKeeps(s: State, a: Action)
    requires Inv(s) && Legal(s, a) && Next(s, a).Go?
    ensures Inv(Next(s, a).s)
  {
    match a
    case Begin => BeginKeeps(s);
    case Write(op, b, data) => WriteKeeps(s, op, b, data);
    case End(op) => EndKeeps(s, op);
    case DiskWrite => DiskWriteKeeps(s);
    case Crash => CrashKeeps(s);
  }

  // ---- Atomicity ----

  /** A crash or a recovery write never changes what recovery produces. */
  lemma RecoveryStable(s: State, a: Action)
    requires Inv(s) && Legal(s, a) && (a == Crash || (a == DiskWrite && s.phase.Recovering?))
    ensures Inv(Next(s, a).s) && Durable(Next(s, a).s) == Durable(s)
  {
    StepKeeps(s, a);
    HeadOk(s);
    if s.phase.Recovering? {
      RecoverResumes(s.start, s.phase.from, s.phase.done);
      RecoverResumes(s.start, s.phase.from, s.phase.done + 1);
    }
  }

  /** commit() touches no home block outside its transaction. */
  lemma CommitFrame(start: nat, d: Disk, t: seq<nat>, v: seq<Block>, j: nat)
    requires Loggable(start, d, t) && |v| == |t| && j <= 2 * |t| + 1
    ensures forall b | 0 <= b < |d| && !InLog(start, b) && b !in t :: CommitPrefix(start, d, t, v, j)[b] == d[b]
  {
    if j <= |t| {
      BeforeHeader(start, d, t, v, j);
    } else {
      var k := j - |t| - 1;
      HeaderWritten(start, d, t, v);
      AfterHeader(start, d, t, v, k);
      assert forall b | b in t[..k] :: b in t;
    }
  }

  /** While commit() runs, the view is the disk it started from with the transaction applied. */
  lemma CommittingView(s: State)
    requires Inv(s) && s.phase.Committing?
    ensures Applied(s.start, s.phase.from, s.block, Values(s.block, s.cache), View(s))
  {
    CommitFrame(s.start, s.phase.from, s.block, Values(s.block, s.cache), s.phase.done);
  }

  lemma CommittingDurable(s: State)
    requires Inv(s) && s.phase.Committing?
    ensures if s.phase.done <= |s.block| then SameHome(s.start, Durable(s), s.phase.from)
            else Applied(s.start, s.phase.from, s.block, Values(s.block, s.cache), Durable(s))
  {
    CommitAtomic(s.start, s.phase.from, s.block, Values(s.block, s.cache), s.phase.done, []);
  }

  lemma AppliedUnique(start: nat, d: Disk, t: seq<nat>, v: seq<Block>, a: Disk, b: Disk)
    requires Loggable(start, d, t) && |v| == |t|
    requires Applied(start, d, t, v, a) && Applied(start, d, t, v, b)
    ensures SameHome(start, a, b)
  {
    forall i | 0 <= i < |a| && !InLog(start, i)
      ensures a[i] == b[i]
    {
      if i in t {
        var k :| 0 <= k < |t| && t[k] == i;
        assert a[t[k]] == v[k] == b[t[k]];
      }
    }
  }

  lemma RunningDurable(s: State)
    requires Inv(s) && s.phase.Running?
    ensures SameHome(s.start, Durable(s), s.disk)
  {
    assert Targets(s.start, s.disk) == [];
  }

  /** The block write that commits: the header write of commit(). */
  predicate Commits(s: State, a: Action) {
    a == DiskWrite && s.phase.Committing? && s.phase.done == |s.block|
  }

  lemma IdleView(s: State)
    requires Inv(s) && s.phase.Running? && s.block == []
    ensures View(s) == s.disk && SameHome(s.start, Durable(s), View(s))
  {
    RunningDurable(s);
  }

  /** The write that clears the header at the end of commit(). */
  lemma CommitEnd(s: State)
    requires Inv(s) && s.phase.Committing? && s.phase.done == 2 * |s.block| + 1
    ensures Initial(StepDisk(s))
    ensures Applied(s.start, s.phase.from, s.block, Values(s.block, s.cache), StepDisk(s).disk)
  {
    CommitWriteKeeps(s);
    CommitLastApplied(s.start, s.phase.from, s.block, Values(s.block, s.cache));
  }

  lemma CommitLastApplied(start: nat, d: Disk, t: seq<nat>, v: seq<Block>)
    requires Loggable(start, d, t) && Distinct(t) && |v| == |t|
    ensures var p := CommitPrefix(start, d, t, v, 2 * |t| + 1);
            Applied(start, d, t, v, CommitWrite(start, p, t, v, 2 * |t| + 1))
  {
    CommitLast(start, d, t, v);
    InstalledApplied(start, d, t, v);
  }

  lemma CommitViewStep(s: State)
    requires Inv(s) && s.phase.Committing?
    ensures SameHome(s.start, View(StepDisk(s)), View(s))
  {
    CommittingView(s);
    if s.phase.done == 2 * |s.block| + 1 {
      CommitEnd(s);
      IdleView(StepDisk(s));
    } else {
      CommitWriteKeeps(s);
      CommittingView(StepDisk(s));
    }
    AppliedUnique(s.start, s.phase.from, s.block, Values(s.block, s.cache), View(StepDisk(s)), View(s));
  }

  lemma CommitDurableStep(s: State)
    requires Inv(s) && s.phase.Committing?
    ensures Inv(StepDisk(s))
    ensures SameHome(s.start, Durable(StepDisk(s)), if Commits(s, DiskWrite) then View(s) else Durable(s))
  {
    CommitWriteKeeps(s);
    CommittingDurable(s);
    var s' := StepDisk(s);
    if s.phase.done == 2 * |s.block| + 1 {
      CommitEnd(s);
      IdleView(StepDisk(s));
      AppliedUnique(s.start, s.phase.from, s.block, Values(s.block, s.cache), View(s'), Durable(s));
    } else {
      CommittingDurable(s');
      if s.phase.done == |s.block| {
        CommittingView(s);
        AppliedUnique(s.start, s.phase.from, s.block, Values(s.block, s.cache), Durable(s'), View(s));
      } else if s.phase.done > |s.block| {
        AppliedUnique(s.start, s.phase.from, s.block, Values(s.block, s.cache), Durable(s'), Durable(s));
      }
    }
  }

  /**
    Every step of the system leaves the recoverable disk unchanged, except the header write of
    commit(), which moves it in one step to the view that all finished operations produced; and
    at that point no operation is in progress.
  */
  lemma StepAtomic(s: State, a: Action)
    requires Inv(s) && Legal(s, a) && Next(s, a).Go?
    ensures var s' := Next(s, a).s;
            && Inv(s')
            && SameHome(s.start, Durable(s'), if Commits(s, a) then View(s) else Durable(s))
            && (Commits(s, a) ==> s.ops == [])
  {
    StepKeeps(s, a);
    match a
    case DiskWrite =>
      if s.phase.Committing? { CommitDurableStep(s); } else { RecoveryStable(s, a); }
    case Crash => RecoveryStable(s, a);
    case Begin =>
    case Write(_, _, _) =>
    case End(_) =>
  }

  /**
    What operations read changes only through their own writes: every other step keeps the view,
    and the step that finishes recovery makes it the recovered disk.
  */
  lemma StepView(s: State, a: Action)
    requires Inv(s) && Legal(s, a) && Next(s, a).Go? && a != Crash
    ensures var s' := Next(s, a).s;
            match s.phase
            case Recovering(_, _) => a == DiskWrite && s'.phase.Running? ==> View(s') == Durable(s)
            case _ => SameHome(s.start, View(s'), if a.Write? then View(s)[a.b := a.data] else View(s))
  {
    if s.phase.Recovering? {
      if a == DiskWrite && s.phase.done == |Targets(s.start, s.phase.from)| {
        RecoveryStable(s, a);
        RecoverResumes(s.start, s.phase.from, s.phase.done);
        assert View(Next(s, a).s) == Next(s, a).s.disk;
      }
    } else if a == DiskWrite {
      CommitViewStep(s);
    }
  }

  // ---- Whole runs ----

  ghost predicate Initial(s: State) {
    Inv(s) && s.phase.Running? && s.block == [] && s.ops == []
  }

  ghost predicate IsStep(s: State, a: Action, s': State) {
    Inv(s) && Legal(s, a) && Next(s, a) == Go(s')
  }

  /** A finite run; every prefix of a run is a run. */
  ghost predicate IsRun(run: seq<State>, acts: seq<Action>) {
    && |run| == |acts| + 1
    && if acts == [] then Initial(run[0])
       else IsRun(run[..|acts|], acts[..|acts| - 1]) && IsStep(run[|acts| - 1], acts[|acts| - 1], run[|acts|])
  }

  lemma QuietStep(s: State, a: Action, s': State, q: Disk)
    requires IsStep(s, a, s') && SameHome(s.start, Durable(s), q)
    ensures Inv(s') && s'.start == s.start && (Commits(s, a) ==> s.ops == [])
    ensures SameHome(s.start, Durable(s'), if Commits(s, a) then View(s) else q)
  {
    StepAtomic(s, a);
  }

  /** Block write k of the run is the header write of a commit, and no later one is. */
  ghost predicate LastCommit(run: seq<State>, acts: seq<Action>, k: nat) {
    && |run| == |acts| + 1 && k <= |acts|
    && (k == 0 || (k < |acts| && Commits(run[k], acts[k])))
    && forall j | k < j < |acts| :: !Commits(run[j], acts[j])
  }

  /**
    In every run, with crashes anywhere, what recovery would produce is what operations read at the
    last header write (or at the start): a moment outside recovery at which no operation was in
    progress. So an operation is durable entirely or not at all, and every committed one is durable.
  */
  lemma {:induction false} RunAtomic(run: seq<State>, acts: seq<Action>) returns (k: nat)
    requires IsRun(run, acts)
    ensures LastCommit(run, acts, k)
    ensures run[k].ops == [] && !run[k].phase.Recovering?
    ensures var s := run[|acts|]; Inv(s) && SameHome(s.start, Durable(s), View(run[k]))
  {
    hide Inv, Legal, Next, View, Durable, SameHome;
    var n := |acts|;
    k := 0;
    if n == 0 {
      IdleView(run[0]);
    } else {
      var s, a := run[n - 1], acts[n - 1];
      k := RunAtomic(run[..n], acts[..n - 1]);
      assert run[..n][k] == run[k];
      QuietStep(s, a, run[n], View(run[k]));
      if Commits(s, a) {
        k := n - 1;
      } else {
        forall j | k < j < n ensures !Commits(run[j], acts[j]) {
          if j < n - 1 { assert !Commits(run[..n][j], acts[..n - 1][j]); }
        }
      }
    }
  }

  // ---- Refinement of an atomic disk ----

  /** The specification: what operations see, and what survives a crash. */
  datatype Atomic = Atomic(now: Disk, safe: Disk)

  /** A write changes what is seen; a commit saves it; a crash goes back to what was saved. */
  ghost function AtomicStep(m: Atomic, s: State, a: Action): Atomic {
    if a.Write? && a.b < |m.now| then m.(now := m.now[a.b := a.data])
    else if Commits(s, a) then m.(safe := m.now)
    else if a == Crash then m.(now := m.safe)
    else m
  }

  ghost function Replay(run: seq<State>, acts: seq<Action>): Atomic
    requires |run| == |acts| + 1
    decreases |acts|
  {
    var n := |acts|;
    if n == 0 then Atomic(run[0].disk, run[0].disk)
    else AtomicStep(Replay(run[..n], acts[..n - 1]), run[n - 1], acts[n - 1])
  }

  /** Reading and recovering agree with the specification; during recovery nothing is read. */
  ghost predicate Refines(s: State, m: Atomic) {
    && Inv(s) && SameHome(s.start, Durable(s), m.safe)
    && if s.phase.Recovering? then m.now == m.safe else SameHome(s.start, View(s), m.now)
  }

  lemma RefinesStep(s: State, a: Action, s': State, m: Atomic)
    requires IsStep(s, a, s') && Refines(s, m)
    ensures Refines(s', AtomicStep(m, s, a))
  {
    hide Inv, Durable, View;
    StepAtomic(s, a);
    NextStart(s, a);
    if a != Crash { StepView(s, a); }
  }

  lemma NextStart(s: State, a: Action)
    requires Inv(s) && Legal(s, a) && Next(s, a).Go?
    ensures var s' := Next(s, a).s;
            && s'.start == s.start && |s'.disk| == |s.disk| && (a.Write? ==> !s.phase.Recovering? && a.b < |s.disk|)
            && (s'.phase.Recovering? <==> a == Crash || (s.phase.Recovering? && !(a == DiskWrite && s'.phase.Running?)))
  {}

  /** In every run the log behaves as a disk on which commits are atomic and a crash undoes what was not committed. */
  lemma {:induction false} RunRefines(run: seq<State>, acts: seq<Action>)
    requires IsRun(run, acts)
    ensures Refines(run[|acts|], Replay(run, acts))
  {
    hide Inv, Legal, Next, View, Durable;
    var n := |acts|;
    if n == 0 {
      IdleView(run[0]);
    } else {
      RunRefines(run[..n], acts[..n - 1]);
      RefinesStep(run[n - 1], acts[n - 1], run[n], Replay(run[..n], acts[..n - 1]));
    }
  }

  // ---- Space ----

  /** A log_write by an operation with allowance left never meets either panic. */
  lemma ReservationSuffices(s: State, op: nat, b: nat, data: Block)
    requires Inv(s) && Legal(s, Write(op, b, data)) && op < |s.ops| && |s.ops[op]| < MAXOPBLOCKS
    ensures s.phase.Running? && Next(s, Write(op, b, data)).Go?
  {
    UnusedRange(s.ops);
  }

  /** log_write checks for a full log before it looks for an absorbed block. */
  lemma WritePanicsIff(s: State, op: nat, b: nat, data: Block)
    requires Inv(s) && Legal(s, Write(op, b, data))
    ensures Next(s, Write(op, b, data)).Panic? <==> |s.block| == LOGBLOCKS || s.ops == []
    ensures |s.block| == LOGBLOCKS ==> forall i | 0 <= i < |s.ops| :: |s.ops[i]| == MAXOPBLOCKS
  {
    UnusedRange(s.ops);
  }

  /** Three operations that have each logged ten blocks, filling the log. */
  ghost function FullLog(d: Disk, data: Block, t: seq<nat>, u: set<nat>, v: set<nat>, w: set<nat>): State {
    State(2, d, Running, t, map b: nat | b in t :: data, [u, v, w])
  }

  /**
    Staying within MAXOPBLOCKS distinct blocks is therefore not enough: three operations that each
    logged ten fill the log, and logging one of those blocks again panics.
  */
  lemma FullLogPanics(d: Disk, data: Block, t: seq<nat>, u: set<nat>, v: set<nat>, w: set<nat>, b: nat)
    requires FillsLog(d, t, u, v, w) && b in u
    ensures var s := FullLog(d, data, t, u, v, w);
            Inv(s) && Legal(s, Write(0, b, data)) && b in s.block && Next(s, Write(0, b, data)).Panic?
  {
    UnusedThree(u, v, w);
    assert u + {b} == u;
    assert b in u + v + w;
  }

  ghost predicate FillsLog(d: Disk, t: seq<nat>, u: set<nat>, v: set<nat>, w: set<nat>) {
    && Loggable(2, d, t) && Distinct(t) && |t| == LOGBLOCKS && d[2][0] == 0
    && |u| == |v| == |w| == MAXOPBLOCKS
    && forall x | x in u + v + w :: x in t
  }

  /** What three operations have each logged after the first n of the thirty blocks from lo on. */
  function Part(n: nat, i: nat): (m: nat)
    ensures m <= MAXOPBLOCKS
  {
    if n <= MAXOPBLOCKS * i then 0 else if n >= MAXOPBLOCKS * (i + 1) then MAXOPBLOCKS else n - MAXOPBLOCKS * i
  }

  function FillingOps(lo: nat, n: nat): seq<set<nat>> {
    seq(3, i requires 0 <= i < 3 => Range(lo + MAXOPBLOCKS * i, Part(n, i)))
  }

  ghost function Filling(d: Disk, data: Block, lo: nat, n: nat): State {
    var t := From(lo, n);
    State(2, d, Running, t, map b: nat | b in t :: data, FillingOps(lo, n))
  }

  /** The n-th write, by operation op. */
  lemma FillStep(d: Disk, data: Block, lo: nat, n: nat, op: nat)
    requires lo == 3 + LOGBLOCKS && |d| >= lo + LOGBLOCKS && Inv(Filling(d, data, lo, n))
    requires MAXOPBLOCKS * op <= n < MAXOPBLOCKS * (op + 1) <= LOGBLOCKS
    ensures IsStep(Filling(d, data, lo, n), Write(op, lo + n, data), Filling(d, data, lo, n + 1))
  {
    hide Inv, Range, Part, FillingOps;
    var s, s' := Filling(d, data, lo, n), Filling(d, data, lo, n + 1);
    FillOps(lo, n, op);
    assert From(lo, n + 1) == From(lo, n) + [lo + n];
    assert s.cache[lo + n := data] == s'.cache;
  }

  lemma FillOps(lo: nat, n: nat, op: nat)
    requires MAXOPBLOCKS * op <= n < MAXOPBLOCKS * (op + 1) <= LOGBLOCKS
    ensures var ops := FillingOps(lo, n);
            && |ops| == 3 && |ops[op] + {lo + n}| <= MAXOPBLOCKS
            && FillingOps(lo, n + 1) == ops[op := ops[op] + {lo + n}]
  {
    hide Range, Part;
    NextRange(lo + MAXOPBLOCKS * op, n - MAXOPBLOCKS * op);
    Parts(n, op);
    assert lo + MAXOPBLOCKS * op + (n - MAXOPBLOCKS * op) == lo + n;
  }

  lemma Parts(n: nat, op: nat)
    requires MAXOPBLOCKS * op <= n < MAXOPBLOCKS * (op + 1)
    ensures Part(n, op) == n - MAXOPBLOCKS * op && Part(n + 1, op) == n + 1 - MAXOPBLOCKS * op
    ensures forall i: nat | i != op :: Part(n + 1, i) == Part(n, i)
  {}

  lemma NextRange(lo: nat, n: nat)
    ensures Range(lo, n + 1) == Range(lo, n) + {lo + n}
  {}

  lemma Extend(run: seq<State>, acts: seq<Action>, a: Action, s': State)
    requires IsRun(run, acts) && IsStep(run[|acts|], a, s')
    ensures IsRun(run + [s'], acts + [a])
  {
    hide IsStep, Initial;
    var run', acts' := run + [s'], acts + [a];
    assert run'[..|acts'|] == run && acts'[..|acts|] == acts;
    assert run'[|acts|] == run[|acts|] && run'[|acts'|] == s';
  }

  lemma Opened(d: Disk, data: Block, lo: nat) returns (run: seq<State>, acts: seq<Action>)
    requires 3 + LOGBLOCKS <= |d| && d[2][0] == 0
    ensures |run| == |acts| + 1 && IsRun(run, acts) && run[|acts|] == Filling(d, data, lo, 0) && Inv(run[|acts|])
  {
    hide IsRun;
    var s := State(2, d, Running, [], map[], []);
    assert Initial(s);
    run, acts := [s], [];
    assert IsRun(run, acts) by { RunStarts(s); }
    for i := 0 to 3
      invariant |run| == |acts| + 1 && IsRun(run, acts) && Inv(run[|acts|])
      invariant run[|acts|] == s.(ops := seq(i, _ => {}))
    {
      var s1 := run[|acts|];
      var s2 := s1.(ops := s1.ops + [{}]);
      assert Next(s1, Begin) == Go(s2);
      BeginKeeps(s1);
      Extend(run, acts, Begin, s2);
      run, acts := run + [s2], acts + [Begin];
    }
    assert Range(lo, 0) == {};
  }

  lemma RunStarts(s: State)
    requires Initial(s)
    ensures IsRun([s], [])
  {}

  lemma {:induction false} FillingRun(d: Disk, data: Block, lo: nat, n: nat) returns (run: seq<State>,
                                      acts: seq<Action>)
    requires lo == 3 + LOGBLOCKS && |d| >= lo + LOGBLOCKS && d[2][0] == 0 && n <= LOGBLOCKS
    ensures |run| == |acts| + 1 && IsRun(run, acts) && run[|acts|] == Filling(d, data, lo, n) && Inv(run[|acts|])
  {
    hide IsRun, Next, Legal, Filling, Inv;
    if n == 0 {
      run, acts := Opened(d, data, lo);
    } else {
      run, acts := FillingRun(d, data, lo, n - 1);
      var op := (n - 1) / MAXOPBLOCKS;
      FillStep(d, data, lo, n - 1, op);
      var a, s' := Write(op, lo + (n - 1), data), Filling(d, data, lo, n);
      StepKeeps(run[|acts|], a);
      Extend(run, acts, a, s');
      run, acts := run + [s'], acts + [a];
    }
  }

  /** Such a state is reached by a run on every disk large enough: thirty consecutive blocks after the log. */
  lemma FullLogExample(d: Disk, data: Block, lo: nat) returns (run: seq<State>, acts: seq<Action>, t: seq<nat>,
                       u: set<nat>, v: set<nat>, w: set<nat>)
    requires lo == 3 + LOGBLOCKS && |d| >= lo + LOGBLOCKS && d[2][0] == 0
    ensures FillsLog(d, t, u, v, w) && lo in u
    ensures IsRun(run, acts) && run[|acts|] == FullLog(d, data, t, u, v, w)
  {
    hide IsRun, Inv, Range, From, FillingOps, Part;
    var m, n := LOGBLOCKS, MAXOPBLOCKS;
    run, acts := FillingRun(d, data, lo, m);
    WholeParts(lo, m, n);
    t, u, v, w := From(lo, m), Range(lo, n), Range(lo + n, n), Range(lo + 2 * n, n);
    assert forall i | 0 <= i < |t| :: t[i] in t;
    assert Loggable(2, d, t);
  }

  lemma WholeParts(lo: nat, m: nat, n: nat)
    requires m == LOGBLOCKS && n == MAXOPBLOCKS
    ensures FillingOps(lo, m) == [Range(lo, n), Range(lo + n, n), Range(lo + 2 * n, n)]
  {
    hide Range;
  }

  function From(lo: nat, n: nat): (t: seq<nat>)
    ensures |t| == n && Distinct(t)
    ensures forall b :: b in t <==> lo <= b < lo + n
  {
    if n == 0 then []
    else
      var t := From(lo, n - 1);
      assert forall i | 0 <= i < n - 1 :: t[i] in t;
      t + [lo + n - 1]
  }

  lemma UnusedThree(a: set<nat>, b: set<nat>, c: set<nat>)
    ensures Unused([a, b, c]) == 3 * MAXOPBLOCKS - |a| - |b| - |c|
  {
    UnusedConcat([a], [b, c]);
    UnusedConcat([b], [c]);
    assert [a] + [b, c] == [a, b, c] && [b] + [c] == [b, c];
    assert [a][1..] == [] && [b][1..] == [] && [c][1..] == [];
  }
}
