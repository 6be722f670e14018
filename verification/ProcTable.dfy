/**
  Scheduling, fork, exit and wait of kernel/proc.c as a step system over the process table, the CPUs
  and wait_lock. Processes run their kernel code in any interleaving; a step is one lock operation, one
  context switch, or the code between two of them. Process 0 is initproc.
*/
module ProcTable {
  datatype St = UNUSED | USED | SLEEPING | RUNNABLE | RUNNING | ZOMBIE

  /** The holder of a p->lock: nobody, the process itself, the scheduler of a CPU, or another process. */
  datatype Holder = Free | Self | Sched(c: nat) | Other(q: nat)

  /** Where a process is in kfork(), kexit() or kwait(). */
  datatype Pc =
    | Body                     // outside all three
    | ForkHave(q: nat)         // holds the lock of the new process q
    | ForkLink(q: nat)         // about to set q's parent
    | ForkReady(q: nat)        // about to make q runnable
    | ExitScan(k: nat)         // holds wait_lock, reparent() has reached k
    | ExitInit(k: nat, j: nat) // reparent() gave k to initproc, and wakeup(initproc) has reached j
    | ExitTell(j: nat)         // wakeup() of the parent has reached j
    | WaitScan(k: nat, kids: bool) // holds wait_lock, the scan has reached k
    | WaitHave(k: nat)         // holds wait_lock and the lock of child k
    | WaitGo                   // in sleep(): holds wait_lock and its own lock
    | WaitGone                 // has released wait_lock, about to set chan and SLEEPING

  /** Whether a process is off its kernel stack, on it, or on it with p->lock held around a switch. */
  datatype Stack = Off | Entering | Live | Leaving

  /** chan is a process for kwait(), some other address for other sleeps, -1 for none. */
  datatype Proc = Proc(st: St, parent: int, pid: nat, lock: Holder, on: int, stack: Stack, pc: Pc, maker: int,
                       chan: int)

  /** A CPU: in its scheduler, holding a lock it just took, on a process's stack, or back from one. */
  datatype Cpu = Idle | Looking(p: nat) | In(p: nat) | Back(p: nat)

  datatype State = State(procs: seq<Proc>, cpus: seq<Cpu>, waitLock: int, nextpid: nat,
                         pidOf: map<nat, nat>, exited: set<nat>, reaped: seq<nat>) // the last three are history

  // ---- Invariant ----

  predicate Alive(st: St) {
    (st == SLEEPING || st == RUNNABLE || st == RUNNING)
  }

  predicate HoldsWait(p: Proc) {
    p.stack == Live && (Exiting(p.pc) || p.pc.WaitScan? || p.pc.WaitHave? || p.pc.WaitGo?)
  }

  predicate Exiting(pc: Pc) {
    pc.ExitScan? || pc.ExitInit? || pc.ExitTell?
  }

  /** Asleep in kwait(), or in its sleep() with the scan behind it. */
  predicate InWait(s: State, i: nat)
    requires i < |s.procs|
  {
    var p := s.procs[i];
    p.pc.WaitGo? || p.pc.WaitGone? || (p.st == SLEEPING && p.chan == i)
  }

  /** What concerns one process alone: its state, stack, own lock and CPU agree, and with where it is. */
  predicate SelfOk(s: State, i: nat)
    requires i < |s.procs|
  {
    var p := s.procs[i];
    && (p.stack == Off <==> p.on == -1)
    && (p.on != -1 ==> 0 <= p.on < |s.cpus| && s.cpus[p.on] == In(i))
    && (p.lock == Self <==> (p.stack == Entering || p.stack == Leaving || p.pc.WaitGo? || p.pc.WaitGone?))
    && ((p.stack == Live || p.stack == Entering) <==> p.st == RUNNING)
    && (p.stack == Leaving ==> (p.st == RUNNABLE || p.st == SLEEPING || p.st == ZOMBIE))
    && (p.lock.Sched? ==>
          p.lock.c < |s.cpus| && (s.cpus[p.lock.c] == Looking(i) || (s.cpus[p.lock.c] == Back(i) && p.stack == Off)))
    && (HoldsWait(p) <==> s.waitLock == i)
    && (p.pc != Body ==> p.stack == Live || (Alive(p.st) && (p.pc.ForkLink? || p.pc.ForkReady?)))
    && (p.st == UNUSED ==> p.parent == -1 && p.pid == 0)
    && (i == 0 ==> Alive(p.st) && p.parent == -1)
  }

  /** A lock held by another process is held by one at work on this one. */
  predicate LockEdge(s: State, i: nat)
    requires i < |s.procs|
  {
    var l := s.procs[i].lock;
    l.Other? ==>
      && l.q < |s.procs| && s.procs[l.q].stack == Live
      && (s.procs[l.q].pc == ForkHave(i) || s.procs[l.q].pc == WaitHave(i))
  }

  /** The process a fork or a wait works on is in the state that work needs, and nobody else's. */
  predicate WorkEdge(s: State, i: nat)
    requires i < |s.procs|
  {
    match s.procs[i].pc
    case ForkHave(q) =>
      && q < |s.procs| && s.procs[q].st == USED && s.procs[q].maker == i && s.procs[q].lock == Other(i)
      && s.procs[q].parent == -1
    case ForkLink(q) => q < |s.procs| && s.procs[q].st == USED && s.procs[q].maker == i && s.procs[q].parent == -1
    case ForkReady(q) => q < |s.procs| && s.procs[q].st == USED && s.procs[q].maker == i && s.procs[q].parent == i
    case WaitHave(k) => k < |s.procs| && s.procs[k].lock == Other(i) && s.procs[k].parent == i
    case _ => true
  }

  /** What reparent() has passed is no longer a child of the exiting process, which is not initproc. */
  predicate ScanEdge(s: State, i: nat)
    requires i < |s.procs|
  {
    Exiting(s.procs[i].pc) ==>
      i != 0 && GivenTo(s, i) <= |s.procs| && forall j | 0 <= j < GivenTo(s, i) :: s.procs[j].parent != i
  }

  /** How far reparent() has come. */
  function GivenTo(s: State, i: nat): nat
    requires i < |s.procs| && Exiting(s.procs[i].pc)
  {
    match s.procs[i].pc
    case ExitScan(k) => k
    case ExitInit(k, _) => k + 1
    case ExitTell(_) => |s.procs|
  }

  /** The scan of kwait() has passed no zombie, and the wakeup() of kexit() has left no parent behind in kwait(). */
  predicate WaitEdge(s: State, i: nat)
    requires i < |s.procs|
  {
    && (ScannedTo(s, i) <= |s.procs| && forall j | 0 <= j < ScannedTo(s, i) ::
          s.procs[j].parent == i ==> s.procs[j].st != ZOMBIE)
    && (s.procs[i].pc.ExitTell? ==>
          var q := s.procs[i].parent; 0 <= q < |s.procs| && q < s.procs[i].pc.j ==> !InWait(s, q))
  }

  function ScannedTo(s: State, i: nat): nat
    requires i < |s.procs|
  {
    match s.procs[i].pc
    case WaitScan(k, _) => k
    case WaitHave(k) => k
    case WaitGo => |s.procs|
    case _ => 0
  }

  /**
    A zombie child of a process in kwait()'s sleep is initproc's, and the wakeup(initproc) of reparent()
    is still to come.
  */
  predicate Heard(s: State, i: nat, z: nat)
    requires i < |s.procs| && z < |s.procs|
  {
    InWait(s, i) && s.procs[z].parent == i && s.procs[z].st == ZOMBIE ==>
      i == 0 && 0 <= s.waitLock < |s.procs| && s.procs[s.waitLock].pc.ExitInit? && s.procs[s.waitLock].pc.j == 0
  }

  /** Nobody's parent is dead. */
  predicate ParentEdge(s: State, i: nat)
    requires i < |s.procs|
  {
    var p := s.procs[i].parent;
    p == -1 || (0 <= p < |s.procs| && p != i && Alive(s.procs[p].st))
  }

  /** A live pid names one process and has not been reaped. */
  predicate PidOk(s: State, i: nat)
    requires i < |s.procs|
  {
    var p := s.procs[i];
    && (p.st != UNUSED ==> p.pid < s.nextpid && p.pid in s.pidOf && s.pidOf[p.pid] == i && p.pid !in s.reaped)
    && (p.st == ZOMBIE ==> p.pid in s.exited)
    && (Alive(p.st) ==> p.pid !in s.exited)
    && (p.st == USED ==> p.pid !in s.exited)
  }

  predicate CpuOk(s: State, c: nat)
    requires c < |s.cpus|
  {
    match s.cpus[c]
    case Idle => true
    case Looking(p) => p < |s.procs| && s.procs[p].lock == Sched(c)
    case In(p) => p < |s.procs| && s.procs[p].on == c
    case Back(p) => p < |s.procs| && s.procs[p].lock == Sched(c) && s.procs[p].stack == Off
  }

  ghost predicate HistoryOk(s: State) {
    && (forall i, j | 0 <= i < j < |s.reaped| :: s.reaped[i] != s.reaped[j])
    && (forall r | r in s.reaped :: r < s.nextpid && r in s.exited)
    && (forall x | x in s.exited :: x < s.nextpid)
  }

  ghost predicate ProcOk(s: State, i: nat)
    requires i < |s.procs|
  {
    && SelfOk(s, i) && LockEdge(s, i) && WorkEdge(s, i) && ScanEdge(s, i) && WaitEdge(s, i) && ParentEdge(s, i)
    && PidOk(s, i)
  }

  ghost predicate Inv(s: State) {
    && -1 <= s.waitLock < |s.procs| && 0 < |s.procs| && 0 < |s.cpus| && HistoryOk(s)
    && (forall i: nat {:trigger ProcOk(s, i)} | i < |s.procs| :: ProcOk(s, i))
    && (forall c: nat {:trigger CpuOk(s, c)} | c < |s.cpus| :: CpuOk(s, c))
    && (forall i: nat, z: nat {:trigger Heard(s, i, z)} | i < |s.procs| && z < |s.procs| :: Heard(s, i, z))
  }

  // ---- Steps ----

  datatype Action =
    // scheduler() on CPU c
    | Look(c: nat, p: nat) | SwitchIn(c: nat) | Pass(c: nat) | BackRelease(c: nat)
    // around switches, by the process
    | Enter(p: nat) | SwitchOut(p: nat) | Yield(p: nat) | SleepOn(p: nat, chan: nat)
    // kkill(), or any wakeup() outside kexit(), on process p
    | Wake(p: nat)
    // kfork()
    | ForkAlloc(p: nat, q: nat) | ForkFail(p: nat) | ForkCopied(p: nat) | ForkParent(p: nat) | ForkRun(p: nat)
    // kexit()
    | ExitBegin(p: nat) | ExitOne(p: nat) | ExitDie(p: nat)
    // its wakeup() calls
    | InitOne(p: nat) | InitDone(p: nat) | TellBegin(p: nat) | TellOne(p: nat)
    // kwait()
    | WaitBegin(p: nat) | WaitSkip(p: nat) | WaitLockChild(p: nat) | Reap(p: nat) | CopyFail(p: nat) | WaitNext(p: nat)
    | WaitNone(p: nat)
    // its sleep()
    | WaitLock(p: nat) | WaitRelease(p: nat) | WaitSleep(p: nat)

  predicate CanSched(s: State, a: Action)
    requires a.Look? || a.SwitchIn? || a.Pass? || a.BackRelease?
  {
    && a.c < |s.cpus|
    && match a
       case Look(c, p) => s.cpus[c] == Idle && p < |s.procs| && s.procs[p].lock == Free
       case SwitchIn(c) => s.cpus[c].Looking? && s.cpus[c].p < |s.procs| && s.procs[s.cpus[c].p].st == RUNNABLE
       case Pass(c) => s.cpus[c].Looking? && s.cpus[c].p < |s.procs| && s.procs[s.cpus[c].p].st != RUNNABLE
       case BackRelease(c) => s.cpus[c].Back? && s.cpus[c].p < |s.procs|
  }

  predicate OfSched(a: Action) {
    a.Look? || a.SwitchIn? || a.Pass? || a.BackRelease?
  }

  predicate IsSwitch(a: Action) {
    a.Enter? || a.SwitchOut? || a.Yield? || a.SleepOn? || a.Wake?
  }

  predicate IsAlloc(a: Action) {
    a.ForkAlloc?
  }

  predicate IsFork(a: Action) {
    a.ForkFail? || a.ForkCopied?
  }

  predicate IsLink(a: Action) {
    a.ForkParent? || a.ForkRun?
  }

  predicate IsExit(a: Action) {
    a.ExitBegin? || a.ExitOne? || a.ExitDie?
  }

  predicate IsScan(a: Action) {
    a.WaitBegin? || a.WaitSkip? || a.WaitLockChild? || a.WaitNone?
  }

  predicate IsTell(a: Action) {
    a.InitOne? || a.InitDone? || a.TellBegin? || a.TellOne?
  }

  predicate IsSleep(a: Action) {
    a.WaitLock? || a.WaitRelease? || a.WaitSleep?
  }

  predicate IsChild(a: Action) {
    a.Reap? || a.CopyFail? || a.WaitNext?
  }

  predicate CanSwitch(s: State, a: Action)
    requires IsSwitch(a)
  {
    && a.p < |s.procs|
    && var p := s.procs[a.p];
       match a
       case Enter(_) => p.stack == Entering
       case SwitchOut(_) => p.stack == Leaving && 0 <= p.on < |s.cpus|
       case Yield(_) => p.stack == Live && p.lock == Free && (p.pc == Body || p.pc.ForkLink? || p.pc.ForkReady?)
       case SleepOn(_, chan) => p.stack == Live && p.lock == Free && p.pc == Body && chan >= |s.procs|
       case Wake(_) => p.lock == Free && p.st == SLEEPING
  }

  predicate CanAlloc(s: State, a: Action)
    requires IsAlloc(a)
  {
    && a.p < |s.procs|
    && var p := s.procs[a.p];
       match a
       case ForkAlloc(_, q) =>
         p.stack == Live && p.pc == Body && q < |s.procs| && s.procs[q].lock == Free && s.procs[q].st == UNUSED
  }

  predicate CanFork(s: State, a: Action)
    requires IsFork(a)
  {
    && a.p < |s.procs|
    && var p := s.procs[a.p];
       match a
       case ForkFail(_) => p.stack == Live && p.pc.ForkHave? && p.pc.q < |s.procs|
       case ForkCopied(_) => p.stack == Live && p.pc.ForkHave? && p.pc.q < |s.procs|
  }

  predicate CanLink(s: State, a: Action)
    requires IsLink(a)
  {
    && a.p < |s.procs|
    && var p := s.procs[a.p];
       match a
       case ForkParent(_) => p.stack == Live && p.pc.ForkLink? && s.waitLock == -1 && p.pc.q < |s.procs|
       case ForkRun(_) => p.stack == Live && p.pc.ForkReady? && p.pc.q < |s.procs| && s.procs[p.pc.q].lock == Free
  }

  predicate CanExit(s: State, a: Action)
    requires IsExit(a)
  {
    && a.p < |s.procs|
    && var p := s.procs[a.p];
       match a
       case ExitBegin(_) => p.stack == Live && p.pc == Body && a.p != 0 && s.waitLock == -1
       case ExitOne(_) => p.stack == Live && p.pc.ExitScan? && p.pc.k < |s.procs|
       case ExitDie(_) => p.stack == Live && p.pc == ExitTell(|s.procs|) && p.lock == Free
  }

  /** wakeup() skips its own process and needs every other p->lock. */
  predicate CanWake(s: State, p: nat, j: nat) {
    j < |s.procs| && (j == p || s.procs[j].lock == Free)
  }

  predicate CanTell(s: State, a: Action)
    requires IsTell(a)
  {
    && a.p < |s.procs|
    && var p := s.procs[a.p];
       match a
       case InitOne(_) => p.stack == Live && p.pc.ExitInit? && CanWake(s, a.p, p.pc.j)
       case InitDone(_) => p.stack == Live && p.pc.ExitInit? && p.pc.j == |s.procs|
       case TellBegin(_) => p.stack == Live && p.pc == ExitScan(|s.procs|)
       case TellOne(_) => p.stack == Live && p.pc.ExitTell? && CanWake(s, a.p, p.pc.j)
  }

  predicate CanScan(s: State, a: Action)
    requires IsScan(a)
  {
    && a.p < |s.procs|
    && var p := s.procs[a.p];
       match a
       case WaitBegin(_) => p.stack == Live && p.pc == Body && s.waitLock == -1
       case WaitSkip(_) => p.stack == Live && p.pc.WaitScan? && p.pc.k < |s.procs| && s.procs[p.pc.k].parent != a.p
       case WaitLockChild(_) => p.stack == Live && p.pc.WaitScan? && p.pc.k < |s.procs| && s.procs[p.pc.k].parent == a.p
                                && s.procs[p.pc.k].lock == Free
       case WaitNone(_) => p.stack == Live && p.pc.WaitScan? && p.pc.k == |s.procs|
  }

  predicate CanSleep(s: State, a: Action)
    requires IsSleep(a)
  {
    && a.p < |s.procs|
    && var p := s.procs[a.p];
       match a
       case WaitLock(_) => p.stack == Live && p.pc == WaitScan(|s.procs|, true) && p.lock == Free
       case WaitRelease(_) => p.stack == Live && p.pc.WaitGo?
       case WaitSleep(_) => p.stack == Live && p.pc.WaitGone?
  }

  predicate CanChild(s: State, a: Action)
    requires IsChild(a)
  {
    && a.p < |s.procs|
    && var p := s.procs[a.p];
       match a
       case Reap(_) => p.stack == Live && p.pc.WaitHave? && p.pc.k < |s.procs| && s.procs[p.pc.k].st == ZOMBIE
       case CopyFail(_) => p.stack == Live && p.pc.WaitHave? && p.pc.k < |s.procs| && s.procs[p.pc.k].st == ZOMBIE
       case WaitNext(_) => p.stack == Live && p.pc.WaitHave? && p.pc.k < |s.procs| && s.procs[p.pc.k].st != ZOMBIE
  }

  predicate Can(s: State, a: Action) {
    if OfSched(a) then CanSched(s, a)
    else if IsSwitch(a) then CanSwitch(s, a)
    else if IsAlloc(a) then CanAlloc(s, a)
    else if IsFork(a) then CanFork(s, a)
    else if IsLink(a) then CanLink(s, a)
    else if IsExit(a) then CanExit(s, a)
    else if IsTell(a) then CanTell(s, a)
    else if IsScan(a) then CanScan(s, a)
    else if IsSleep(a) then CanSleep(s, a)
    else CanChild(s, a)
  }

  function With(s: State, i: nat, p: Proc): State
    requires i < |s.procs|
  {
    s.(procs := s.procs[i := p])
  }

  /** freeproc() */
  function Freed(p: Proc): Proc {
    p.(st := UNUSED, parent := -1, pid := 0, lock := Free, maker := -1, chan := -1)
  }

  function DoSched(s: State, a: Action): (s': State)
    requires OfSched(a) && CanSched(s, a)
    ensures |s'.procs| == |s.procs| && |s'.cpus| == |s.cpus|
  {
    match a
    case Look(c, p) => With(s, p, s.procs[p].(lock := Sched(c))).(cpus := s.cpus[c := Looking(p)])
    case SwitchIn(c) =>
      var i := s.cpus[c].p;
      With(s, i, s.procs[i].(st := RUNNING, on := c, stack := Entering, lock := Self)).(cpus := s.cpus[c := In(i)])
    case Pass(c) => With(s, s.cpus[c].p, s.procs[s.cpus[c].p].(lock := Free)).(cpus := s.cpus[c := Idle])
    case BackRelease(c) => With(s, s.cpus[c].p, s.procs[s.cpus[c].p].(lock := Free)).(cpus := s.cpus[c := Idle])
  }

  /** sched(), yield() and sleep() on either side of a switch; wakeup() and kkill() on a sleeper. */
  function DoSwitch(s: State, a: Action): (s': State)
    requires IsSwitch(a) && CanSwitch(s, a)
    ensures |s'.procs| == |s.procs| && |s'.cpus| == |s.cpus|
  {
    var i := a.p;
    var p := s.procs[i];
    match a
    case Enter(_) => With(s, i, p.(stack := Live, lock := Free, chan := -1))
    case SwitchOut(_) => With(s, i, p.(stack := Off, on := -1, lock := Sched(p.on))).(cpus := s.cpus[p.on := Back(i)])
    case Yield(_) => With(s, i, p.(st := RUNNABLE, stack := Leaving, lock := Self))
    case SleepOn(_, chan) => With(s, i, p.(st := SLEEPING, stack := Leaving, lock := Self, chan := chan))
    case Wake(_) => With(s, i, p.(st := RUNNABLE))
  }

  /** allocproc() taking an unused slot. */
  function DoAlloc(s: State, a: Action): (s': State)
    requires IsAlloc(a) && CanAlloc(s, a)
    ensures |s'.procs| == |s.procs| && |s'.cpus| == |s.cpus|
  {
    var i := a.p;
    var p := s.procs[i];
    match a
    case ForkAlloc(_, q) =>
      With(With(s, q, s.procs[q].(st := USED, pid := s.nextpid, lock := Other(i), maker := i)),
           i, p.(pc := ForkHave(q)))
        .(nextpid := s.nextpid + 1, pidOf := s.pidOf[s.nextpid := q])
  }

  /** The copying part of kfork(). */
  function DoFork(s: State, a: Action): (s': State)
    requires IsFork(a) && CanFork(s, a)
    ensures |s'.procs| == |s.procs| && |s'.cpus| == |s.cpus|
  {
    var i := a.p;
    var p := s.procs[i];
    match a
    case ForkFail(_) => With(With(s, p.pc.q, Freed(s.procs[p.pc.q])), i, p.(pc := Body))
    case ForkCopied(_) => With(With(s, p.pc.q, s.procs[p.pc.q].(lock := Free)), i, p.(pc := ForkLink(p.pc.q)))
  }

  /** The last two critical sections of kfork(). */
  function DoLink(s: State, a: Action): (s': State)
    requires IsLink(a) && CanLink(s, a)
    ensures |s'.procs| == |s.procs| && |s'.cpus| == |s.cpus|
  {
    var i := a.p;
    var p := s.procs[i];
    match a
    case ForkParent(_) => With(With(s, p.pc.q, s.procs[p.pc.q].(parent := i)), i, p.(pc := ForkReady(p.pc.q)))
    case ForkRun(_) => With(With(s, p.pc.q, s.procs[p.pc.q].(st := RUNNABLE, maker := -1)), i, p.(pc := Body))
  }

  /** kexit(): reparent() under wait_lock, then death. */
  function DoExit(s: State, a: Action): (s': State)
    requires IsExit(a) && CanExit(s, a)
    ensures |s'.procs| == |s.procs| && |s'.cpus| == |s.cpus|
  {
    var i := a.p;
    var p := s.procs[i];
    match a
    case ExitBegin(_) => With(s, i, p.(pc := ExitScan(0))).(waitLock := i)
    case ExitOne(_) =>
      if s.procs[p.pc.k].parent == i then
        With(With(s, p.pc.k, s.procs[p.pc.k].(parent := 0)), i, p.(pc := ExitInit(p.pc.k, 0)))
      else With(s, i, p.(pc := ExitScan(p.pc.k + 1)))
    case ExitDie(_) =>
      With(s, i, p.(st := ZOMBIE, stack := Leaving, lock := Self, pc := Body))
        .(waitLock := -1, exited := s.exited + {p.pid})
  }

  /** What wakeup(chan) does to process j. */
  function Roused(p: Proc, chan: int): Proc {
    if p.st == SLEEPING && p.chan == chan then p.(st := RUNNABLE) else p
  }

  /** The wakeup() calls of kexit(). */
  function DoTell(s: State, a: Action): (s': State)
    requires IsTell(a) && CanTell(s, a)
    ensures |s'.procs| == |s.procs| && |s'.cpus| == |s.cpus|
  {
    var i := a.p;
    var p := s.procs[i];
    match a
    case InitOne(_) => With(With(s, p.pc.j, Roused(s.procs[p.pc.j], 0)), i, p.(pc := ExitInit(p.pc.k, p.pc.j + 1)))
    case InitDone(_) => With(s, i, p.(pc := ExitScan(p.pc.k + 1)))
    case TellBegin(_) => With(s, i, p.(pc := ExitTell(0)))
    case TellOne(_) => With(With(s, p.pc.j, Roused(s.procs[p.pc.j], p.parent)), i, p.(pc := ExitTell(p.pc.j + 1)))
  }

  /** The scan of kwait() and its ends. */
  function DoScan(s: State, a: Action): (s': State)
    requires IsScan(a) && CanScan(s, a)
    ensures |s'.procs| == |s.procs| && |s'.cpus| == |s.cpus|
  {
    var i := a.p;
    var p := s.procs[i];
    match a
    case WaitBegin(_) => With(s, i, p.(pc := WaitScan(0, false))).(waitLock := i)
    case WaitSkip(_) => With(s, i, p.(pc := WaitScan(p.pc.k + 1, p.pc.kids)))
    case WaitLockChild(_) => With(With(s, p.pc.k, s.procs[p.pc.k].(lock := Other(i))), i, p.(pc := WaitHave(p.pc.k)))
    case WaitNone(_) => With(s, i, p.(pc := Body)).(waitLock := -1)
  }

  /** sleep(p, &wait_lock) of kwait(). */
  function DoSleep(s: State, a: Action): (s': State)
    requires IsSleep(a) && CanSleep(s, a)
    ensures |s'.procs| == |s.procs| && |s'.cpus| == |s.cpus|
  {
    var i := a.p;
    var p := s.procs[i];
    match a
    case WaitLock(_) => With(s, i, p.(lock := Self, pc := WaitGo))
    case WaitRelease(_) => With(s, i, p.(pc := WaitGone)).(waitLock := -1)
    case WaitSleep(_) => With(s, i, p.(st := SLEEPING, stack := Leaving, pc := Body, chan := i))
  }

  /** kwait() with a child's lock held. */
  function DoChild(s: State, a: Action): (s': State)
    requires IsChild(a) && CanChild(s, a)
    ensures |s'.procs| == |s.procs| && |s'.cpus| == |s.cpus|
  {
    var i := a.p;
    var p := s.procs[i];
    match a
    case Reap(_) =>
      With(With(s, p.pc.k, Freed(s.procs[p.pc.k])), i, p.(pc := Body))
        .(waitLock := -1, reaped := s.reaped + [s.procs[p.pc.k].pid])
    case CopyFail(_) => With(With(s, p.pc.k, s.procs[p.pc.k].(lock := Free)), i, p.(pc := Body)).(waitLock := -1)
    case WaitNext(_) => With(With(s, p.pc.k, s.procs[p.pc.k].(lock := Free)), i, p.(pc := WaitScan(p.pc.k + 1, true)))
  }

  function Do(s: State, a: Action): (s': State)
    requires Can(s, a)
    ensures |s'.procs| == |s.procs| && |s'.cpus| == |s.cpus|
  {
    if OfSched(a) then DoSched(s, a)
    else if IsSwitch(a) then DoSwitch(s, a)
    else if IsAlloc(a) then DoAlloc(s, a)
    else if IsFork(a) then DoFork(s, a)
    else if IsLink(a) then DoLink(s, a)
    else if IsExit(a) then DoExit(s, a)
    else if IsTell(a) then DoTell(s, a)
    else if IsScan(a) then DoScan(s, a)
    else if IsSleep(a) then DoSleep(s, a)
    else DoChild(s, a)
  }

  // ---- Every step keeps the invariant ----

  lemma ProcAt(s: State, i: nat)
    requires Inv(s) && i < |s.procs|
    ensures ProcOk(s, i)
  {}

  lemma CpuAt(s: State, c: nat)
    requires Inv(s) && c < |s.cpus|
    ensures CpuOk(s, c)
  {}

  lemma HistoryAt(s: State)
    requires Inv(s)
    ensures -1 <= s.waitLock < |s.procs| && 0 < |s.procs| && 0 < |s.cpus| && HistoryOk(s)
  {}

  lemma HeardAt(s: State, i: nat, z: nat)
    requires Inv(s) && i < |s.procs| && z < |s.procs|
    ensures Heard(s, i, z)
  {}

  lemma SwitchSelf(s: State, a: Action, i: nat)
    requires Inv(s) && IsSwitch(a) && CanSwitch(s, a) && i < |s.procs|
    ensures SelfOk(DoSwitch(s, a), i)
  {
    hide Inv, LockEdge, ScanEdge, WaitEdge, PidOk, HistoryOk, Heard;
    ProcAt(s, i);
    ProcAt(s, a.p);
  }

  lemma SwitchLocks(s: State, a: Action, i: nat)
    requires Inv(s) && IsSwitch(a) && CanSwitch(s, a) && i < |s.procs|
    ensures LockEdge(DoSwitch(s, a), i) && ScanEdge(DoSwitch(s, a), i)
  {
    hide Inv, WaitEdge, PidOk, HistoryOk, Heard, SelfOk, WorkEdge, ParentEdge;
    ProcAt(s, i);
    ProcAt(s, a.p);
  }

  lemma SwitchWork(s: State, a: Action, i: nat)
    requires Inv(s) && IsSwitch(a) && CanSwitch(s, a) && i < |s.procs|
    ensures WorkEdge(DoSwitch(s, a), i)
  {
    hide Inv, ScanEdge, WaitEdge, PidOk, HistoryOk, Heard;
    ProcAt(s, i);
    ProcAt(s, a.p);
  }

  lemma SwitchWait(s: State, a: Action, i: nat)
    requires Inv(s) && IsSwitch(a) && CanSwitch(s, a) && i < |s.procs|
    ensures WaitEdge(DoSwitch(s, a), i)
  {
    hide Inv, LockEdge, WorkEdge, ScanEdge, ParentEdge, PidOk, HistoryOk, Heard, SelfOk, CpuOk;
    ProcAt(s, i);
    ProcAt(s, a.p);
    if 0 <= s.procs[i].parent < |s.procs| { ProcAt(s, s.procs[i].parent); }
  }

  lemma SwitchFamily(s: State, a: Action, i: nat)
    requires Inv(s) && IsSwitch(a) && CanSwitch(s, a) && i < |s.procs|
    ensures ParentEdge(DoSwitch(s, a), i) && PidOk(DoSwitch(s, a), i)
  {
    hide Inv, WaitEdge, Heard, HoldsWait;
    ProcAt(s, i);
  }

  lemma SwitchHeard(s: State, a: Action, i: nat, z: nat)
    requires Inv(s) && IsSwitch(a) && CanSwitch(s, a) && i < |s.procs| && z < |s.procs|
    ensures Heard(DoSwitch(s, a), i, z)
  {
    hide Inv, LockEdge, WorkEdge, ScanEdge, WaitEdge, ParentEdge, PidOk, HistoryOk;
    ProcAt(s, i);
    ProcAt(s, z);
    ProcAt(s, a.p);
    HeardAt(s, i, z);
  }

  lemma SwitchCpu(s: State, a: Action, c: nat)
    requires Inv(s) && IsSwitch(a) && CanSwitch(s, a) && c < |s.cpus|
    ensures CpuOk(DoSwitch(s, a), c) && HistoryOk(DoSwitch(s, a)) && -1 <= DoSwitch(s, a).waitLock < |s.procs|
  {
    hide Inv, LockEdge, ScanEdge, WaitEdge, Heard, ParentEdge, PidOk, WorkEdge;
    HistoryAt(s);
    CpuAt(s, c);
    ProcAt(s, a.p);
    if s.cpus[c] != Idle { ProcAt(s, s.cpus[c].p); }
  }

  lemma AllocSelf(s: State, a: Action, i: nat)
    requires Inv(s) && IsAlloc(a) && CanAlloc(s, a) && i < |s.procs|
    ensures SelfOk(DoAlloc(s, a), i)
  {
    hide Inv, LockEdge, ScanEdge, WaitEdge, ParentEdge, PidOk, HistoryOk, Heard, WorkEdge, CpuOk;
    ProcAt(s, i);
  }

  lemma AllocLocks(s: State, a: Action, i: nat)
    requires Inv(s) && IsAlloc(a) && CanAlloc(s, a) && i < |s.procs|
    ensures LockEdge(DoAlloc(s, a), i) && ScanEdge(DoAlloc(s, a), i)
  {
    hide Inv, WaitEdge, ParentEdge, PidOk, HistoryOk, Heard;
    ProcAt(s, i);
    ProcAt(s, a.p);
    ProcAt(s, a.q);
  }

  lemma AllocWork(s: State, a: Action, i: nat)
    requires Inv(s) && IsAlloc(a) && CanAlloc(s, a) && i < |s.procs|
    ensures WorkEdge(DoAlloc(s, a), i)
  {
    hide Inv, LockEdge, ScanEdge, WaitEdge, ParentEdge, PidOk, HistoryOk, Heard;
    ProcAt(s, i);
    ProcAt(s, a.p);
    ProcAt(s, a.q);
  }

  lemma AllocWait(s: State, a: Action, i: nat)
    requires Inv(s) && IsAlloc(a) && CanAlloc(s, a) && i < |s.procs|
    ensures WaitEdge(DoAlloc(s, a), i)
  {
    hide Inv, LockEdge, WorkEdge, ScanEdge, ParentEdge, PidOk, HistoryOk, Heard;
    ProcAt(s, i);
    ProcAt(s, a.p);
    ProcAt(s, a.q);
    if 0 <= s.procs[i].parent < |s.procs| { ProcAt(s, s.procs[i].parent); }
  }

  lemma AllocFamily(s: State, a: Action, i: nat)
    requires Inv(s) && IsAlloc(a) && CanAlloc(s, a) && i < |s.procs|
    ensures ParentEdge(DoAlloc(s, a), i) && PidOk(DoAlloc(s, a), i)
  {
    hide Inv, LockEdge, ScanEdge, WaitEdge, Heard;
    HistoryAt(s);
    ProcAt(s, i);
    ProcAt(s, a.p);
    ProcAt(s, a.q);
  }

  lemma AllocHeard(s: State, a: Action, i: nat, z: nat)
    requires Inv(s) && IsAlloc(a) && CanAlloc(s, a) && i < |s.procs| && z < |s.procs|
    ensures Heard(DoAlloc(s, a), i, z)
  {
    hide Inv, LockEdge, WorkEdge, ScanEdge, WaitEdge, ParentEdge, PidOk, HistoryOk;
    ProcAt(s, i);
    ProcAt(s, z);
    ProcAt(s, a.p);
    HeardAt(s, i, z);
    ProcAt(s, a.q);
  }

  lemma AllocCpu(s: State, a: Action, c: nat)
    requires Inv(s) && IsAlloc(a) && CanAlloc(s, a) && c < |s.cpus|
    ensures CpuOk(DoAlloc(s, a), c) && HistoryOk(DoAlloc(s, a)) && -1 <= DoAlloc(s, a).waitLock < |s.procs|
  {
    hide Inv, LockEdge, ScanEdge, WaitEdge, Heard, ParentEdge, PidOk;
    HistoryAt(s);
    CpuAt(s, c);
    ProcAt(s, a.p);
    if s.cpus[c] != Idle { ProcAt(s, s.cpus[c].p); }
  }

  lemma ForkSelf(s: State, a: Action, i: nat)
    requires Inv(s) && IsFork(a) && CanFork(s, a) && i < |s.procs|
    ensures SelfOk(DoFork(s, a), i)
  {
    hide Inv, LockEdge, ScanEdge, WaitEdge, ParentEdge, PidOk, HistoryOk, Heard, CpuOk;
    ProcAt(s, i);
    ProcAt(s, a.p);
  }

  lemma ForkLocks(s: State, a: Action, i: nat)
    requires Inv(s) && IsFork(a) && CanFork(s, a) && i < |s.procs|
    ensures LockEdge(DoFork(s, a), i) && ScanEdge(DoFork(s, a), i)
  {
    hide Inv, WaitEdge, ParentEdge, PidOk, HistoryOk, Heard, Alive, HoldsWait, CpuOk;
    ProcAt(s, i);
    ProcAt(s, a.p);
  }

  lemma ForkWork(s: State, a: Action, i: nat)
    requires Inv(s) && IsFork(a) && CanFork(s, a) && i < |s.procs|
    ensures WorkEdge(DoFork(s, a), i)
  {
    hide Inv, LockEdge, ScanEdge, WaitEdge, ParentEdge, PidOk, HistoryOk, Heard, Alive, CpuOk;
    ProcAt(s, i);
    ProcAt(s, a.p);
  }

  lemma ForkWait(s: State, a: Action, i: nat)
    requires Inv(s) && IsFork(a) && CanFork(s, a) && i < |s.procs|
    ensures WaitEdge(DoFork(s, a), i)
  {
    hide Inv, LockEdge, ScanEdge, ParentEdge, PidOk, HistoryOk, Heard, SelfOk;
    ProcAt(s, i);
    ProcAt(s, a.p);
    if 0 <= s.procs[i].parent < |s.procs| { ProcAt(s, s.procs[i].parent); }
  }

  lemma ForkFamily(s: State, a: Action, i: nat)
    requires Inv(s) && IsFork(a) && CanFork(s, a) && i < |s.procs|
    ensures ParentEdge(DoFork(s, a), i) && PidOk(DoFork(s, a), i)
  {
    hide Inv, LockEdge, ScanEdge, WaitEdge, Heard, SelfOk, HistoryOk, CpuOk;
    ProcAt(s, i);
    ProcAt(s, a.p);
    ProcAt(s, s.procs[a.p].pc.q);
  }

  lemma ForkHeard(s: State, a: Action, i: nat, z: nat)
    requires Inv(s) && IsFork(a) && CanFork(s, a) && i < |s.procs| && z < |s.procs|
    ensures Heard(DoFork(s, a), i, z)
  {
    hide Inv, LockEdge, ScanEdge, WaitEdge, ParentEdge, PidOk, HistoryOk;
    ProcAt(s, i);
    ProcAt(s, z);
    ProcAt(s, a.p);
    HeardAt(s, i, z);
    ProcAt(s, s.procs[a.p].pc.q);
  }

  lemma ForkCpu(s: State, a: Action, c: nat)
    requires Inv(s) && IsFork(a) && CanFork(s, a) && c < |s.cpus|
    ensures CpuOk(DoFork(s, a), c) && HistoryOk(DoFork(s, a)) && -1 <= DoFork(s, a).waitLock < |s.procs|
  {
    hide Inv, LockEdge, ScanEdge, WaitEdge, Heard, ParentEdge, PidOk, SelfOk;
    HistoryAt(s);
    CpuAt(s, c);
    ProcAt(s, a.p);
  }

  lemma LinkSelf(s: State, a: Action, i: nat)
    requires Inv(s) && IsLink(a) && CanLink(s, a) && i < |s.procs|
    ensures SelfOk(DoLink(s, a), i)
  {
    hide Inv, LockEdge, ScanEdge, WaitEdge, PidOk, HistoryOk, Heard, ParentEdge, CpuOk;
    ProcAt(s, i);
    ProcAt(s, a.p);
    ProcAt(s, s.procs[a.p].pc.q);
  }

  lemma LinkLocks(s: State, a: Action, i: nat)
    requires Inv(s) && IsLink(a) && CanLink(s, a) && i < |s.procs|
    ensures LockEdge(DoLink(s, a), i) && ScanEdge(DoLink(s, a), i)
  {
    hide Inv, WaitEdge, PidOk, HistoryOk, Heard, SelfOk, ParentEdge;
    ProcAt(s, i);
    ProcAt(s, s.procs[a.p].pc.q);
  }

  lemma LinkWork(s: State, a: Action, i: nat)
    requires Inv(s) && IsLink(a) && CanLink(s, a) && i < |s.procs|
    ensures WorkEdge(DoLink(s, a), i)
  {
    hide Inv, ScanEdge, WaitEdge, PidOk, HistoryOk, Heard, ParentEdge, Alive, CpuOk;
    ProcAt(s, i);
    ProcAt(s, a.p);
    ProcAt(s, s.procs[a.p].pc.q);
  }

  lemma LinkWait(s: State, a: Action, i: nat)
    requires Inv(s) && IsLink(a) && CanLink(s, a) && i < |s.procs|
    ensures WaitEdge(DoLink(s, a), i)
  {
    hide Inv, LockEdge, ScanEdge, ParentEdge, PidOk, HistoryOk, Heard, WorkEdge;
    ProcAt(s, i);
  }

  lemma LinkFamily(s: State, a: Action, i: nat)
    requires Inv(s) && IsLink(a) && CanLink(s, a) && i < |s.procs|
    ensures ParentEdge(DoLink(s, a), i) && PidOk(DoLink(s, a), i)
  {
    hide Inv, WaitEdge, Heard, Exiting;
    ProcAt(s, i);
    ProcAt(s, a.p);
  }

  lemma LinkHeard(s: State, a: Action, i: nat, z: nat)
    requires Inv(s) && IsLink(a) && CanLink(s, a) && i < |s.procs| && z < |s.procs|
    ensures Heard(DoLink(s, a), i, z)
  {
    hide Inv, LockEdge, ScanEdge, WaitEdge, ParentEdge, PidOk, HistoryOk;
    ProcAt(s, i);
    ProcAt(s, z);
    ProcAt(s, a.p);
    HeardAt(s, i, z);
    ProcAt(s, s.procs[a.p].pc.q);
  }

  lemma LinkCpu(s: State, a: Action, c: nat)
    requires Inv(s) && IsLink(a) && CanLink(s, a) && c < |s.cpus|
    ensures CpuOk(DoLink(s, a), c) && HistoryOk(DoLink(s, a)) && -1 <= DoLink(s, a).waitLock < |s.procs|
  {
    hide Inv, LockEdge, ScanEdge, WaitEdge, Heard, ParentEdge, PidOk;
    HistoryAt(s);
    CpuAt(s, c);
    ProcAt(s, a.p);
    if s.cpus[c] != Idle { ProcAt(s, s.cpus[c].p); }
  }

  /** What a step of kexit() makes of process j, and what it leaves alone. */
  lemma ExitAt(s: State, a: Action, j: nat)
    requires IsExit(a) && CanExit(s, a) && j < |s.procs|
    ensures var p, p', s' := s.procs[j], DoExit(s, a).procs[j], DoExit(s, a);
            && s'.cpus == s.cpus && s'.nextpid == s.nextpid && s'.pidOf == s.pidOf && s'.reaped == s.reaped
            && p' == match a
                     case ExitBegin(q) => if j == q then p.(pc := ExitScan(0)) else p
                     case ExitOne(q) =>
                       var k := s.procs[q].pc.k;
                       if j == q then p.(pc := if s.procs[k].parent == q then ExitInit(k, 0) else ExitScan(k + 1))
                       else if j == k && p.parent == q then p.(parent := 0) else p
                     case ExitDie(q) =>
                       if j == q then p.(st := ZOMBIE, stack := Leaving, lock := Self, pc := Body) else p
    ensures match a
            case ExitBegin(q) => DoExit(s, a).waitLock == q && DoExit(s, a).exited == s.exited
            case ExitOne(q) => DoExit(s, a).waitLock == s.waitLock && DoExit(s, a).exited == s.exited
            case ExitDie(q) => DoExit(s, a).waitLock == -1 && DoExit(s, a).exited == s.exited + {s.procs[q].pid}
  {}

  lemma ExitSelf(s: State, a: Action, i: nat)
    requires Inv(s) && IsExit(a) && CanExit(s, a) && i < |s.procs|
    ensures SelfOk(DoExit(s, a), i)
  {
    hide Inv, LockEdge, WorkEdge, WaitEdge, ParentEdge, PidOk, HistoryOk, Heard, DoExit;
    ProcAt(s, i);
    ProcAt(s, a.p);
    ProcAt(s, 0);
    ExitAt(s, a, i);
  }

  lemma ExitLocks(s: State, a: Action, i: nat)
    requires Inv(s) && IsExit(a) && CanExit(s, a) && i < |s.procs|
    ensures LockEdge(DoExit(s, a), i)
  {
    hide Inv, ScanEdge, WaitEdge, PidOk, HistoryOk, Heard, SelfOk, ParentEdge, CpuOk;
    ProcAt(s, i);
    ProcAt(s, 0);
    if a.ExitOne? { ProcAt(s, s.procs[a.p].pc.k); }
  }

  lemma ExitPassed(s: State, a: Action, i: nat)
    requires Inv(s) && IsExit(a) && CanExit(s, a) && i < |s.procs|
    ensures ScanEdge(DoExit(s, a), i)
  {
    hide Inv, LockEdge, WorkEdge, WaitEdge, PidOk, HistoryOk, Heard, CpuOk;
    ProcAt(s, i);
    ProcAt(s, a.p);
    if a.ExitOne? { ProcAt(s, s.procs[a.p].pc.k); }
  }

  lemma ExitWork(s: State, a: Action, i: nat)
    requires Inv(s) && IsExit(a) && CanExit(s, a) && i < |s.procs|
    ensures WorkEdge(DoExit(s, a), i)
  {
    hide Inv, LockEdge, ScanEdge, WaitEdge, PidOk, HistoryOk, Heard, ParentEdge;
    ProcAt(s, i);
    ProcAt(s, a.p);
  }

  lemma ExitWait(s: State, a: Action, i: nat)
    requires Inv(s) && IsExit(a) && CanExit(s, a) && i < |s.procs|
    ensures WaitEdge(DoExit(s, a), i)
  {
    hide Inv, LockEdge, WorkEdge, ScanEdge, PidOk, HistoryOk, Heard, ParentEdge, Alive, InWait;
    ProcAt(s, i);
    ProcAt(s, a.p);
    if a.ExitOne? { ProcAt(s, s.procs[a.p].pc.k); }
    if 0 <= s.procs[i].parent < |s.procs| { ProcAt(s, s.procs[i].parent); }
  }

  lemma ExitParents(s: State, a: Action, i: nat)
    requires Inv(s) && IsExit(a) && CanExit(s, a) && i < |s.procs|
    ensures ParentEdge(DoExit(s, a), i)
  {
    hide Inv, LockEdge, WorkEdge, WaitEdge, PidOk, HistoryOk, Heard, DoExit;
    ProcAt(s, i);
    ProcAt(s, a.p);
    ProcAt(s, 0);
    ExitAt(s, a, i);
    ExitAt(s, a, 0);
    if s.procs[i].parent != -1 { ExitAt(s, a, s.procs[i].parent); }
  }

  lemma ExitPids(s: State, a: Action, i: nat)
    requires Inv(s) && IsExit(a) && CanExit(s, a) && i < |s.procs|
    ensures PidOk(DoExit(s, a), i)
  {
    hide Inv, LockEdge, WorkEdge, ScanEdge, WaitEdge, ParentEdge, HistoryOk, Heard, DoExit;
    ProcAt(s, i);
    ProcAt(s, a.p);
    ExitAt(s, a, i);
  }

  lemma ExitFamily(s: State, a: Action, i: nat)
    requires Inv(s) && IsExit(a) && CanExit(s, a) && i < |s.procs|
    ensures ParentEdge(DoExit(s, a), i) && PidOk(DoExit(s, a), i)
  {
    hide Inv, ParentEdge, PidOk, DoExit;
    ExitParents(s, a, i);
    ExitPids(s, a, i);
  }

  lemma ExitHeard(s: State, a: Action, i: nat, z: nat)
    requires Inv(s) && IsExit(a) && CanExit(s, a) && i < |s.procs| && z < |s.procs|
    ensures Heard(DoExit(s, a), i, z)
  {
    hide Inv, LockEdge, WorkEdge, ScanEdge, PidOk, HistoryOk, ParentEdge;
    ProcAt(s, i);
    ProcAt(s, z);
    ProcAt(s, a.p);
    HeardAt(s, i, z);
    ProcAt(s, 0);
    if a.ExitOne? { ProcAt(s, s.procs[a.p].pc.k); }
  }

  lemma ExitCpu(s: State, a: Action, c: nat)
    requires Inv(s) && IsExit(a) && CanExit(s, a) && c < |s.cpus|
    ensures CpuOk(DoExit(s, a), c) && HistoryOk(DoExit(s, a)) && -1 <= DoExit(s, a).waitLock < |s.procs|
  {
    hide Inv, LockEdge, ScanEdge, WaitEdge, Heard, ParentEdge;
    HistoryAt(s);
    CpuAt(s, c);
    ProcAt(s, a.p);
    if s.cpus[c] != Idle { ProcAt(s, s.cpus[c].p); }
  }

  /** A step of a wakeup() in kexit() changes no more than a sleeper's state and the caller's place. */
  lemma TellAt(s: State, a: Action, j: nat)
    requires IsTell(a) && CanTell(s, a) && j < |s.procs|
    ensures var p, p' := s.procs[j], DoTell(s, a).procs[j];
            && p'.parent == p.parent && p'.lock == p.lock && p'.maker == p.maker && p'.pid == p.pid
            && p'.stack == p.stack && p'.chan == p.chan && p'.on == p.on
            && (p'.st == p.st || (p.st == SLEEPING && p'.st == RUNNABLE))
            && (if j == a.p then Exiting(p'.pc) else p'.pc == p.pc)
  {}

  lemma TellRest(s: State, a: Action)
    requires IsTell(a) && CanTell(s, a)
    ensures var s' := DoTell(s, a);
            && s'.cpus == s.cpus && s'.waitLock == s.waitLock && s'.nextpid == s.nextpid && s'.pidOf == s.pidOf
            && s'.exited == s.exited && s'.reaped == s.reaped
    ensures s.procs[a.p].stack == Live && Exiting(s.procs[a.p].pc)
  {}

  lemma TellSelf(s: State, a: Action, i: nat)
    requires Inv(s) && IsTell(a) && CanTell(s, a) && i < |s.procs|
    ensures SelfOk(DoTell(s, a), i)
  {
    hide Inv, LockEdge, WorkEdge, ScanEdge, WaitEdge, ParentEdge, PidOk, HistoryOk, Heard, DoTell;
    ProcAt(s, i);
    TellAt(s, a, i);
    TellRest(s, a);
  }

  lemma TellLocks(s: State, a: Action, i: nat)
    requires Inv(s) && IsTell(a) && CanTell(s, a) && i < |s.procs|
    ensures LockEdge(DoTell(s, a), i)
  {
    hide Inv, ScanEdge, WaitEdge, PidOk, HistoryOk, Heard;
    ProcAt(s, i);
    ProcAt(s, a.p);
    ProcAt(s, 0);
    if a.InitOne? || a.TellOne? { ProcAt(s, s.procs[a.p].pc.j); }
  }

  lemma TellPassed(s: State, a: Action, i: nat)
    requires Inv(s) && IsTell(a) && CanTell(s, a) && i < |s.procs|
    ensures ScanEdge(DoTell(s, a), i)
  {
    hide Inv, LockEdge, WorkEdge, WaitEdge, PidOk, HistoryOk, Heard, SelfOk, ParentEdge;
    ProcAt(s, i);
    ProcAt(s, a.p);
    ProcAt(s, 0);
    if a.InitOne? || a.TellOne? { ProcAt(s, s.procs[a.p].pc.j); }
  }

  lemma TellWork(s: State, a: Action, i: nat)
    requires Inv(s) && IsTell(a) && CanTell(s, a) && i < |s.procs|
    ensures WorkEdge(DoTell(s, a), i)
  {
    hide Inv, SelfOk, LockEdge, ScanEdge, WaitEdge, ParentEdge, PidOk, HistoryOk, Heard, DoTell;
    ProcAt(s, i);
    TellAt(s, a, i);
    match s.procs[i].pc
    case ForkHave(q) => TellAt(s, a, q);
    case ForkLink(q) => TellAt(s, a, q);
    case ForkReady(q) => TellAt(s, a, q);
    case WaitHave(k) => TellAt(s, a, k);
    case _ =>
  }

  /** wakeup() of the parent leaves the process it has just passed out of kwait()'s sleep. */
  lemma TellPasses(s: State, a: Action, q: nat)
    requires Inv(s) && IsTell(a) && CanTell(s, a) && q < |s.procs| && s.procs[a.p].parent == q
    requires DoTell(s, a).procs[a.p].pc.ExitTell? && q < DoTell(s, a).procs[a.p].pc.j
    ensures !InWait(DoTell(s, a), q)
  {
    hide Inv, LockEdge, ScanEdge, WorkEdge, PidOk, HistoryOk, Heard;
    ProcAt(s, a.p);
    ProcAt(s, q);
  }

  lemma OneHolder(s: State, i: nat, p: nat)
    requires Inv(s) && i < |s.procs| && p < |s.procs| && s.procs[p].stack == Live && Exiting(s.procs[p].pc)
    requires Exiting(s.procs[i].pc)
    ensures i == p
  {
    hide Inv, LockEdge, ScanEdge, WorkEdge, WaitEdge, ParentEdge, PidOk, HistoryOk, Heard;
    ProcAt(s, i);
    ProcAt(s, p);
  }

  lemma TellWait(s: State, a: Action, i: nat)
    requires Inv(s) && IsTell(a) && CanTell(s, a) && i < |s.procs|
    ensures WaitEdge(DoTell(s, a), i)
  {
    hide Inv, SelfOk, LockEdge, ScanEdge, WorkEdge, ParentEdge, PidOk, HistoryOk, Heard, DoTell, InWait;
    ProcAt(s, i);
    forall j: nat | j < |s.procs| ensures SameKin(s.procs[j], DoTell(s, a).procs[j]) { TellAt(s, a, j); }
    TellAt(s, a, i);
    TellAt(s, a, a.p);
    if Exiting(DoTell(s, a).procs[i].pc) {
      OneHolder(s, i, a.p);
      var q := s.procs[i].parent;
      if 0 <= q < |s.procs| && DoTell(s, a).procs[i].pc.ExitTell? && q < DoTell(s, a).procs[i].pc.j {
        TellPasses(s, a, q);
      }
    }
  }

  predicate SameKin(p: Proc, p': Proc) {
    p'.parent == p.parent && (p'.st == ZOMBIE <==> p.st == ZOMBIE)
  }

  lemma TellFamily(s: State, a: Action, i: nat)
    requires Inv(s) && IsTell(a) && CanTell(s, a) && i < |s.procs|
    ensures ParentEdge(DoTell(s, a), i) && PidOk(DoTell(s, a), i)
  {
    hide Inv, SelfOk, LockEdge, WorkEdge, ScanEdge, WaitEdge, HistoryOk, Heard, DoTell;
    ProcAt(s, i);
    TellAt(s, a, i);
    TellRest(s, a);
    if s.procs[i].parent != -1 { TellAt(s, a, s.procs[i].parent); }
  }

  lemma TellHeard(s: State, a: Action, i: nat, z: nat)
    requires Inv(s) && IsTell(a) && CanTell(s, a) && i < |s.procs| && z < |s.procs|
    ensures Heard(DoTell(s, a), i, z)
  {
    hide Inv, LockEdge, WorkEdge, WaitEdge, ParentEdge, PidOk, HistoryOk, ScanEdge, Alive, CpuOk;
    ProcAt(s, i);
    ProcAt(s, a.p);
    HeardAt(s, i, z);
    ProcAt(s, 0);
    if a.InitOne? || a.TellOne? { ProcAt(s, s.procs[a.p].pc.j); }
  }

  lemma TellCpu(s: State, a: Action, c: nat)
    requires Inv(s) && IsTell(a) && CanTell(s, a) && c < |s.cpus|
    ensures CpuOk(DoTell(s, a), c) && HistoryOk(DoTell(s, a)) && -1 <= DoTell(s, a).waitLock < |s.procs|
  {
    hide Inv, LockEdge, ScanEdge, WaitEdge, Heard, ParentEdge, PidOk;
    HistoryAt(s);
    CpuAt(s, c);
    ProcAt(s, a.p);
    if s.cpus[c] != Idle { ProcAt(s, s.cpus[c].p); }
  }

  lemma ScanSelf(s: State, a: Action, i: nat)
    requires Inv(s) && IsScan(a) && CanScan(s, a) && i < |s.procs|
    ensures SelfOk(DoScan(s, a), i)
  {
    hide Inv, LockEdge, ScanEdge, WaitEdge, PidOk, HistoryOk, Heard;
    ProcAt(s, i);
    ProcAt(s, a.p);
    if a.WaitLockChild? { ProcAt(s, s.procs[a.p].pc.k); }
  }

  lemma ScanLocks(s: State, a: Action, i: nat)
    requires Inv(s) && IsScan(a) && CanScan(s, a) && i < |s.procs|
    ensures LockEdge(DoScan(s, a), i)
  {
    hide Inv, ScanEdge, WaitEdge, PidOk, HistoryOk, Heard;
    ProcAt(s, i);
    ProcAt(s, a.p);
    if a.WaitLockChild? { ProcAt(s, s.procs[a.p].pc.k); }
  }

  lemma ScanPassed(s: State, a: Action, i: nat)
    requires Inv(s) && IsScan(a) && CanScan(s, a) && i < |s.procs|
    ensures ScanEdge(DoScan(s, a), i)
  {
    hide Inv, LockEdge, WorkEdge, WaitEdge, PidOk, HistoryOk, Heard;
    ProcAt(s, i);
    ProcAt(s, a.p);
    if a.WaitLockChild? { ProcAt(s, s.procs[a.p].pc.k); }
  }

  lemma ScanWork(s: State, a: Action, i: nat)
    requires Inv(s) && IsScan(a) && CanScan(s, a) && i < |s.procs|
    ensures WorkEdge(DoScan(s, a), i)
  {
    hide Inv, ScanEdge, WaitEdge, PidOk, HistoryOk, Heard;
    ProcAt(s, i);
    ProcAt(s, a.p);
    if a.WaitLockChild? { ProcAt(s, s.procs[a.p].pc.k); }
  }

  lemma ScanWait(s: State, a: Action, i: nat)
    requires Inv(s) && IsScan(a) && CanScan(s, a) && i < |s.procs|
    ensures WaitEdge(DoScan(s, a), i)
  {
    hide Inv, LockEdge, WorkEdge, ScanEdge, ParentEdge, PidOk, HistoryOk, Heard;
    ProcAt(s, i);
    ProcAt(s, a.p);
    if a.WaitLockChild? { ProcAt(s, s.procs[a.p].pc.k); }
  }

  lemma ScanFamily(s: State, a: Action, i: nat)
    requires Inv(s) && IsScan(a) && CanScan(s, a) && i < |s.procs|
    ensures ParentEdge(DoScan(s, a), i) && PidOk(DoScan(s, a), i)
  {
    hide Inv, WaitEdge, Heard, SelfOk;
    ProcAt(s, i);
  }

  lemma ScanHeard(s: State, a: Action, i: nat, z: nat)
    requires Inv(s) && IsScan(a) && CanScan(s, a) && i < |s.procs| && z < |s.procs|
    ensures Heard(DoScan(s, a), i, z)
  {
    hide Inv, LockEdge, WorkEdge, ScanEdge, WaitEdge, ParentEdge, PidOk, HistoryOk;
    ProcAt(s, i);
    ProcAt(s, z);
    ProcAt(s, a.p);
    HeardAt(s, i, z);
    if a.WaitLockChild? { ProcAt(s, s.procs[a.p].pc.k); }
  }

  lemma ScanCpu(s: State, a: Action, c: nat)
    requires Inv(s) && IsScan(a) && CanScan(s, a) && c < |s.cpus|
    ensures CpuOk(DoScan(s, a), c) && HistoryOk(DoScan(s, a)) && -1 <= DoScan(s, a).waitLock < |s.procs|
  {
    hide Inv, LockEdge, ScanEdge, WaitEdge, Heard, ParentEdge, PidOk;
    HistoryAt(s);
    CpuAt(s, c);
    ProcAt(s, a.p);
    if s.cpus[c] != Idle { ProcAt(s, s.cpus[c].p); }
  }

  lemma SleepSelf(s: State, a: Action, i: nat)
    requires Inv(s) && IsSleep(a) && CanSleep(s, a) && i < |s.procs|
    ensures SelfOk(DoSleep(s, a), i)
  {
    hide Inv, LockEdge, ScanEdge, WaitEdge, PidOk, HistoryOk, Heard;
    ProcAt(s, i);
    ProcAt(s, a.p);
  }

  lemma SleepLocks(s: State, a: Action, i: nat)
    requires Inv(s) && IsSleep(a) && CanSleep(s, a) && i < |s.procs|
    ensures LockEdge(DoSleep(s, a), i) && ScanEdge(DoSleep(s, a), i)
  {
    hide Inv, WaitEdge, PidOk, HistoryOk, Heard;
    ProcAt(s, i);
    ProcAt(s, a.p);
  }

  lemma SleepWork(s: State, a: Action, i: nat)
    requires Inv(s) && IsSleep(a) && CanSleep(s, a) && i < |s.procs|
    ensures WorkEdge(DoSleep(s, a), i)
  {
    hide Inv, ScanEdge, WaitEdge, PidOk, HistoryOk, Heard;
    ProcAt(s, i);
    ProcAt(s, a.p);
  }

  lemma SleepWait(s: State, a: Action, i: nat)
    requires Inv(s) && IsSleep(a) && CanSleep(s, a) && i < |s.procs|
    ensures WaitEdge(DoSleep(s, a), i)
  {
    hide Inv, LockEdge, WorkEdge, ScanEdge, ParentEdge, PidOk, HistoryOk, Heard;
    ProcAt(s, i);
    ProcAt(s, a.p);
    if 0 <= s.procs[i].parent < |s.procs| { ProcAt(s, s.procs[i].parent); }
  }

  lemma SleepFamily(s: State, a: Action, i: nat)
    requires Inv(s) && IsSleep(a) && CanSleep(s, a) && i < |s.procs|
    ensures ParentEdge(DoSleep(s, a), i) && PidOk(DoSleep(s, a), i)
  {
    hide Inv, WaitEdge, Heard;
    ProcAt(s, i);
    ProcAt(s, a.p);
  }

  lemma SleepHeard(s: State, a: Action, i: nat, z: nat)
    requires Inv(s) && IsSleep(a) && CanSleep(s, a) && i < |s.procs| && z < |s.procs|
    ensures Heard(DoSleep(s, a), i, z)
  {
    hide Inv, LockEdge, WorkEdge, ScanEdge, ParentEdge, PidOk, HistoryOk;
    ProcAt(s, i);
    ProcAt(s, z);
    ProcAt(s, a.p);
    HeardAt(s, i, z);
  }

  lemma SleepCpu(s: State, a: Action, c: nat)
    requires Inv(s) && IsSleep(a) && CanSleep(s, a) && c < |s.cpus|
    ensures CpuOk(DoSleep(s, a), c) && HistoryOk(DoSleep(s, a)) && -1 <= DoSleep(s, a).waitLock < |s.procs|
  {
    hide Inv, LockEdge, ScanEdge, WaitEdge, Heard, ParentEdge, PidOk;
    HistoryAt(s);
    CpuAt(s, c);
    ProcAt(s, a.p);
    if s.cpus[c] != Idle { ProcAt(s, s.cpus[c].p); }
  }

  lemma ChildSelf(s: State, a: Action, i: nat)
    requires Inv(s) && IsChild(a) && CanChild(s, a) && i < |s.procs|
    ensures SelfOk(DoChild(s, a), i)
  {
    hide Inv, LockEdge, ScanEdge, WaitEdge, PidOk, HistoryOk, Heard;
    ProcAt(s, i);
    ProcAt(s, a.p);
  }

  lemma ChildLocks(s: State, a: Action, i: nat)
    requires Inv(s) && IsChild(a) && CanChild(s, a) && i < |s.procs|
    ensures LockEdge(DoChild(s, a), i) && ScanEdge(DoChild(s, a), i)
  {
    hide Inv, WaitEdge, PidOk, HistoryOk, Heard, SelfOk;
    ProcAt(s, i);
    ProcAt(s, a.p);
  }

  lemma ChildWork(s: State, a: Action, i: nat)
    requires Inv(s) && IsChild(a) && CanChild(s, a) && i < |s.procs|
    ensures WorkEdge(DoChild(s, a), i)
  {
    hide Inv, LockEdge, ScanEdge, WaitEdge, PidOk, HistoryOk, Heard, ParentEdge, Alive;
    ProcAt(s, i);
    ProcAt(s, a.p);
  }

  lemma ChildWait(s: State, a: Action, i: nat)
    requires Inv(s) && IsChild(a) && CanChild(s, a) && i < |s.procs|
    ensures WaitEdge(DoChild(s, a), i)
  {
    hide Inv, LockEdge, ScanEdge, ParentEdge, PidOk, HistoryOk, Heard, WorkEdge;
    ProcAt(s, i);
    ProcAt(s, a.p);
  }

  lemma ChildFamily(s: State, a: Action, i: nat)
    requires Inv(s) && IsChild(a) && CanChild(s, a) && i < |s.procs|
    ensures ParentEdge(DoChild(s, a), i) && PidOk(DoChild(s, a), i)
  {
    hide Inv, LockEdge, ScanEdge, WaitEdge, Heard, SelfOk, HistoryOk;
    ProcAt(s, i);
    ProcAt(s, a.p);
    ProcAt(s, s.procs[a.p].pc.k);
  }

  lemma ChildHeard(s: State, a: Action, i: nat, z: nat)
    requires Inv(s) && IsChild(a) && CanChild(s, a) && i < |s.procs| && z < |s.procs|
    ensures Heard(DoChild(s, a), i, z)
  {
    hide Inv, LockEdge, ScanEdge, WaitEdge, ParentEdge, PidOk, HistoryOk;
    ProcAt(s, i);
    ProcAt(s, z);
    ProcAt(s, a.p);
    HeardAt(s, i, z);
    ProcAt(s, s.procs[a.p].pc.k);
  }

  lemma ChildCpu(s: State, a: Action, c: nat)
    requires Inv(s) && IsChild(a) && CanChild(s, a) && c < |s.cpus|
    ensures CpuOk(DoChild(s, a), c) && HistoryOk(DoChild(s, a)) && -1 <= DoChild(s, a).waitLock < |s.procs|
  {
    hide Inv, LockEdge, ScanEdge, WaitEdge, ParentEdge, PidOk, Heard, HistoryOk;
    ChildHistory(s, a);
    CpuAt(s, c);
    ProcAt(s, a.p);
    if s.cpus[c] != Idle { ProcAt(s, s.cpus[c].p); }
    ProcAt(s, s.procs[a.p].pc.k);
  }

  /** Only a pid that was not yet reaped is, and its process has exited. */
  lemma ChildHistory(s: State, a: Action)
    requires Inv(s) && IsChild(a) && CanChild(s, a)
    ensures HistoryOk(DoChild(s, a)) && -1 <= DoChild(s, a).waitLock < |s.procs|
  {
    hide Inv, SelfOk, LockEdge, WorkEdge, ScanEdge, WaitEdge, ParentEdge, Heard;
    HistoryAt(s);
    ProcAt(s, s.procs[a.p].pc.k);
  }

  lemma SchedSelf(s: State, a: Action, i: nat)
    requires Inv(s) && OfSched(a) && CanSched(s, a) && i < |s.procs|
    ensures SelfOk(DoSched(s, a), i)
  {
    hide Inv, LockEdge, ScanEdge, WaitEdge, PidOk, HistoryOk, Heard, ParentEdge;
    ProcAt(s, i);
    CpuAt(s, a.c);
  }

  lemma SchedLocks(s: State, a: Action, i: nat)
    requires Inv(s) && OfSched(a) && CanSched(s, a) && i < |s.procs|
    ensures LockEdge(DoSched(s, a), i) && ScanEdge(DoSched(s, a), i)
  {
    hide Inv, WaitEdge, PidOk, HistoryOk, Heard;
    ProcAt(s, i);
    CpuAt(s, a.c);
    ProcAt(s, if a.Look? then a.p else s.cpus[a.c].p);
  }

  lemma SchedWork(s: State, a: Action, i: nat)
    requires Inv(s) && OfSched(a) && CanSched(s, a) && i < |s.procs|
    ensures WorkEdge(DoSched(s, a), i)
  {
    hide Inv, ScanEdge, WaitEdge, PidOk, HistoryOk, Heard;
    ProcAt(s, i);
    CpuAt(s, a.c);
    ProcAt(s, if a.Look? then a.p else s.cpus[a.c].p);
  }

  lemma SchedWait(s: State, a: Action, i: nat)
    requires Inv(s) && OfSched(a) && CanSched(s, a) && i < |s.procs|
    ensures WaitEdge(DoSched(s, a), i)
  {
    hide Inv, LockEdge, WorkEdge, ScanEdge, ParentEdge, PidOk, HistoryOk, Heard;
    ProcAt(s, i);
    CpuAt(s, a.c);
    ProcAt(s, if a.Look? then a.p else s.cpus[a.c].p);
  }

  lemma SchedFamily(s: State, a: Action, i: nat)
    requires Inv(s) && OfSched(a) && CanSched(s, a) && i < |s.procs|
    ensures ParentEdge(DoSched(s, a), i) && PidOk(DoSched(s, a), i)
  {
    hide Inv, WaitEdge, Heard;
    ProcAt(s, i);
    CpuAt(s, a.c);
    ProcAt(s, if a.Look? then a.p else s.cpus[a.c].p);
  }

  lemma SchedHeard(s: State, a: Action, i: nat, z: nat)
    requires Inv(s) && OfSched(a) && CanSched(s, a) && i < |s.procs| && z < |s.procs|
    ensures Heard(DoSched(s, a), i, z)
  {
    hide Inv, LockEdge, ScanEdge, PidOk, HistoryOk, WorkEdge, WaitEdge, ParentEdge;
    ProcAt(s, i);
    ProcAt(s, z);
    CpuAt(s, a.c);
    ProcAt(s, if a.Look? then a.p else s.cpus[a.c].p);
    HeardAt(s, i, z);
  }

  lemma SchedCpu(s: State, a: Action, c: nat)
    requires Inv(s) && OfSched(a) && CanSched(s, a) && c < |s.cpus|
    ensures CpuOk(DoSched(s, a), c) && HistoryOk(DoSched(s, a)) && -1 <= DoSched(s, a).waitLock < |s.procs|
  {
    hide Inv, PidOk, WorkEdge, LockEdge, ScanEdge, WaitEdge, ParentEdge, Heard, Alive, Exiting, HoldsWait;
    HistoryAt(s);
    CpuAt(s, c);
    CpuAt(s, a.c);
    ProcAt(s, if a.Look? then a.p else s.cpus[a.c].p);
  }

  lemma CpuStep(s: State, a: Action, c: nat)
    requires Inv(s) && Can(s, a) && c < |s.cpus|
    ensures CpuOk(Do(s, a), c) && HistoryOk(Do(s, a)) && -1 <= Do(s, a).waitLock < |s.procs|
  {
    hide Inv, CpuOk, HistoryOk, DoSched, DoSwitch, DoAlloc, DoFork, DoLink, DoExit, DoTell, DoScan, DoSleep, DoChild;
    if OfSched(a) { SchedCpu(s, a, c); }
    else if IsSwitch(a) { SwitchCpu(s, a, c); }
    else if IsAlloc(a) { AllocCpu(s, a, c); }
    else if IsFork(a) { ForkCpu(s, a, c); }
    else if IsLink(a) { LinkCpu(s, a, c); }
    else if IsExit(a) { ExitCpu(s, a, c); }
    else if IsTell(a) { TellCpu(s, a, c); }
    else if IsScan(a) { ScanCpu(s, a, c); }
    else if IsSleep(a) { SleepCpu(s, a, c); }
    else { ChildCpu(s, a, c); }
  }

  lemma HeardStep(s: State, a: Action, i: nat, z: nat)
    requires Inv(s) && Can(s, a) && i < |s.procs| && z < |s.procs|
    ensures Heard(Do(s, a), i, z)
  {
    hide Inv, Heard, DoSched, DoSwitch, DoAlloc, DoFork, DoLink, DoExit, DoTell, DoScan, DoSleep, DoChild;
    if OfSched(a) { SchedHeard(s, a, i, z); }
    else if IsSwitch(a) { SwitchHeard(s, a, i, z); }
    else if IsAlloc(a) { AllocHeard(s, a, i, z); }
    else if IsFork(a) { ForkHeard(s, a, i, z); }
    else if IsLink(a) { LinkHeard(s, a, i, z); }
    else if IsExit(a) { ExitHeard(s, a, i, z); }
    else if IsTell(a) { TellHeard(s, a, i, z); }
    else if IsScan(a) { ScanHeard(s, a, i, z); }
    else if IsSleep(a) { SleepHeard(s, a, i, z); }
    else { ChildHeard(s, a, i, z); }
  }

  lemma ProcStep(s: State, a: Action, i: nat)
    requires Inv(s) && !OfSched(a) && Can(s, a) && i < |s.procs|
    ensures ProcOk(Do(s, a), i)
  {
    hide Inv, SelfOk, LockEdge, WorkEdge, ScanEdge, WaitEdge, ParentEdge, PidOk, DoSched, DoSwitch, DoAlloc, DoFork;
    hide DoLink, DoExit, DoTell, DoScan, DoSleep, DoChild;
    if IsSwitch(a) {
      SwitchSelf(s, a, i);
      SwitchLocks(s, a, i);
      SwitchWork(s, a, i);
      SwitchWait(s, a, i);
      SwitchFamily(s, a, i);
    } else if IsAlloc(a) {
      AllocSelf(s, a, i);
      AllocLocks(s, a, i);
      AllocWork(s, a, i);
      AllocWait(s, a, i);
      AllocFamily(s, a, i);
    } else if IsFork(a) {
      ForkSelf(s, a, i);
      ForkLocks(s, a, i);
      ForkWork(s, a, i);
      ForkWait(s, a, i);
      ForkFamily(s, a, i);
    } else if IsLink(a) {
      LinkSelf(s, a, i);
      LinkLocks(s, a, i);
      LinkWork(s, a, i);
      LinkWait(s, a, i);
      LinkFamily(s, a, i);
    } else if IsExit(a) {
      ExitSelf(s, a, i);
      ExitLocks(s, a, i);
      ExitPassed(s, a, i);
      ExitWork(s, a, i);
      ExitWait(s, a, i);
      ExitFamily(s, a, i);
    } else if IsTell(a) {
      TellSelf(s, a, i);
      TellLocks(s, a, i);
      TellPassed(s, a, i);
      TellWork(s, a, i);
      TellWait(s, a, i);
      TellFamily(s, a, i);
    } else if IsScan(a) {
      ScanSelf(s, a, i);
      ScanLocks(s, a, i);
      ScanPassed(s, a, i);
      ScanWork(s, a, i);
      ScanWait(s, a, i);
      ScanFamily(s, a, i);
    } else if IsSleep(a) {
      SleepSelf(s, a, i);
      SleepLocks(s, a, i);
      SleepWork(s, a, i);
      SleepWait(s, a, i);
      SleepFamily(s, a, i);
    } else {
      ChildSelf(s, a, i);
      ChildLocks(s, a, i);
      ChildWork(s, a, i);
      ChildWait(s, a, i);
      ChildFamily(s, a, i);
    }
  }

  lemma SchedStep(s: State, a: Action, i: nat)
    requires Inv(s) && OfSched(a) && CanSched(s, a) && i < |s.procs|
    ensures ProcOk(DoSched(s, a), i)
  {
    SchedSelf(s, a, i);
    SchedLocks(s, a, i);
    SchedWork(s, a, i);
    SchedWait(s, a, i);
    SchedFamily(s, a, i);
  }

  lemma StepKeeps(s: State, a: Action)
    requires Inv(s) && Can(s, a)
    ensures Inv(Do(s, a))
  {
    hide ProcOk, HistoryOk, CpuOk, Heard, DoSched, DoSwitch, DoAlloc, DoFork, DoLink, DoExit, DoTell, DoScan, DoSleep;
    hide DoChild;
    var s' := Do(s, a);
    CpuStep(s, a, 0);
    forall i: nat | i < |s'.procs| ensures ProcOk(s', i) {
      if OfSched(a) { SchedStep(s, a, i); } else { ProcStep(s, a, i); }
    }
    forall c: nat | c < |s'.cpus| ensures CpuOk(s', c) {
      CpuStep(s, a, c);
    }
    forall i: nat, z: nat | i < |s'.procs| && z < |s'.procs| ensures Heard(s', i, z) {
      HeardStep(s, a, i, z);
    }
  }

  // ---- Runs ----

  /** After userinit(): initproc is runnable with pid 1, every CPU is in its scheduler. */
  ghost predicate Init(s: State) {
    && 0 < |s.procs| && 0 < |s.cpus| && s.waitLock == -1 && s.nextpid == 2
    && s.procs[0] == Proc(RUNNABLE, -1, 1, Free, -1, Off, Body, -1, -1)
    && (forall i | 0 < i < |s.procs| :: s.procs[i] == Proc(UNUSED, -1, 0, Free, -1, Off, Body, -1, -1))
    && (forall c | 0 <= c < |s.cpus| :: s.cpus[c] == Idle)
    && s.pidOf == map[1 := 0] && s.exited == {} && s.reaped == []
  }

  ghost predicate Reaches(s: State, acts: seq<Action>, s': State)
    decreases |acts|
  {
    if acts == [] then s' == s else Can(s, acts[0]) && Reaches(Do(s, acts[0]), acts[1..], s')
  }

  lemma {:induction false} RunKeeps(s: State, acts: seq<Action>, s': State)
    requires (Init(s) || Inv(s)) && Reaches(s, acts, s')
    ensures Inv(s')
    decreases |acts|
  {
    hide Can, Do;
    if Init(s) { assert Inv(s); }
    if acts != [] {
      StepKeeps(s, acts[0]);
      RunKeeps(Do(s, acts[0]), acts[1..], s');
    }
  }

  /** In every run a running process is on exactly one CPU. */
  lemma OneCpu(s: State, acts: seq<Action>, s': State, p: nat)
    requires Init(s) && Reaches(s, acts, s') && p < |s'.procs|
    ensures s'.procs[p].st == RUNNING ==> 0 <= s'.procs[p].on < |s'.cpus| && s'.cpus[s'.procs[p].on] == In(p)
    ensures forall c, d | 0 <= c < |s'.cpus| && 0 <= d < |s'.cpus| && s'.cpus[c] == In(p) && s'.cpus[d] == In(p) ::
      c == d
  {
    RunKeeps(s, acts, s');
    assert ProcOk(s', p);
    forall c: nat | c < |s'.cpus| && s'.cpus[c] == In(p) ensures c == s'.procs[p].on {
      assert CpuOk(s', c);
    }
  }

  /** In every run nobody's parent is a zombie or unused, whoever holds wait_lock, and initproc is alive. */
  lemma ParentsLive(s: State, acts: seq<Action>, s': State, i: nat)
    requires Init(s) && Reaches(s, acts, s') && i < |s'.procs| && s'.procs[i].parent != -1
    ensures 0 <= s'.procs[i].parent < |s'.procs| && Alive(s'.procs[s'.procs[i].parent].st) && Alive(s'.procs[0].st)
  {
    RunKeeps(s, acts, s');
    assert ProcOk(s', i) && ProcOk(s', 0);
  }

  /** In every run no pid is reaped twice, and only processes that have exited are reaped. */
  lemma ReapedOnce(s: State, acts: seq<Action>, s': State, i: nat, j: nat)
    requires Init(s) && Reaches(s, acts, s') && i < |s'.reaped| && j < |s'.reaped| && s'.reaped[i] == s'.reaped[j]
    ensures i == j && s'.reaped[i] in s'.exited
  {
    RunKeeps(s, acts, s');
  }

  lemma ReapOk(s: State, p: nat)
    requires Inv(s) && Can(s, Reap(p))
    ensures var k := s.procs[p].pc.k;
            && k < |s.procs| && s.procs[k].st == ZOMBIE && s.procs[k].parent == p && s.procs[k].pid !in s.reaped
            && s.procs[k].on == -1 && forall c | 0 <= c < |s.cpus| :: s.cpus[c] != In(k)
  {
    hide LockEdge, ScanEdge, WaitEdge, ParentEdge, Heard;
    var k := s.procs[p].pc.k;
    assert ProcOk(s, p) && ProcOk(s, k);
    forall c: nat | c < |s.cpus| ensures s.cpus[c] != In(k) {
      assert CpuOk(s, c);
    }
  }

  /** Whenever kwait() frees a child, it is a zombie of its own that no CPU is still on. */
  lemma ReapsOwnAndOff(s: State, acts: seq<Action>, s': State, p: nat)
    requires Init(s) && Reaches(s, acts, s') && Can(s', Reap(p))
    ensures var k := s'.procs[p].pc.k;
            && k < |s'.procs| && s'.procs[k].st == ZOMBIE && s'.procs[k].parent == p && s'.procs[k].pid !in s'.reaped
            && s'.procs[k].on == -1 && forall c | 0 <= c < |s'.cpus| :: s'.cpus[c] != In(k)
  {
    hide Reaches, Init;
    RunKeeps(s, acts, s');
    ReapOk(s', p);
  }

  /**
    No lost exit: in every run, while wait_lock is free, no process asleep in kwait() or bound to sleep
    there has a zombie child.
  */
  lemma NoLostExit(s: State, acts: seq<Action>, s': State, i: nat, z: nat)
    requires Init(s) && Reaches(s, acts, s') && i < |s'.procs| && z < |s'.procs| && s'.waitLock == -1
    requires InWait(s', i) && s'.procs[z].parent == i
    ensures s'.procs[z].st != ZOMBIE
  {
    RunKeeps(s, acts, s');
    assert Heard(s', i, z);
  }
}
