/**
  sleep() and wakeup() of kernel/proc.c for any channels, locks and conditions, as a step system. Each
  channel has a condition that only a holder of the channel's lock changes; a process that finds it
  false sleeps on the channel, and one that makes it true runs wakeup() on the channel before it
  releases the lock. The sleep-locks of kernel/sleeplock.c are such clients: the condition is that the
  lock is free. Any number of processes run and are killed or scheduled in any interleaving; each step
  is one lock operation or the code between two of them.
*/
module SleepWakeup {
  /**
    Who holds a p->lock: the process itself, a scheduler that switched away from it, or the process
    running wakeup().
  */
  datatype Holder = Free | Self | Scheduler | Waker(w: nat)

  /** Where a process is in sleep() or wakeup(), and on which channel. */
  datatype Pc =
    | Running
    | Sleeping1(c: nat)      // in sleep(): holds lk, about to acquire p->lock
    | Sleeping2(c: nat)      // holds lk and p->lock, about to release lk
    | Sleeping3(c: nat)      // holds p->lock only, about to set chan and SLEEPING
    | Asleep(c: nat)         // has called sched()
    | Woken(c: nat)          // switched back in, holds p->lock
    | Reacquiring(c: nat)    // about to reacquire lk
    | Waking(c: nat, j: nat) // wakeup() has reached process j

  datatype Proc = Proc(pc: Pc, plock: Holder, sleeping: bool, chan: int, owns: set<nat>) // owns: the sleep-locks held

  /** A channel: its lock, its condition, and what has happened to it since the lock was acquired. */
  datatype Channel = Channel(lk: nat, sleeplock: bool, cond: bool, raised: bool, woke: bool)

  datatype State = State(procs: seq<Proc>, locks: seq<int>, chans: seq<Channel>) // locks[l] is the holder, -1 if free

  /** On its way to sleep on channel c, or asleep there and not woken. */
  predicate Committed(p: Proc, c: nat) {
    p.pc in {Sleeping1(c), Sleeping2(c), Sleeping3(c)} || (p.pc == Asleep(c) && p.sleeping)
  }

  /** The process runs a wakeup() on channel c that has passed process i. */
  predicate Passed(p: Proc, c: nat, i: nat) {
    p.pc.Waking? && p.pc.c == c && i < p.pc.j
  }

  // ---- Invariant ----

  /** The p->lock of process i agrees with where it is. */
  predicate ProcOk(s: State, i: nat)
    requires i < |s.procs|
  {
    var p := s.procs[i];
    && (p.pc != Running ==> p.pc.c < |s.chans|)
    && (p.pc.Sleeping1? || p.pc.Sleeping2? ==> s.chans[p.pc.c].lk < |s.locks| && s.locks[s.chans[p.pc.c].lk] == i)
    && (p.pc.Sleeping2? || p.pc.Sleeping3? || p.pc.Woken? ==> p.plock == Self)
    && (p.plock == Self ==> p.pc.Sleeping2? || p.pc.Sleeping3? || p.pc.Woken? || (p.pc.Asleep? && p.sleeping))
    && (p.plock == Scheduler ==> p.pc.Asleep?)
    && (p.sleeping ==> p.pc.Asleep? && p.chan == p.pc.c)
    && (p.plock.Waker? ==>
          p.plock.w != i && p.plock.w < |s.procs| && s.procs[p.plock.w].pc.Waking? && s.procs[p.plock.w].pc.j == i)
  }

  /**
    What covers a process committed to channel c: with the lock free the condition is false; with it
    held no wakeup() by the holder has finished or passed the process, and a true condition was raised
    since the holder acquired the lock.
  */
  predicate Covered(s: State, i: nat, c: nat)
    requires i < |s.procs| && c < |s.chans| && s.chans[c].lk < |s.locks| && s.locks[s.chans[c].lk] < |s.procs|
  {
    var ch := s.chans[c];
    var w := s.locks[ch.lk];
    Committed(s.procs[i], c) ==>
      if w < 0 then !ch.cond else !ch.woke && !Passed(s.procs[w], c, i) && (ch.cond ==> ch.raised)
  }

  ghost predicate LocksOk(s: State) {
    && (forall l | 0 <= l < |s.locks| :: -1 <= s.locks[l] < |s.procs|)
    && (forall c | 0 <= c < |s.chans| :: s.chans[c].lk < |s.locks|)
  }

  /** A sleep-lock has at most one owner, and while it has one its condition is false. */
  ghost predicate Exclusive(s: State) {
    && (forall i: nat, c: nat | Owns(s, i, c) :: c < |s.chans| && s.chans[c].sleeplock && !s.chans[c].cond)
    && (forall i: nat, k: nat, c: nat | Owns(s, i, c) && Owns(s, k, c) :: i == k)
  }

  predicate Owns(s: State, i: nat, c: nat) {
    i < |s.procs| && c in s.procs[i].owns
  }

  ghost predicate Inv(s: State) {
    && LocksOk(s) && Exclusive(s)
    && (forall i: nat {:trigger ProcOk(s, i)} | i < |s.procs| :: ProcOk(s, i))
    && (forall i: nat, c: nat {:trigger Covered(s, i, c)} | i < |s.procs| && c < |s.chans| :: Covered(s, i, c))
  }

  // ---- Steps ----

  datatype Action =
    | Acquire(i: nat, l: nat)
    | Release(i: nat, l: nat)
    | Change(i: nat, c: nat, v: bool) // a condition other than a sleep-lock's
    | Take(i: nat, c: nat)            // acquiresleep() after its loop
    | Give(i: nat, c: nat)            // releasesleep() clears locked
    | Wait(i: nat, c: nat)            // the condition is false: sleep() is called
    | LockSelf(i: nat)                // sleep() acquires p->lock
    | ReleaseLk(i: nat)               // sleep() releases lk
    | GoToSleep(i: nat)               // chan and SLEEPING are set
    | SwitchOut(i: nat)               // sched() switches to the scheduler
    | SchedRelease(i: nat)
    | Kill(i: nat)                    // kkill() makes a sleeper runnable
    | Dispatch(i: nat)                // the scheduler switches to a runnable process
    | Resume(i: nat)                  // sleep() clears chan and releases p->lock
    | Reacquire(i: nat)               // sleep() reacquires lk and returns
    | StartWake(i: nat, c: nat)       // wakeup(c) is called, with or without the channel's lock
    | WakeLock(i: nat)                // it acquires the next p->lock
    | WakeOne(i: nat)                 // ... tests, wakes and releases it
    | WakeSkip(i: nat)                // ... or skips its own process
    | WakeDone(i: nat)                // it has seen every process

  /** The holder may release lock l: every condition it made true has been announced. */
  predicate Told(s: State, l: nat) {
    forall c | 0 <= c < |s.chans| && s.chans[c].lk == l && s.chans[c].cond && s.chans[c].raised :: s.chans[c].woke
  }

  predicate Holds(s: State, i: nat, c: nat) {
    c < |s.chans| && s.chans[c].lk < |s.locks| && s.locks[s.chans[c].lk] == i
  }

  predicate Can(s: State, a: Action) {
    && a.i < |s.procs|
    && var p := s.procs[a.i];
       match a
       case Acquire(i, l) => p.pc == Running && l < |s.locks| && s.locks[l] == -1
       case Release(i, l) => p.pc == Running && l < |s.locks| && s.locks[l] == i && Told(s, l)
       case Change(i, c, v) => p.pc == Running && Holds(s, i, c) && !s.chans[c].sleeplock
       case Take(i, c) => p.pc == Running && Holds(s, i, c) && s.chans[c].sleeplock && s.chans[c].cond
       case Give(i, c) => p.pc == Running && Holds(s, i, c) && c in p.owns
       case Wait(i, c) => p.pc == Running && Holds(s, i, c) && !s.chans[c].cond
       case LockSelf(i) => p.pc.Sleeping1? && p.plock == Free
       case ReleaseLk(i) => p.pc.Sleeping2? && Holds(s, i, p.pc.c) && Told(s, s.chans[p.pc.c].lk)
       case GoToSleep(i) => p.pc.Sleeping3?
       case SwitchOut(i) => p.pc.Asleep? && p.plock == Self
       case SchedRelease(i) => p.plock == Scheduler
       case Kill(i) => p.sleeping && p.plock == Free
       case Dispatch(i) => p.pc.Asleep? && !p.sleeping && p.plock == Free
       case Resume(i) => p.pc.Woken?
       case Reacquire(i) =>
         p.pc.Reacquiring? && p.pc.c < |s.chans| && s.chans[p.pc.c].lk < |s.locks| && s.locks[s.chans[p.pc.c].lk] == -1
       case StartWake(i, c) => p.pc == Running && c < |s.chans|
       case WakeLock(i) => p.pc.Waking? && p.pc.j < |s.procs| && p.pc.j != i && s.procs[p.pc.j].plock == Free
       case WakeOne(i) => p.pc.Waking? && p.pc.j < |s.procs| && s.procs[p.pc.j].plock == Waker(i)
       case WakeSkip(i) => p.pc.Waking? && p.pc.j == i
       case WakeDone(i) => p.pc.Waking? && p.pc.j == |s.procs|
  }

  function With(s: State, i: nat, p: Proc): State
    requires i < |s.procs|
  {
    s.(procs := s.procs[i := p])
  }

  function WithChan(s: State, c: nat, ch: Channel): State
    requires c < |s.chans|
  {
    s.(chans := s.chans[c := ch])
  }

  /** Lock l acquired by process i: nothing has happened to its channels yet. */
  function Locked(s: State, i: nat, l: nat): State
    requires l < |s.locks|
  {
    s.(locks := s.locks[l := i],
       chans := seq(|s.chans|, c requires 0 <= c < |s.chans| =>
                  if s.chans[c].lk == l then s.chans[c].(raised := false, woke := false) else s.chans[c]))
  }

  predicate OfLock(a: Action) {
    a.Acquire? || a.Release? || a.Reacquire? || a.ReleaseLk?
  }

  predicate OfClient(a: Action) {
    a.Change? || a.Take? || a.Give? || a.Wait?
  }

  predicate OfWakeup(a: Action) {
    a.StartWake? || a.WakeLock? || a.WakeOne? || a.WakeSkip? || a.WakeDone?
  }

  function DoLock(s: State, a: Action): State
    requires OfLock(a) && Can(s, a)
  {
    var p := s.procs[a.i];
    match a
    case Acquire(i, l) => Locked(s, i, l)
    case Release(i, l) => s.(locks := s.locks[l := -1])
    case Reacquire(i) => Locked(With(s, i, p.(pc := Running)), i, s.chans[p.pc.c].lk)
    case ReleaseLk(i) => With(s, i, p.(pc := Sleeping3(p.pc.c))).(locks := s.locks[s.chans[p.pc.c].lk := -1])
  }

  function DoClient(s: State, a: Action): State
    requires OfClient(a) && Can(s, a)
  {
    var p := s.procs[a.i];
    var ch := s.chans[a.c];
    match a
    case Change(i, c, v) => WithChan(s, c, ch.(cond := v, raised := ch.raised || (v && !ch.cond)))
    case Take(i, c) => With(WithChan(s, c, ch.(cond := false)), i, p.(owns := p.owns + {c}))
    case Give(i, c) => With(WithChan(s, c, ch.(cond := true, raised := true)), i, p.(owns := p.owns - {c}))
    case Wait(i, c) => With(WithChan(s, c, ch.(raised := false, woke := false)), i, p.(pc := Sleeping1(c)))
  }

  function DoWakeup(s: State, a: Action): State
    requires OfWakeup(a) && Can(s, a)
  {
    var p := s.procs[a.i];
    match a
    case StartWake(i, c) => With(s, i, p.(pc := Waking(c, 0)))
    case WakeLock(i) => With(s, p.pc.j, s.procs[p.pc.j].(plock := Waker(i)))
    case WakeOne(i) =>
      var q := s.procs[p.pc.j];
      With(With(s, p.pc.j, q.(plock := Free, sleeping := q.sleeping && q.chan != p.pc.c)),
           i, p.(pc := Waking(p.pc.c, p.pc.j + 1)))
    case WakeSkip(i) => With(s, i, p.(pc := Waking(p.pc.c, i + 1)))
    case WakeDone(i) =>
      var s' := With(s, i, p.(pc := Running));
      if Holds(s, i, p.pc.c) then WithChan(s', p.pc.c, s.chans[p.pc.c].(woke := true)) else s'
  }

  function DoSleep(s: State, a: Action): State
    requires !OfLock(a) && !OfClient(a) && !OfWakeup(a) && Can(s, a)
  {
    var p := s.procs[a.i];
    match a
    case LockSelf(i) => With(s, i, p.(pc := Sleeping2(p.pc.c), plock := Self))
    case GoToSleep(i) => With(s, i, p.(pc := Asleep(p.pc.c), sleeping := true, chan := p.pc.c))
    case SwitchOut(i) => With(s, i, p.(plock := Scheduler))
    case SchedRelease(i) => With(s, i, p.(plock := Free))
    case Kill(i) => With(s, i, p.(sleeping := false))
    case Dispatch(i) => With(s, i, p.(pc := Woken(p.pc.c), plock := Self))
    case Resume(i) => With(s, i, p.(pc := Reacquiring(p.pc.c), plock := Free, chan := -1))
  }

  function Do(s: State, a: Action): State
    requires Can(s, a)
  {
    if OfLock(a) then DoLock(s, a)
    else if OfClient(a) then DoClient(s, a)
    else if OfWakeup(a) then DoWakeup(s, a)
    else DoSleep(s, a)
  }

  // ---- Every step keeps the invariant ----

  lemma LockShape(s: State, a: Action, i: nat)
    requires Inv(s) && Can(s, a) && OfLock(a) && i < |s.procs|
    ensures LocksOk(DoLock(s, a)) && ProcOk(DoLock(s, a), i)
  {
    hide Exclusive, Covered, Told;
    assert ProcOk(s, i) && ProcOk(s, a.i);
  }

  lemma LockCover(s: State, a: Action, i: nat, c: nat)
    requires Inv(s) && Can(s, a) && OfLock(a) && i < |s.procs| && c < |s.chans|
    requires LocksOk(DoLock(s, a))
    ensures Covered(DoLock(s, a), i, c)
  {
    hide Exclusive;
    assert ProcOk(s, i) && ProcOk(s, a.i) && Covered(s, i, c);
  }

  lemma ClientShape(s: State, a: Action, i: nat)
    requires Inv(s) && Can(s, a) && OfClient(a) && i < |s.procs|
    ensures LocksOk(DoClient(s, a)) && ProcOk(DoClient(s, a), i)
  {
    hide Exclusive, Covered, Told;
    assert ProcOk(s, i) && ProcOk(s, a.i);
  }

  lemma ClientCover(s: State, a: Action, i: nat, c: nat)
    requires Inv(s) && Can(s, a) && OfClient(a) && i < |s.procs| && c < |s.chans|
    requires LocksOk(DoClient(s, a))
    ensures Covered(DoClient(s, a), i, c)
  {
    hide Exclusive;
    assert ProcOk(s, i) && ProcOk(s, a.i) && Covered(s, i, c);
  }

  lemma ProcAt(s: State, i: nat)
    requires Inv(s) && i < |s.procs|
    ensures ProcOk(s, i)
  {}

  lemma LocksAt(s: State)
    requires Inv(s)
    ensures LocksOk(s)
  {}

  lemma WakeOneShape(s: State, a: Action, i: nat)
    requires Inv(s) && Can(s, a) && a.WakeOne? && i < |s.procs|
    ensures LocksOk(DoWakeup(s, a)) && ProcOk(DoWakeup(s, a), i)
  {
    hide Inv, Exclusive, Covered, Told;
    LocksAt(s);
    ProcAt(s, i);
    ProcAt(s, a.i);
    ProcAt(s, s.procs[a.i].pc.j);
  }

  lemma WakeupShape(s: State, a: Action, i: nat)
    requires Inv(s) && Can(s, a) && OfWakeup(a) && i < |s.procs|
    ensures LocksOk(DoWakeup(s, a)) && ProcOk(DoWakeup(s, a), i)
  {
    hide Inv, ProcOk, DoWakeup;
    if a.WakeOne? {
      WakeOneShape(s, a, i);
    } else if a.WakeLock? {
      WakeLockShape(s, a, i);
    } else {
      WakeRestShape(s, a, i);
    }
  }

  lemma WakeLockShape(s: State, a: Action, i: nat)
    requires Inv(s) && Can(s, a) && a.WakeLock? && i < |s.procs|
    ensures LocksOk(DoWakeup(s, a)) && ProcOk(DoWakeup(s, a), i)
  {
    hide Inv, Exclusive, Covered, Told;
    LocksAt(s);
    ProcAt(s, i);
    ProcAt(s, a.i);
    ProcAt(s, s.procs[a.i].pc.j);
  }

  lemma WakeRestShape(s: State, a: Action, i: nat)
    requires Inv(s) && Can(s, a) && (a.StartWake? || a.WakeSkip? || a.WakeDone?) && i < |s.procs|
    ensures LocksOk(DoWakeup(s, a)) && ProcOk(DoWakeup(s, a), i)
  {
    hide Inv, Exclusive, Covered, Told;
    LocksAt(s);
    ProcAt(s, i);
    ProcAt(s, a.i);
  }

  lemma WakeupCover(s: State, a: Action, i: nat, c: nat)
    requires Inv(s) && Can(s, a) && OfWakeup(a) && i < |s.procs| && c < |s.chans|
    requires LocksOk(DoWakeup(s, a))
    ensures Covered(DoWakeup(s, a), i, c)
  {
    hide Exclusive;
    assert ProcOk(s, i) && ProcOk(s, a.i) && Covered(s, i, c);
    if a.WakeLock? || a.WakeOne? { assert ProcOk(s, s.procs[a.i].pc.j); }
  }

  lemma SleepShape(s: State, a: Action, i: nat)
    requires Inv(s) && Can(s, a) && !OfLock(a) && !OfClient(a) && !OfWakeup(a) && i < |s.procs|
    ensures LocksOk(DoSleep(s, a)) && ProcOk(DoSleep(s, a), i)
  {
    hide Exclusive, Covered, Told;
    assert ProcOk(s, i) && ProcOk(s, a.i);
  }

  lemma SleepCover(s: State, a: Action, i: nat, c: nat)
    requires Inv(s) && Can(s, a) && !OfLock(a) && !OfClient(a) && !OfWakeup(a) && i < |s.procs| && c < |s.chans|
    requires LocksOk(DoSleep(s, a))
    ensures Covered(DoSleep(s, a), i, c)
  {
    hide Exclusive;
    assert ProcOk(s, i) && ProcOk(s, a.i) && Covered(s, i, c);
  }

  /** Only clients change who owns a sleep-lock and what a condition is. */
  lemma OwnsSame(s: State, a: Action)
    requires Can(s, a) && !OfClient(a)
    ensures SameOwners(s, Do(s, a))
  {
    hide Can, SameOwners, DoLock, DoWakeup, DoSleep;
    if OfLock(a) { LockOwners(s, a); } else if OfWakeup(a) { WakeupOwners(s, a); } else { SleepOwners(s, a); }
  }

  ghost predicate SameOwners(s: State, s': State) {
    && |s'.procs| == |s.procs| && |s'.chans| == |s.chans|
    && (forall i | 0 <= i < |s.procs| :: s'.procs[i].owns == s.procs[i].owns)
    && (forall c | 0 <= c < |s.chans| ::
          s'.chans[c].sleeplock == s.chans[c].sleeplock && s'.chans[c].cond == s.chans[c].cond)
  }

  lemma LockOwners(s: State, a: Action)
    requires Can(s, a) && OfLock(a)
    ensures SameOwners(s, DoLock(s, a))
  {
    hide Told;
  }

  lemma WakeupOwners(s: State, a: Action)
    requires Can(s, a) && OfWakeup(a)
    ensures SameOwners(s, DoWakeup(s, a))
  {
    hide Told;
  }

  lemma SleepOwners(s: State, a: Action)
    requires Can(s, a) && !OfLock(a) && !OfClient(a) && !OfWakeup(a)
    ensures SameOwners(s, DoSleep(s, a))
  {
    hide Told;
  }

  lemma ClientExclusive(s: State, a: Action)
    requires Exclusive(s) && Can(s, a) && OfClient(a)
    ensures Exclusive(DoClient(s, a))
  {
    var s' := DoClient(s, a);
    forall i: nat, c: nat
      ensures Owns(s', i, c) <==> (Owns(s, i, c) && !(a == Give(i, c))) || a == Take(i, c)
    {}
    if a.Give? { assert Owns(s, a.i, a.c); }
    forall i: nat, c: nat | Owns(s', i, c) ensures c < |s'.chans| && s'.chans[c].sleeplock && !s'.chans[c].cond {
      if a != Take(i, c) { assert Owns(s, i, c); }
    }
  }

  lemma StepExclusive(s: State, a: Action)
    requires Inv(s) && Can(s, a)
    ensures Exclusive(Do(s, a))
  {
    hide ProcOk, Covered, LocksOk, Can, DoLock, DoClient, DoWakeup, DoSleep;
    if OfClient(a) {
      ClientExclusive(s, a);
    } else {
      OwnsSame(s, a);
      assert forall i: nat, c: nat :: Owns(Do(s, a), i, c) <==> Owns(s, i, c);
    }
  }

  lemma StepOne(s: State, a: Action, i: nat)
    requires Inv(s) && Can(s, a) && i < |s.procs|
    ensures LocksOk(Do(s, a)) && ProcOk(Do(s, a), i)
  {
    hide Inv, Can, ProcOk, LocksOk, DoLock, DoClient, DoWakeup, DoSleep;
    if OfLock(a) { LockShape(s, a, i); }
    else if OfClient(a) { ClientShape(s, a, i); }
    else if OfWakeup(a) { WakeupShape(s, a, i); }
    else { SleepShape(s, a, i); }
  }

  lemma StepTwo(s: State, a: Action, i: nat, c: nat)
    requires Inv(s) && Can(s, a) && i < |s.procs| && c < |s.chans|
    requires LocksOk(Do(s, a)) && |Do(s, a).procs| == |s.procs| && |Do(s, a).chans| == |s.chans|
    ensures Covered(Do(s, a), i, c)
  {
    hide Inv, Can, Committed, Passed, DoLock, DoClient, DoWakeup, DoSleep;
    if OfLock(a) { LockCover(s, a, i, c); }
    else if OfClient(a) { ClientCover(s, a, i, c); }
    else if OfWakeup(a) { WakeupCover(s, a, i, c); }
    else { SleepCover(s, a, i, c); }
  }

  lemma SameSizes(s: State, a: Action)
    requires Can(s, a)
    ensures |Do(s, a).procs| == |s.procs| && |Do(s, a).chans| == |s.chans|
  {}

  /** Every step keeps the invariant. */
  lemma StepKeeps(s: State, a: Action)
    requires Inv(s) && Can(s, a)
    ensures Inv(Do(s, a))
  {
    hide Exclusive, ProcOk, Covered, LocksOk, Can, Do;
    var s' := Do(s, a);
    StepExclusive(s, a);
    SameSizes(s, a);
    assert a.i < |s.procs| by { Acts(s, a); }
    StepOne(s, a, a.i);
    forall i: nat | i < |s'.procs| ensures ProcOk(s', i) {
      StepOne(s, a, i);
    }
    forall i: nat, c: nat | i < |s'.procs| && c < |s'.chans| ensures InRange(s', c) && Covered(s', i, c) {
      RangeOk(s', c);
      StepTwo(s, a, i, c);
    }
  }

  lemma Acts(s: State, a: Action)
    requires Can(s, a)
    ensures a.i < |s.procs|
  {}

  predicate InRange(s: State, c: nat)
    requires c < |s.chans|
  {
    s.chans[c].lk < |s.locks| && s.locks[s.chans[c].lk] < |s.procs|
  }

  lemma RangeOk(s: State, c: nat)
    requires LocksOk(s) && c < |s.chans|
    ensures InRange(s, c)
  {}

  // ---- Runs ----

  /** Every process runs outside sleep() and wakeup(), every lock is free, and the sleep-locks are free. */
  predicate Init(s: State) {
    && (forall i | 0 <= i < |s.procs| :: s.procs[i] == Proc(Running, Free, false, -1, {}))
    && (forall l | 0 <= l < |s.locks| :: s.locks[l] == -1)
    && (forall c | 0 <= c < |s.chans| :: s.chans[c].lk < |s.locks| && (s.chans[c].sleeplock ==> s.chans[c].cond))
  }

  predicate Reaches(s: State, acts: seq<Action>, s': State)
    decreases |acts|
  {
    if acts == [] then s' == s else Can(s, acts[0]) && Reaches(Do(s, acts[0]), acts[1..], s')
  }

  lemma {:induction false} RunKeeps(s: State, acts: seq<Action>, s': State)
    requires (Init(s) || Inv(s)) && Reaches(s, acts, s')
    ensures Inv(s')
    decreases |acts|
  {
    hide Can, Do;
    if Init(s) { assert Inv(s); }
    if acts != [] {
      StepKeeps(s, acts[0]);
      RunKeeps(Do(s, acts[0]), acts[1..], s');
    }
  }

  /**
    No lost wakeup: in every run, while a channel's condition holds and its lock is free, no process is
    asleep on it or bound to sleep.
  */
  lemma NoLostWakeup(s: State, acts: seq<Action>, s': State, i: nat, c: nat)
    requires Init(s) && Reaches(s, acts, s') && i < |s'.procs| && c < |s'.chans|
    requires s'.chans[c].cond && s'.chans[c].lk < |s'.locks| && s'.locks[s'.chans[c].lk] == -1
    ensures !Committed(s'.procs[i], c)
  {
    RunKeeps(s, acts, s');
    assert Covered(s', i, c);
  }

  /**
    A wakeup(c) made under the channel's lock that reaches a process in sleep(c) finds it asleep on the
    channel, and wakes it, or already woken.
  */
  lemma WakeupFinds(s: State, acts: seq<Action>, s': State, w: nat)
    requires Init(s) && Reaches(s, acts, s') && Can(s', WakeOne(w)) && Holds(s', w, s'.procs[w].pc.c)
    ensures var j, c := s'.procs[w].pc.j, s'.procs[w].pc.c;
            && s'.procs[j].pc !in {Sleeping1(c), Sleeping2(c), Sleeping3(c)}
            && (s'.procs[j].sleeping && s'.procs[j].pc == Asleep(c) ==> s'.procs[j].chan == c)
            && !Committed(Do(s', WakeOne(w)).procs[j], c)
  {
    RunKeeps(s, acts, s');
    assert ProcOk(s', s'.procs[w].pc.j) && ProcOk(s', w);
  }

  /** A wakeup() wakes nobody who sleeps on another channel. */
  lemma WakeupSpares(s: State, acts: seq<Action>, s': State, w: nat)
    requires Init(s) && Reaches(s, acts, s') && Can(s', WakeOne(w))
    ensures var j, c := s'.procs[w].pc.j, s'.procs[w].pc.c;
            s'.procs[j].sleeping && s'.procs[j].pc != Asleep(c) ==> Do(s', WakeOne(w)).procs[j].sleeping
  {
    RunKeeps(s, acts, s');
    assert ProcOk(s', s'.procs[w].pc.j) && ProcOk(s', w);
  }

  /**
    Whoever releases a channel's lock with its condition true leaves nobody committed to the channel:
    releasesleep() has woken all waiters.
  */
  lemma ReleaseWakesAll(s: State, acts: seq<Action>, s': State, w: nat, i: nat, c: nat)
    requires Init(s) && Reaches(s, acts, s') && i < |s'.procs| && c < |s'.chans| && s'.chans[c].cond
    requires Can(s', Release(w, s'.chans[c].lk))
    ensures !Committed(s'.procs[i], c)
  {
    RunKeeps(s, acts, s');
    assert Covered(s', i, c);
  }

  /** In every run each sleep-lock has at most one owner. */
  lemma OneOwner(s: State, acts: seq<Action>, s': State, i: nat, k: nat, c: nat)
    requires Init(s) && Reaches(s, acts, s')
    requires Owns(s', i, c) && Owns(s', k, c)
    ensures i == k && c < |s'.chans| && !s'.chans[c].cond
  {
    hide Reaches;
    RunKeeps(s, acts, s');
    assert Exclusive(s');
  }
}
