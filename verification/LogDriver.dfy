/**
  The procedures of kernel/log.c on one log device.  Each is proved to take exactly the steps
  of the log system: commit() and recover_from_log() produce, write by write, the disks that
  the crash theorems speak about.
*/
module LogDriver {
  import opened Sets
  import opened Log
  import opened LogSystem

  /** The disks that exist after each of the first j writes of commit(). */
  ghost function CommitTrace(start: nat, d: Disk, t: seq<nat>, v: seq<Block>, j: nat): (tr: seq<Disk>)
    requires Loggable(start, d, t) && |v| == |t| && j <= 2 * |t| + 2
    ensures |tr| == j
  {
    if j == 0 then [] else CommitTrace(start, d, t, v, j - 1) + [CommitPrefix(start, d, t, v, j)]
  }

  ghost function InstallTrace(start: nat, d: Disk, t: seq<nat>, k: nat): (tr: seq<Disk>)
    requires Loggable(start, d, t) && k <= |t|
    ensures |tr| == k
  {
    if k == 0 then [] else InstallTrace(start, d, t, k - 1) + [Install(start, d, t, k)]
  }

  lemma InstallStart(start: nat, d: Disk, t: seq<nat>)
    requires Loggable(start, d, t)
    ensures Install(start, d, t, 0) == d && InstallTrace(start, d, t, 0) == []
  {}

  lemma InstallNext(start: nat, d: Disk, t: seq<nat>, k: nat)
    requires Loggable(start, d, t) && k < |t|
    ensures var e := Install(start, d, t, k); Install(start, d, t, k + 1) == e[t[k] := e[start + k + 1]]
    ensures InstallTrace(start, d, t, k + 1) == InstallTrace(start, d, t, k) + [Install(start, d, t, k + 1)]
  {}

  /** The buffers still pinned once those of t were unpinned, or all in recovery. */
  ghost predicate Unpinned(before: map<nat, Block>, cache: map<nat, Block>, t: seq<nat>, recovering: bool) {
    forall b :: b in cache <==> b in before && (recovering || b !in t)
  }

  lemma UnpinNext(before: map<nat, Block>, cache: map<nat, Block>, t: seq<nat>, k: nat, recovering: bool)
    requires k < |t| && Unpinned(before, cache, t[..k], recovering)
    ensures Unpinned(before, if recovering then cache else cache - {t[k]}, t[..k + 1], recovering)
  {
    assert t[..k + 1] == t[..k] + [t[k]];
  }

  lemma {:induction false} CommitTraceSplit(start: nat, d: Disk, t: seq<nat>, v: seq<Block>, k: nat)
    requires Loggable(start, d, t) && |v| == |t| && k <= |t|
    ensures CommitTrace(start, d, t, v, |t| + 1 + k)
         == CommitTrace(start, d, t, v, |t| + 1) + InstallTrace(start, CommitPrefix(start, d, t, v, |t| + 1), t, k)
  {
    if k > 0 {
      CommitTraceSplit(start, d, t, v, k - 1);
      AfterHeader(start, d, t, v, k);
    }
  }

  /** commit() in two halves: up to the header write, then install and erase. */
  lemma CommitWhole(start: nat, d: Disk, t: seq<nat>, v: seq<Block>)
    requires Loggable(start, d, t) && |v| == |t|
    ensures var h := CommitPrefix(start, d, t, v, |t| + 1);
            var e := ClearHead(start, Install(start, h, t, |t|));
            && CommitPrefix(start, d, t, v, 2 * |t| + 2) == e
            && CommitTrace(start, d, t, v, 2 * |t| + 2)
               == CommitTrace(start, d, t, v, |t| + 1) + InstallTrace(start, h, t, |t|) + [e]
  {
    CommitLast(start, d, t, v);
    CommitTraceSplit(start, d, t, v, |t|);
  }

  lemma {:induction false} CommitTraceAt(start: nat, d: Disk, t: seq<nat>, v: seq<Block>, j: nat, i: nat)
    requires Loggable(start, d, t) && |v| == |t| && i < j <= 2 * |t| + 2
    ensures CommitTrace(start, d, t, v, j)[i] == CommitPrefix(start, d, t, v, i + 1)
  {
    if i < j - 1 { CommitTraceAt(start, d, t, v, j - 1, i); }
  }

  /**
    Every disk that exists while commit() runs recovers to the old home blocks or to all the new
    ones, whichever further crashes interrupt the recovery.
  */
  lemma TraceAtomic(start: nat, d: Disk, t: seq<nat>, v: seq<Block>, i: nat, crashes: seq<nat>)
    requires Loggable(start, d, t) && Distinct(t) && |v| == |t| && d[start][0] == 0 && i < 2 * |t| + 2
    ensures var e := CommitTrace(start, d, t, v, 2 * |t| + 2)[i];
            && ValidHead(start, e)
            && var r := Recover(start, Interrupted(start, e, crashes));
               if i < |t| then SameHome(start, r, d) else Applied(start, d, t, v, r)
  {
    hide CommitTrace, CommitPrefix, Recover, Interrupted, SameHome, Applied;
    CommitTraceAt(start, d, t, v, 2 * |t| + 2, i);
    CommitAtomic(start, d, t, v, i + 1, crashes);
  }

  /** Once every operation has ended, the log is ready for commit() ... */
  lemma CommitReady(start: nat, d: Disk, t: seq<nat>, cache: map<nat, Block>)
    requires Inv(State(start, d, Committing(d, 0), t, cache, []))
    ensures Loggable(start, d, t) && t != [] && forall b :: b in cache <==> b in t
  {}

  /** ... and after its last write the device is idle. */
  lemma CommittedIdle(start: nat, d: Disk, t: seq<nat>, v: seq<Block>)
    requires Loggable(start, d, t) && |v| == |t|
    ensures Inv(State(start, CommitPrefix(start, d, t, v, 2 * |t| + 2), Running, [], map[], []))
  {
    CommitLast(start, d, t, v);
  }

  class LogDevice {
    const start: nat
    var disk: Disk
    var cache: map<nat, Block>    // contents of the pinned buffers
    var block: seq<nat>           // lh.block[..lh.n]
    var outstanding: nat
    var committing: bool
    ghost var ops: seq<set<nat>>
    ghost var history: seq<Disk>  // the disk after every bwrite so far

    /** The device between two critical sections, as a state of the log system. */
    ghost function Abs(): State
      reads this
    {
      State(start, disk, Running, block, cache, ops)
    }

    ghost predicate Valid()
      reads this
    {
      !committing && outstanding == |ops| && Inv(Abs())
    }

    constructor (start: nat, disk: Disk)
      requires ValidHead(start, disk)
      ensures this.start == start && this.disk == disk && this.history == []
      ensures block == [] && cache == map[] && ops == [] && outstanding == 0 && !committing
    {
      this.start, this.disk := start, disk;
      cache, block, outstanding, committing := map[], [], 0, false;
      ops, history := [], [];
    }

    method Bwrite(b: nat, data: Block)
      requires b < |disk|
      modifies this`disk, this`history
      ensures disk == old(disk)[b := data] && history == old(history) + [disk]
    {
      disk := disk[b := data];
      history := history + [disk];
    }

    method WriteHead()
      requires Fits(start, disk) && |block| <= LOGBLOCKS
      modifies this`disk, this`history
      ensures disk == old(disk)[start := HeadBlock(old(disk)[start], block)]
      ensures history == old(history) + [disk]
    {
      var h := disk[start][0 := |block|];
      for i := 0 to |block|
        invariant |h| == BWORDS
        invariant forall k | 0 <= k < BWORDS ::
                    h[k] == if k == 0 then |block| else if k <= i then block[k - 1] else disk[start][k]
      {
        h := h[1 + i := block[i]];
      }
      assert h == HeadBlock(disk[start], block);
      Bwrite(start, h);
    }

    /** Copy the pinned buffers to the log. */
    method WriteLog()
      requires Loggable(start, disk, block)
      requires forall b | b in block :: b in cache
      modifies this`disk, this`history
      ensures var t := block; var v := Values(t, cache);
              && disk == CommitPrefix(start, old(disk), t, v, |t|)
              && history == old(history) + CommitTrace(start, old(disk), t, v, |t|)
    {
      ghost var t := block;
      ghost var v := Values(t, cache);
      for tail := 0 to |block|
        invariant |disk| == |old(disk)|
        invariant disk == CommitPrefix(start, old(disk), t, v, tail)
        invariant history == old(history) + CommitTrace(start, old(disk), t, v, tail)
      {
        Bwrite(start + tail + 1, cache[block[tail]]);
        assert disk == CommitPrefix(start, old(disk), t, v, tail + 1);
      }
    }

    /** Copy the log to the home blocks, unpinning them unless this is recovery. */
    method InstallTrans(recovering: bool)
      requires Loggable(start, disk, block)
      modifies this`disk, this`history, this`cache
      ensures disk == Install(start, old(disk), block, |block|)
      ensures history == old(history) + InstallTrace(start, old(disk), block, |block|)
      ensures forall b :: b in cache <==> b in old(cache) && (recovering || b !in block)
    {
      hide Install, InstallTrace;
      ghost var t := block;
      InstallStart(start, disk, t);
      for tail := 0 to |block|
        invariant |disk| == |old(disk)|
        invariant disk == Install(start, old(disk), t, tail)
        invariant history == old(history) + InstallTrace(start, old(disk), t, tail)
        invariant Unpinned(old(cache), cache, t[..tail], recovering)
      {
        InstallNext(start, old(disk), t, tail);
        UnpinNext(old(cache), cache, t, tail, recovering);
        Bwrite(block[tail], disk[start + tail + 1]);
        if !recovering {
          cache := cache - {block[tail]};
        }
      }
      assert t[..|t|] == t;
    }

    /** The first half of commit(): everything up to and including the header write. */
    method LogTransaction()
      requires Loggable(start, disk, block)
      requires forall b :: b in cache <==> b in block
      modifies this`disk, this`history
      ensures var t := block; var v := Values(t, cache);
              && disk == CommitPrefix(start, old(disk), t, v, |t| + 1)
              && history == old(history) + CommitTrace(start, old(disk), t, v, |t| + 1)
    {
      WriteLog();
      WriteHead();
    }

    /** The second half: install the logged blocks and clear the header. */
    method InstallAndErase()
      requires Loggable(start, disk, block)
      requires forall b :: b in cache ==> b in block
      modifies this`disk, this`history, this`cache, this`block
      ensures var t := old(block);
              && disk == ClearHead(start, Install(start, old(disk), t, |t|))
              && history == old(history) + InstallTrace(start, old(disk), t, |t|) + [disk]
      ensures block == [] && cache == map[]
    {
      InstallTrans(false);
      block := [];
      WriteHead();
    }

    method Commit()
      requires Loggable(start, disk, block)
      requires forall b :: b in cache <==> b in block
      modifies this`disk, this`history, this`cache, this`block
      ensures var t := old(block); var v := Values(t, old(cache));
              && block == [] && cache == map[]
              && if old(block) == [] then disk == old(disk) && history == old(history)
                 else && disk == CommitPrefix(start, old(disk), t, v, 2 * |t| + 2)
                      && history == old(history) + CommitTrace(start, old(disk), t, v, 2 * |t| + 2)
    {
      ghost var t := block;
      ghost var v := Values(t, cache);
      hide CommitPrefix, CommitTrace, Install, InstallTrace, Loggable, Values;
      if block != [] {
        LogTransaction();
        InstallAndErase();
        CommitWhole(start, old(disk), t, v);
      }
    }

    method ReadHead()
      requires ValidHead(start, disk)
      modifies this`block
      ensures block == Targets(start, disk)
    {
      block := [];
      for i := 0 to disk[start][0]
        invariant block == Targets(start, disk)[..i]
      {
        block := block + [disk[start][1 + i]];
      }
    }

    /** initlog(): afterwards the device is idle and its disk is the recovered one. */
    method RecoverFromLog()
      requires ValidHead(start, disk)
      requires !committing && outstanding == 0 && ops == [] && cache == map[]
      modifies this`disk, this`history, this`block, this`cache
      ensures var t := Targets(start, old(disk));
              && disk == Recover(start, old(disk))
              && history == old(history) + InstallTrace(start, old(disk), t, |t|) + [disk]
      ensures Valid() && Initial(Abs())
    {
      ReadHead();
      InstallTrans(true);
      block := [];
      WriteHead();
    }

    /** One pass of the waiting loop of begin_op(); false means the caller sleeps and tries again. */
    method BeginOp() returns (ok: bool)
      requires Valid()
      modifies this`outstanding, this`ops
      ensures Valid()
      ensures old(Next(Abs(), Begin)) == if ok then Go(Abs()) else Sleep
      ensures !ok ==> Abs() == old(Abs())
    {
      ok := !(committing || |block| + (outstanding + 1) * MAXOPBLOCKS > LOGBLOCKS);
      if ok {
        BeginKeeps(Abs());
        outstanding := outstanding + 1;
        ops := ops + [{}];
      }
    }

    /** The absorption scan of log_write(): the first slot that holds b, or lh.n. */
    method Find(b: nat) returns (i: nat)
      ensures i <= |block| && b !in block[..i] && (i < |block| ==> block[i] == b)
    {
      i := 0;
      while i < |block| && block[i] != b
        invariant i <= |block| && b !in block[..i]
      {
        i := i + 1;
      }
    }

    /** log_write() after the caller changed the buffer of block b to `data`; false means a panic. */
    method LogWrite(ghost op: nat, b: nat, data: Block) returns (ok: bool)
      requires Valid() && Legal(Abs(), Write(op, b, data))
      modifies this`cache, this`block, this`ops
      ensures Valid()
      ensures old(Next(Abs(), Write(op, b, data))) == if ok then Go(Abs()) else Panic
    {
      hide InvLog, InvPhase;
      if |block| >= LOGBLOCKS || outstanding < 1 {
        return false;
      }
      ghost var s' := Next(Abs(), Write(op, b, data)).s;
      WriteKeeps(Abs(), op, b, data);
      var i := Find(b);
      block := if i == |block| then block + [b] else block[i := b];
      assert block == s'.block;
      cache := cache[b := data];
      ops := ops[op := ops[op] + {b}];
      assert Abs() == s';
      ok := true;
    }

    /** end_op() when no operation is left: commit everything logged since the previous commit. */
    method LastOut()
      requires Inv(State(start, disk, Committing(disk, 0), block, cache, []))
      requires ops == [] && outstanding == 0
      modifies this`disk, this`history, this`cache, this`block, this`committing
      ensures Valid() && block == [] && cache == map[]
      ensures var t := old(block); var v := Values(t, old(cache));
              && disk == CommitPrefix(start, old(disk), t, v, 2 * |t| + 2)
              && history == old(history) + CommitTrace(start, old(disk), t, v, 2 * |t| + 2)
    {
      hide InvPhase, CommitPrefix, CommitTrace;
      CommitReady(start, disk, block, cache);
      CommittedIdle(start, disk, block, Values(block, cache));
      committing := true;
      Commit();
      committing := false;
    }

    /** end_op(): only the last operation out writes to the disk. */
    method EndOp(ghost op: nat)
      requires Valid() && op < |ops|
      modifies this`disk, this`history, this`cache, this`block, this`outstanding, this`ops, this`committing
      ensures Valid() && ops == old(ops)[..op] + old(ops)[op + 1..]
      ensures var t := old(block); var v := Values(t, old(cache));
              if outstanding > 0 || old(block) == []
              then disk == old(disk) && history == old(history) && cache == old(cache) && block == old(block)
              else && disk == CommitPrefix(start, old(disk), t, v, 2 * |t| + 2)
                   && history == old(history) + CommitTrace(start, old(disk), t, v, 2 * |t| + 2)
                   && block == [] && cache == map[]
    {
      EndKeeps(Abs(), op);
      hide InvLog, InvPhase, CommitPrefix, CommitTrace;
      ghost var s' := Next(Abs(), End(op)).s;
      outstanding := outstanding - 1;
      ops := ops[..op] + ops[op + 1..];
      if outstanding == 0 && block != [] {
        assert s' == State(start, disk, Committing(disk, 0), block, cache, []);
        LastOut();
      } else {
        assert s' == Abs();
      }
    }
  }
}
