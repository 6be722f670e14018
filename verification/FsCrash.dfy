/**
  The operations of the xv6 file system on the log: their log_write() calls as steps of the log system.
  A chunk of xv6fs_write() never panics there, and runs of whole operations, one after the other, keep
  the file system consistent through crashes anywhere (kernel/log.c, kernel/fs.c, kernel/xv6fs.c).
*/
module FsCrash {
  import L = Log
  import opened LogSystem
  import opened FsBlocks
  import opened FsFile
  import opened FsImage
  import opened FsLogged

  // ---- No panic ----

  /**
    In every run, whatever other operations do: an operation that has made its first k calls and had
    allowance left at each of them makes the next one without a panic, and goes on as one that has made
    k + 1.
  */
  lemma NeverPanics(run: seq<State>, acts: seq<Action>, op: nat, calls: seq<nat>, k: nat, data: L.Block)
    requires IsRun(run, acts) && op < |run[|acts|].ops| && k < |calls| && Reserved(calls)
    requires run[|acts|].ops[op] == Logged(calls[..k])
    requires calls[k] < |run[|acts|].disk| && !L.InLog(run[|acts|].start, calls[k])
    ensures var s := run[|acts|];
            && Inv(s) && Legal(s, Write(op, calls[k], data)) && Next(s, Write(op, calls[k], data)).Go?
            && op < |Next(s, Write(op, calls[k], data)).s.ops|
            && Next(s, Write(op, calls[k], data)).s.ops[op] == Logged(calls[..k + 1])
  {
    var s := run[|acts|];
    assert Inv(s) by { var _ := RunAtomic(run, acts); }
    assert Logged(calls[..k + 1]) == Logged(calls[..k]) + {calls[k]};
    ReservationSuffices(s, op, calls[k], data);
  }

  // ---- One operation by itself ----

  /**
    An operation: its log_write() calls in order, the state it leaves, and the buffers it leaves of the
    blocks it logged.
  */
  datatype Operation = Operation(calls: seq<nat>, bitmap: seq<bv8>, blocks: Blocks, inodes: Inodes,
                                 owner: map<nat, Slot>, spilled: set<nat>, bufs: map<nat, L.Block>)

  /** Steps i to j of the run are the operation: begin_op(), its calls, end_op(). */
  ghost predicate Steps(run: seq<State>, acts: seq<Action>, i: nat, j: nat, o: Operation) {
    && |run| == |acts| + 1 && j == i + |o.calls| + 2 <= |acts| && Quiet(run[i])
    && acts[i] == Begin && acts[j - 1] == End(0) && o.bufs.Keys == Logged(o.calls)
    && (forall k | 0 <= k < |o.calls| :: acts[i + 1 + k] == Write(0, o.calls[k], o.bufs[o.calls[k]]))
  }

  /** The buffers hold the state that the operation left. */
  ghost predicate Buffered(lay: Layout, o: Operation) {
    && (forall i | 0 <= i < |o.bitmap| && lay.bmapstart + i / BSIZE in o.bufs ::
          ByteAt(o.bufs[lay.bmapstart + i / BSIZE], i % BSIZE) as bv8 == o.bitmap[i])
    && (forall b | b in o.bufs && b in o.blocks && lay.first <= b < lay.size :: BytesOf(o.bufs[b]) == o.blocks[b])
    && (forall m | m in o.inodes && m / IPB + lay.inodestart in o.bufs ::
          InodeIn(o.bufs[m / IPB + lay.inodestart], m) == o.inodes[m])
  }

  /** The operation did to the file system on disk d what operations of the file system do. */
  ghost predicate Does(lay: Layout, start: nat, d: L.Disk, o: Operation) {
    && Apart(lay, start, d) && Buffered(lay, o) && o.bufs.Keys == Logged(o.calls)
    && Transacts(o.calls, BitmapOn(lay, start, d), BlocksOn(lay, d), InodesOn(lay, start, d), o.bitmap, o.blocks,
                 o.inodes, o.owner, o.spilled, lay.first, lay.size, lay.inodestart, lay.bmapstart)
  }

  /** The disk with the operation's buffers on it. */
  function Over(d: L.Disk, bufs: map<nat, L.Block>): (r: L.Disk)
    ensures |r| == |d|
  {
    seq(|d|, b requires 0 <= b < |d| => if b in bufs then bufs[b] else d[b])
  }

  // ---- The image afterwards ----

  /** References depend on the contents of indirect blocks only. */
  lemma OtherContents(bitmap: seq<bv8>, blocks: Blocks, blocks': Blocks, inodes: Inodes, owner: map<nat, Slot>,
                      first: nat, size: nat)
    requires FsOk(bitmap, blocks, inodes, owner, first, size) && SizesOk(inodes, blocks)
    requires forall b | first <= b < size :: b in blocks'
    requires forall b | b in owner && owner[b].IndirectBlock? :: b in blocks && b in blocks' && blocks'[b] == blocks[b]
    ensures FsOk(bitmap, blocks', inodes, owner, first, size) && SizesOk(inodes, blocks')
  {
    forall s | SlotOk(inodes, s) ensures Ref(inodes, blocks', s) == Ref(inodes, blocks, s) {
      assert Ref(inodes, blocks, IndirectBlock(s.inum)) == inodes[s.inum].addrs[NDIRECT];
    }
    SameSizes(inodes, blocks, blocks');
  }

  lemma SameSizes(inodes: Inodes, blocks: Blocks, blocks': Blocks)
    requires InodesOk(inodes) && SizesOk(inodes, blocks)
    requires forall s | SlotOk(inodes, s) :: Ref(inodes, blocks', s) == Ref(inodes, blocks, s)
    ensures SizesOk(inodes, blocks')
  {
    hide Ref;
    forall n | n in inodes ensures MappedTo(inodes, blocks', n, inodes[n].size) {
      assert MappedTo(inodes, blocks, n, inodes[n].size);
    }
  }

  lemma BitmapAfter(lay: Layout, start: nat, d: L.Disk, o: Operation)
    requires Does(lay, start, d, o)
    ensures Apart(lay, start, Over(d, o.bufs)) && BitmapOn(lay, start, Over(d, o.bufs)) == o.bitmap
  {
    hide FsOk, SizesOk, ByteAt, BlocksOn, InodesOn, InodeIn, BytesOf;
    var d', was := Over(d, o.bufs), BitmapOn(lay, start, d);
    forall i | 0 <= i < |was| ensures BitmapOn(lay, start, d')[i] == o.bitmap[i] {
      var c := lay.bmapstart + i / BSIZE;
      assert c in o.bufs <==> c in Logged(o.calls);
      assert c !in o.bufs ==> was[i] == ByteAt(d[c], i % BSIZE) as bv8 && d'[c] == d[c];
    }
  }

  lemma InodesAfter(lay: Layout, start: nat, d: L.Disk, o: Operation)
    requires Does(lay, start, d, o)
    ensures Apart(lay, start, Over(d, o.bufs)) && InodesOn(lay, start, Over(d, o.bufs)) == o.inodes
  {
    hide FsOk, SizesOk, ByteAt, BlocksOn, BitmapOn, InodeIn, BytesOf, LogsAll;
    var d', was := Over(d, o.bufs), InodesOn(lay, start, d);
    forall m | m in was ensures InodesOn(lay, start, d')[m] == o.inodes[m] {
      var c := m / IPB + lay.inodestart;
      assert c in o.bufs <==> c in o.calls;
      assert c !in o.bufs ==> was[m] == InodeIn(d[c], m) && d'[c] == d[c];
    }
  }

  lemma BlocksAfter(lay: Layout, start: nat, d: L.Disk, o: Operation, b: nat)
    requires Does(lay, start, d, o) && lay.first <= b < lay.size && b !in o.spilled
    ensures lay.size <= |d| && b in BlocksOn(lay, Over(d, o.bufs)) && b in o.blocks
    ensures BlocksOn(lay, Over(d, o.bufs))[b] == o.blocks[b]
  {
    hide OwnersOk, SizesOk, ByteAt, BitmapOn, InodesOn, InodeIn, BytesOf, Bit;
    var d', was := Over(d, o.bufs), BlocksOn(lay, d);
    assert b in was && was[b] == BytesOf(d[b]);
    assert b in o.bufs <==> b in Logged(o.calls);
  }

  lemma IndirectInRange(lay: Layout, start: nat, d: L.Disk, o: Operation, b: nat)
    requires Does(lay, start, d, o) && b in o.owner && o.owner[b].IndirectBlock?
    ensures lay.first <= b < lay.size && b !in o.spilled
  {
    hide OwnersOk, SizesOk, BlocksOn, BitmapOn, InodesOn, LogsAll, Bit;
  }

  /** An operation leaves a consistent file system on the disk that readers see. */
  lemma ImageAfter(lay: Layout, start: nat, d: L.Disk, o: Operation)
    requires Does(lay, start, d, o)
    ensures FsGood(lay, start, Over(d, o.bufs))
  {
    hide OwnersOk, BitsOk, SizesOk, BytesOf, Over, LogsAll, Buffered;
    var d' := Over(d, o.bufs);
    BitmapAfter(lay, start, d, o);
    InodesAfter(lay, start, d, o);
    forall b | b in o.owner && o.owner[b].IndirectBlock?
      ensures b in BlocksOn(lay, d') && b in o.blocks && BlocksOn(lay, d')[b] == o.blocks[b]
    {
      IndirectInRange(lay, start, d, o, b);
      BlocksAfter(lay, start, d, o, b);
    }
    OtherContents(o.bitmap, o.blocks, BlocksOn(lay, d'), o.inodes, o.owner, lay.first, lay.size);
  }

  // ---- The steps of an operation ----

  /** The buffers after the first k calls. */
  ghost function Part(o: Operation, k: nat): map<nat, L.Block>
    requires k <= |o.calls| && o.bufs.Keys == Logged(o.calls)
  {
    map b | b in Logged(o.calls[..k]) :: o.bufs[b]
  }

  lemma PartNext(o: Operation, k: nat, d: L.Disk)
    requires k < |o.calls| && o.bufs.Keys == Logged(o.calls) && o.calls[k] < |d|
    ensures Over(d, Part(o, k + 1)) == Over(d, Part(o, k))[o.calls[k] := o.bufs[o.calls[k]]]
  {
    var b := o.calls[k];
    assert Logged(o.calls[..k + 1]) == Logged(o.calls[..k]) + {b};
  }

  lemma PartWhole(o: Operation, d: L.Disk)
    requires o.bufs.Keys == Logged(o.calls)
    ensures Over(d, Part(o, |o.calls|)) == Over(d, o.bufs) && Over(d, Part(o, 0)) == d
  {
    assert o.calls[..|o.calls|] == o.calls;
    assert Part(o, |o.calls|) == o.bufs && Part(o, 0) == map[];
  }

  /** What readers see after begin_op() and k calls. */
  lemma {:induction false} StepsAt(run: seq<State>, acts: seq<Action>, i: nat, j: nat, o: Operation, k: nat)
    requires IsRun(run, acts) && Steps(run, acts, i, j, o) && k <= |o.calls|
    ensures |run[i + 1 + k].ops| == 1 && !run[i + 1 + k].phase.Recovering?
    ensures run[i + 1 + k].start == run[i].start
    ensures L.SameHome(run[i].start, View(run[i + 1 + k]), Over(View(run[i]), Part(o, k)))
  {
    hide IsRun, IsStep, View, Part, Over, L.SameHome;
    StepOf(run, acts, i + 1 + k);
    if k == 0 {
      FirstStep(run[i], run[i + 1]);
      PartWhole(o, View(run[i]));
    } else {
      StepsAt(run, acts, i, j, o, k - 1);
      WriteStep(run[i + k], o.calls[k - 1], o.bufs[o.calls[k - 1]], run[i + 1 + k], Over(View(run[i]), Part(o, k - 1)));
      PartNext(o, k - 1, View(run[i]));
    }
  }

  lemma FirstStep(s: State, s': State)
    requires Quiet(s) && IsStep(s, Begin, s')
    ensures |s'.ops| == 1 && !s'.phase.Recovering? && s'.start == s.start && L.SameHome(s.start, View(s'), View(s))
  {
    hide Inv, View;
    StepView(s, Begin);
  }

  lemma WriteStep(s: State, b: nat, data: L.Block, s': State, d: L.Disk)
    requires IsStep(s, Write(0, b, data), s') && |s.ops| == 1 && !s.phase.Recovering?
    requires L.SameHome(s.start, View(s), d)
    ensures |s'.ops| == 1 && !s'.phase.Recovering? && s'.start == s.start
    ensures b < |d| && L.SameHome(s.start, View(s'), d[b := data])
  {
    hide Inv, View;
    StepView(s, Write(0, b, data));
  }

  lemma LastStep(s: State, s': State, d: L.Disk)
    requires IsStep(s, End(0), s') && |s.ops| == 1 && !s.phase.Recovering? && L.SameHome(s.start, View(s), d)
    ensures L.SameHome(s.start, View(s'), d)
  {
    hide Inv, View;
    StepView(s, End(0));
  }

  /** An operation that runs by itself leaves readers its buffers, and a consistent file system. */
  lemma StepsKeep(run: seq<State>, acts: seq<Action>, lay: Layout, i: nat, j: nat, o: Operation)
    requires IsRun(run, acts) && Steps(run, acts, i, j, o) && Does(lay, run[i].start, View(run[i]), o)
    ensures L.SameHome(run[i].start, View(run[j]), Over(View(run[i]), o.bufs))
    ensures FsGood(lay, run[i].start, View(run[j]))
  {
    hide IsRun, IsStep, View, Part, Over, L.SameHome, Does, FsGood;
    var n := |o.calls|;
    StepsAt(run, acts, i, j, o, n);
    StepOf(run, acts, j);
    PartWhole(o, View(run[i]));
    LastStep(run[i + 1 + n], run[j], Over(View(run[i]), o.bufs));
    ImageAfter(lay, run[i].start, View(run[i]), o);
    assert Respects(d => FsGood(lay, run[i].start, d), run[i].start) by { GoodRespects(lay, run[i].start); }
  }

  // ---- Runs of operations ----

  /**
    Operations run one at a time, and each that ends is one of the file system: what it did to the file
    system it found is what the methods of the file system promise.
  */
  ghost predicate Serial(lay: Layout, run: seq<State>, acts: seq<Action>) {
    && |run| == |acts| + 1
    && forall j: nat | 0 < j <= |acts| && acts[j - 1].End? :: Ends(lay, run, acts, j)
  }

  ghost predicate Ends(lay: Layout, run: seq<State>, acts: seq<Action>, j: nat) {
    exists i: nat, o: Operation :: Performs(lay, run, acts, i, j, o)
  }

  ghost predicate Performs(lay: Layout, run: seq<State>, acts: seq<Action>, i: nat, j: nat, o: Operation) {
    Steps(run, acts, i, j, o) && (FsGood(lay, run[i].start, View(run[i])) ==> Does(lay, run[i].start, View(run[i]), o))
  }

  /** Between two quiet moments without a crash the file system stays consistent. */
  lemma {:induction false} SerialGood(lay: Layout, run: seq<State>, acts: seq<Action>, i: nat, j: nat)
    requires IsRun(run, acts) && Serial(lay, run, acts) && i <= j <= |acts| && NoCrash(acts, i, j)
    requires Quiet(run[i]) && FsGood(lay, run[0].start, View(run[i]))
    ensures !run[j].phase.Recovering?
    ensures Quiet(run[j]) ==> FsGood(lay, run[0].start, View(run[j]))
    decreases j
  {
    hide IsRun, IsStep, View, L.SameHome, Does, FsGood, Inv, Steps;
    if i < j {
      SerialGood(lay, run, acts, i, j - 1);
      StepOf(run, acts, j);
      StepStart(run[j - 1], acts[j - 1], run[j]);
      SameStart(run, acts, j - 1);
      if Quiet(run[j]) {
        if acts[j - 1].End? {
          assert Ends(lay, run, acts, j);
          var k: nat, o: Operation :| Performs(lay, run, acts, k, j, o);
          NotBetween(run, acts, k, j, o, i);
          SerialGood(lay, run, acts, i, k);
          SameStart(run, acts, k);
          StepsKeep(run, acts, lay, k, j, o);
        } else {
          QuietStep(lay, run[j - 1], acts[j - 1], run[j]);
        }
      }
    }
  }

  /** A quiet state before the end of an operation is before its begin. */
  lemma NotBetween(run: seq<State>, acts: seq<Action>, k: nat, j: nat, o: Operation, i: nat)
    requires IsRun(run, acts) && Steps(run, acts, k, j, o) && i < j && Quiet(run[i])
    ensures i <= k < j && Quiet(run[k])
  {
    hide IsRun, View, Over, Part;
    if i > k { StepsAt(run, acts, k, j, o, i - k - 1); }
  }

  lemma QuietStep(lay: Layout, s: State, a: Action, s': State)
    requires IsStep(s, a, s') && !a.End? && a != Crash && !s.phase.Recovering? && Quiet(s')
    ensures Quiet(s) && (FsGood(lay, s.start, View(s)) ==> FsGood(lay, s.start, View(s')))
  {
    hide InvLog, View, FsGood;
    StepView(s, a);
    assert Respects(d => FsGood(lay, s.start, d), s.start) by { GoodRespects(lay, s.start); }
  }

  /**
    The file system survives crashes: operations of the file system, one at a time, with crashes
    anywhere, also inside an operation, inside commit and inside recovery. Recovery always finds the
    invariants of the file system.
  */
  lemma SerialSurvives(lay: Layout, run: seq<State>, acts: seq<Action>, n: nat)
    requires |run| == |acts| + 1 && IsRun(run, acts) && Serial(lay, run, acts) && n <= |acts|
    requires FsGood(lay, run[0].start, View(run[0]))
    ensures Inv(run[n]) && FsGood(lay, run[0].start, Durable(run[n]))
  {
    hide IsRun, View, Durable, FsGood, Serial, Inv;
    var good := d => FsGood(lay, run[0].start, d);
    forall i: nat, j: nat | i <= j <= |acts| && Quiet(run[i]) && Quiet(run[j]) && NoCrash(acts, i, j)
                            && good(View(run[i]))
      ensures good(View(run[j]))
    {
      SerialGood(lay, run, acts, i, j);
    }
    FsSurvives(lay, run, acts, n);
  }

  // ---- Every reserved operation can run ----

  /** The run has come as far as begin_op() at step i and k calls of the operation. */
  ghost predicate Reached(run: seq<State>, acts: seq<Action>, s: State, i: nat, o: Operation, k: nat) {
    && |acts| == i + 1 + k && |run| == |acts| + 1 && k <= |o.calls| && o.bufs.Keys == Logged(o.calls)
    && run[i] == s && acts[i] == Begin
    && (forall m | 0 <= m < k :: acts[i + 1 + m] == Write(0, o.calls[m], o.bufs[o.calls[m]]))
    && run[|acts|].ops == [Logged(o.calls[..k])] && run[|acts|].start == s.start && |run[|acts|].disk| == |s.disk|
  }

  lemma ReachedNext(run: seq<State>, acts: seq<Action>, s: State, i: nat, o: Operation, k: nat)
    returns (run': seq<State>, acts': seq<Action>)
    requires IsRun(run, acts) && Reached(run, acts, s, i, o, k) && k < |o.calls| && Reserved(o.calls)
    requires o.calls[k] < |s.disk| && !L.InLog(s.start, o.calls[k])
    ensures IsRun(run', acts') && Reached(run', acts', s, i, o, k + 1) && acts <= acts' && run <= run'
  {
    hide IsRun, Reserved, Inv;
    var t, a := run[|acts|], Write(0, o.calls[k], o.bufs[o.calls[k]]);
    NeverPanics(run, acts, 0, o.calls, k, a.data);
    var t' := Next(t, a).s;
    Extend(run, acts, a, t');
    run', acts' := run + [t'], acts + [a];
  }

  /**
    From a quiet moment at which begin_op() does not wait, an operation whose calls had allowance left
    runs to its end: none of its steps waits or panics.
  */
  lemma OpRuns(run: seq<State>, acts: seq<Action>, o: Operation) returns (run': seq<State>, acts': seq<Action>)
    requires |run| == |acts| + 1 && IsRun(run, acts) && Quiet(run[|acts|]) && Inv(run[|acts|])
    requires Next(run[|acts|], Begin).Go?
    requires Reserved(o.calls) && o.bufs.Keys == Logged(o.calls)
    requires forall b | b in o.calls :: b < |run[|acts|].disk| && !L.InLog(run[|acts|].start, b)
    ensures IsRun(run', acts') && Steps(run', acts', |acts|, |acts'|, o) && acts <= acts' && run <= run'
    ensures Quiet(run'[|acts'|])
  {
    hide IsRun, Reserved, Inv, Reached;
    var i, s := |acts|, run[|acts|];
    run', acts' := Begun(run, acts, o);
    for k := 0 to |o.calls|
      invariant IsRun(run', acts') && Reached(run', acts', s, i, o, k) && acts <= acts' && run <= run'
    {
      assert o.calls[k] in o.calls;
      run', acts' := ReachedNext(run', acts', s, i, o, k);
    }
    run', acts' := Ended(run', acts', s, i, o);
  }

  lemma Begun(run: seq<State>, acts: seq<Action>, o: Operation) returns (run': seq<State>, acts': seq<Action>)
    requires IsRun(run, acts) && Quiet(run[|acts|]) && Inv(run[|acts|]) && Next(run[|acts|], Begin).Go?
    requires o.bufs.Keys == Logged(o.calls)
    ensures IsRun(run', acts') && Reached(run', acts', run[|acts|], |acts|, o, 0) && acts <= acts' && run <= run'
  {
    hide Inv;
    assert o.calls[..0] == [] && Logged([]) == {};
    var s' := Next(run[|acts|], Begin).s;
    Extend(run, acts, Begin, s');
    run', acts' := run + [s'], acts + [Begin];
  }

  lemma Ended(run: seq<State>, acts: seq<Action>, s: State, i: nat, o: Operation)
    returns (run': seq<State>, acts': seq<Action>)
    requires IsRun(run, acts) && Reached(run, acts, s, i, o, |o.calls|) && Quiet(s)
    ensures IsRun(run', acts') && Steps(run', acts', i, |acts'|, o) && acts <= acts' && run <= run'
    ensures Quiet(run'[|acts'|])
  {
    hide IsRun, Logged, InvLog;
    var t := run[|acts|];
    assert Inv(t) by { var _ := RunAtomic(run, acts); }
    var t' := Next(t, End(0)).s;
    Extend(run, acts, End(0), t');
    run', acts' := run + [t'], acts + [End(0)];
  }
}
