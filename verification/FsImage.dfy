/**
  The log under the file system: whatever every batch of operations keeps true of the disk as they read
  it, holds of the disk that recovery produces after a crash anywhere, and so do the ownership and size
  invariants of the xv6 file system (kernel/log.c with kernel/fs.c).
*/
module FsImage {
  import L = Log
  import opened LogSystem
  import opened FsBlocks
  import opened FsFile
  import Bytes
  import opened FsLogged

  // ---- Any invariant of the file system ----

  /** No operation is in progress, and the disk is not being recovered. */
  predicate Quiet(s: State) {
    s.ops == [] && !s.phase.Recovering?
  }

  predicate NoCrash(acts: seq<Action>, i: nat, j: nat)
    requires j <= |acts|
  {
    forall m | i <= m < j :: acts[m] != Crash
  }

  /** `good` says nothing of the log area. */
  ghost predicate Respects(good: L.Disk -> bool, start: nat) {
    forall a: L.Disk, b: L.Disk | L.SameHome(start, a, b) && good(b) :: good(a)
  }

  /**
    The disk is good at first, and every batch of operations that runs without a crash makes a good one
    of a good one.
  */
  ghost predicate KeepsGood(good: L.Disk -> bool, run: seq<State>, acts: seq<Action>)
    requires |run| == |acts| + 1
  {
    && good(View(run[0]))
    && forall i: nat, j: nat | i <= j <= |acts| && Quiet(run[i]) && Quiet(run[j]) && NoCrash(acts, i, j)
                               && good(View(run[i])) ::
         good(View(run[j]))
  }

  lemma {:induction false} PrefixRun(run: seq<State>, acts: seq<Action>, n: nat)
    requires IsRun(run, acts) && n <= |acts|
    ensures IsRun(run[..n + 1], acts[..n])
    decreases |acts|
  {
    hide IsStep, Initial;
    if n == |acts| {
      assert run[..n + 1] == run && acts[..n] == acts;
    } else {
      PrefixRun(run[..|acts|], acts[..|acts| - 1], n);
      assert run[..|acts|][..n + 1] == run[..n + 1] && acts[..|acts| - 1][..n] == acts[..n];
    }
  }

  lemma StepOf(run: seq<State>, acts: seq<Action>, n: nat)
    requires IsRun(run, acts) && 0 < n <= |acts|
    ensures IsStep(run[n - 1], acts[n - 1], run[n])
  {
    hide IsStep, Initial;
    PrefixRun(run, acts, n);
    assert run[..n + 1][n] == run[n] && run[..n + 1][n - 1] == run[n - 1];
  }

  lemma {:induction false} SameStart(run: seq<State>, acts: seq<Action>, n: nat)
    requires IsRun(run, acts) && n <= |acts|
    ensures run[n].start == run[0].start && (n == 0 ==> Initial(run[0]))
  {
    hide IsStep, Initial, Inv, Legal, Next;
    if n > 0 {
      SameStart(run, acts, n - 1);
      StepOf(run, acts, n);
      StepStart(run[n - 1], acts[n - 1], run[n]);
    } else {
      PrefixRun(run, acts, 0);
      assert run[..1][0] == run[0];
    }
  }

  lemma StepStart(s: State, a: Action, s': State)
    requires IsStep(s, a, s')
    ensures s'.start == s.start && Inv(s)
    ensures s'.phase.Recovering? <==> a == Crash || (s.phase.Recovering? && !(a == DiskWrite && s'.phase.Running?))
  {
    hide Inv;
    NextStart(s, a);
  }

  /** The step that ends recovery shows operations what recovery produced. */
  lemma RecoveryEnds(s: State, a: Action, s': State)
    requires IsStep(s, a, s') && s.phase.Recovering? && !s'.phase.Recovering?
    ensures View(s') == Durable(s) && Quiet(s')
  {
    StepView(s, a);
  }

  /**
    Every state of the run recovers to a good disk; and outside recovery there is a quiet state before
    it, with a good view and no crash since.
  */
  lemma {:induction false} ConsistentAt(good: L.Disk -> bool, run: seq<State>, acts: seq<Action>,
                                        n: nat) returns (a: nat)
    requires |run| == |acts| + 1 && IsRun(run, acts) && n <= |acts| && KeepsGood(good, run, acts)
    requires Respects(good, run[0].start)
    ensures Inv(run[n]) && good(Durable(run[n])) && a <= n
    ensures run[n].phase.Recovering? || (Quiet(run[a]) && NoCrash(acts, a, n) && good(View(run[a])))
    decreases n
  {
    hide Inv, Legal, Next, View, Durable, IsRun, L.SameHome, Initial, IsStep, Respects;
    DurableGood(good, run, acts, n);
    a := 0;
    SameStart(run, acts, 0);
    StartQuiet(run[0]);
    if n > 0 {
      a := ConsistentAt(good, run, acts, n - 1);
      StepOf(run, acts, n);
      StepStart(run[n - 1], acts[n - 1], run[n]);
      if run[n - 1].phase.Recovering? && !run[n].phase.Recovering? {
        RecoveryEnds(run[n - 1], acts[n - 1], run[n]);
        a := n;
      }
    }
  }

  lemma StartQuiet(s: State)
    requires Initial(s)
    ensures Quiet(s)
  {}

  lemma {:induction false} DurableGood(good: L.Disk -> bool, run: seq<State>, acts: seq<Action>, n: nat)
    requires |run| == |acts| + 1 && IsRun(run, acts) && n <= |acts| && KeepsGood(good, run, acts)
    requires Respects(good, run[0].start)
    ensures Inv(run[n]) && good(Durable(run[n]))
    decreases n, 0
  {
    hide Inv, Legal, Next, View, Durable, IsRun, L.SameHome, Initial, IsStep;
    PrefixRun(run, acts, n);
    var k := RunAtomic(run[..n + 1], acts[..n]);
    SameStart(run, acts, n);
    assert run[..n + 1][n] == run[n] && run[..n + 1][k] == run[k];
    if k > 0 {
      var a := ConsistentAt(good, run, acts, k);
      assert good(View(run[k]));
    }
  }

  /**
    Crash consistency: after a crash anywhere in any run, recovery produces a good disk, and whenever no
    operation is in progress what operations read is good.
  */
  lemma CrashConsistent(good: L.Disk -> bool, run: seq<State>, acts: seq<Action>, n: nat)
    requires |run| == |acts| + 1 && IsRun(run, acts) && n <= |acts| && KeepsGood(good, run, acts)
    requires Respects(good, run[0].start)
    ensures Inv(run[n]) && good(Durable(run[n])) && (Quiet(run[n]) ==> good(View(run[n])))
  {
    hide Inv, View, Durable, IsRun, Respects;
    var a := ConsistentAt(good, run, acts, n);
  }

  // ---- The file system on the disk ----

  /** The superblock: where inodes, bitmap and data are. */
  datatype Layout = Layout(size: nat, ninodes: nat, inodestart: nat, bmapstart: nat, first: nat)

  const DINODE_WORDS: nat := 16

  /** The parts of the file system lie on the disk and outside the log. */
  predicate Apart(lay: Layout, start: nat, d: L.Disk) {
    && lay.size <= |d| && 0 < lay.first && lay.size < 0x1_0000_0000
    && (forall b | lay.first <= b < lay.size :: !L.InLog(start, b))
    && (forall i | 0 <= i < (lay.size + 7) / 8 ::
          lay.bmapstart + i / BSIZE < |d| && !L.InLog(start, lay.bmapstart + i / BSIZE))
    && (forall n | 0 <= n < lay.ninodes ::
          n / IPB + lay.inodestart < |d| && !L.InLog(start, n / IPB + lay.inodestart))
  }

  function WordAt(b: L.Block, i: nat): Word
    requires i < L.BWORDS
  {
    b[i] % 0x1_0000_0000
  }

  /** Byte i of a block of little-endian words. */
  function ByteAt(b: L.Block, i: nat): Bytes.Byte
    requires i < BSIZE
  {
    var w := WordAt(b, i / 4);
    match i % 4
    case 0 => w % 0x100
    case 1 => w / 0x100 % 0x100
    case 2 => w / 0x1_0000 % 0x100
    case _ => w / 0x100_0000
  }

  function BytesOf(b: L.Block): Block {
    seq(BSIZE, i requires 0 <= i < BSIZE => ByteAt(b, i))
  }

  function BlocksOn(lay: Layout, d: L.Disk): Blocks
    requires lay.size <= |d|
  {
    map b: nat | lay.first <= b < lay.size :: BytesOf(d[b])
  }

  function BitmapOn(lay: Layout, start: nat, d: L.Disk): seq<bv8>
    requires Apart(lay, start, d)
  {
    seq((lay.size + 7) / 8, i requires 0 <= i < (lay.size + 7) / 8 =>
      ByteAt(d[lay.bmapstart + i / BSIZE], i % BSIZE) as bv8)
  }

  /** The size and addresses of inode n; type, device and link count take the first two words. */
  function InodeIn(b: L.Block, n: nat): Inode {
    var w := n % IPB * DINODE_WORDS;
    Inode(WordAt(b, w + 2), seq<Word>(NDIRECT + 1, i requires 0 <= i <= NDIRECT => WordAt(b, w + 3 + i)))
  }

  function InodesOn(lay: Layout, start: nat, d: L.Disk): Inodes
    requires Apart(lay, start, d)
  {
    map n: nat | n < lay.ninodes :: InodeIn(d[n / IPB + lay.inodestart], n)
  }

  /**
    The disk holds a consistent file system: exclusive ownership, an exact bitmap, every block below a
    file's size mapped.
  */
  ghost predicate FsGood(lay: Layout, start: nat, d: L.Disk) {
    && Apart(lay, start, d)
    && var inodes, blocks := InodesOn(lay, start, d), BlocksOn(lay, d);
       && (exists owner :: FsOk(BitmapOn(lay, start, d), blocks, inodes, owner, lay.first, lay.size))
       && InodesOk(inodes) && SizesOk(inodes, blocks)
  }

  lemma SameImage(lay: Layout, start: nat, a: L.Disk, b: L.Disk)
    requires L.SameHome(start, a, b) && Apart(lay, start, b)
    ensures Apart(lay, start, a) && BlocksOn(lay, a) == BlocksOn(lay, b)
    ensures BitmapOn(lay, start, a) == BitmapOn(lay, start, b) && InodesOn(lay, start, a) == InodesOn(lay, start, b)
  {
    hide BytesOf, ByteAt, WordAt;
  }

  /**
    The file system survives crashes: if it is consistent at first and every batch of operations that
    runs without a crash keeps it so, then recovery after a crash anywhere finds it consistent.
  */
  lemma FsSurvives(lay: Layout, run: seq<State>, acts: seq<Action>, n: nat)
    requires |run| == |acts| + 1 && IsRun(run, acts) && n <= |acts|
    requires KeepsGood(d => FsGood(lay, run[0].start, d), run, acts)
    ensures Inv(run[n]) && FsGood(lay, run[0].start, Durable(run[n]))
  {
    hide Inv, View, Durable, IsRun, KeepsGood, L.SameHome;
    var good := d => FsGood(lay, run[0].start, d);
    assert Respects(good, run[0].start) by { GoodRespects(lay, run[0].start); }
    CrashConsistent(good, run, acts, n);
  }

  lemma GoodRespects(lay: Layout, start: nat)
    ensures Respects(d => FsGood(lay, start, d), start)
  {
    hide L.SameHome;
    forall a: L.Disk, b: L.Disk | L.SameHome(start, a, b) && FsGood(lay, start, b) ensures FsGood(lay, start, a) {
      SameImage(lay, start, a, b);
    }
  }
}
