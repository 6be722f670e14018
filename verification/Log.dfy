/**
  The write-ahead log (kernel/log.c): group commit, crash recovery and the
  reservation of log space.

  A disk is a sequence of blocks; a block is a sequence of 32-bit words, because
  the log header is an array of ints.  One `bwrite` is one atomic step.  A crash
  loses everything except the disk.
*/
module Log {
  import opened Sets

  const MAXOPBLOCKS: nat := 10
  const LOGBLOCKS: nat := MAXOPBLOCKS * 3
  const BWORDS: nat := 256 // BSIZE / sizeof(int)

  type Block = b: seq<int> | |b| == BWORDS witness seq(BWORDS, _ => 0)
  type Disk = seq<Block>

  // ---- The on-disk log ----

  /** The header block and the LOGBLOCKS blocks after it. */
  predicate InLog(start: nat, b: int) {
    start <= b <= start + LOGBLOCKS
  }

  predicate Fits(start: nat, d: Disk) {
    start + LOGBLOCKS < |d|
  }

  /** Block numbers a transaction may name: on the disk and outside the log area. */
  predicate Loggable(start: nat, d: Disk, t: seq<nat>) {
    && Fits(start, d)
    && |t| <= LOGBLOCKS
    && forall i | 0 <= i < |t| :: t[i] < |d| && !InLog(start, t[i])
  }

  predicate ValidHead(start: nat, d: Disk) {
    && Fits(start, d)
    && 0 <= d[start][0] <= LOGBLOCKS
    && forall i | 1 <= i <= d[start][0] :: 0 <= d[start][i] < |d| && !InLog(start, d[start][i])
  }

  /** lh->block[0..lh->n] as read by read_head(). */
  function Targets(start: nat, d: Disk): (t: seq<nat>)
    requires ValidHead(start, d)
    ensures |t| == d[start][0] && Loggable(start, d, t)
  {
    var t := d[start][1..1 + d[start][0]];
    assert forall i | 0 <= i < |t| :: t[i] == d[start][1 + i];
    t
  }

  /** The header block that write_head() produces: words past the n-th entry keep their value. */
  function HeadBlock(h: Block, t: seq<nat>): Block
    requires |t| <= LOGBLOCKS
  {
    seq(BWORDS, i requires 0 <= i < BWORDS => if i == 0 then |t| else if i <= |t| then t[i - 1] else h[i])
  }

  function ClearHead(start: nat, d: Disk): (e: Disk)
    requires Fits(start, d)
    ensures |e| == |d|
  {
    d[start := HeadBlock(d[start], [])]
  }

  /** install_trans() after k of its home writes. */
  function Install(start: nat, d: Disk, t: seq<nat>, k: nat): (e: Disk)
    requires Loggable(start, d, t) && k <= |t|
    ensures |e| == |d|
    ensures forall b | 0 <= b < |d| && b !in t[..k] :: e[b] == d[b]
    ensures forall b | 0 <= b < |d| && InLog(start, b) :: e[b] == d[b]
  {
    if k == 0 then d
    else
      var e := Install(start, d, t, k - 1);
      e[t[k - 1] := e[start + k]]
  }

  /** The disk after j of the writes of recover_from_log(): |t| home writes, then the header. */
  function RecoverPrefix(start: nat, d: Disk, j: nat): (e: Disk)
    requires ValidHead(start, d)
    requires j <= |Targets(start, d)| + 1
    ensures |e| == |d|
  {
    var t := Targets(start, d);
    if j <= |t| then Install(start, d, t, j) else ClearHead(start, Install(start, d, t, |t|))
  }

  /** The disk after a recovery that runs to completion. */
  function Recover(start: nat, d: Disk): (e: Disk)
    requires ValidHead(start, d)
    ensures |e| == |d|
  {
    RecoverPrefix(start, d, |Targets(start, d)| + 1)
  }

  /** Agreement on every block outside the log area. */
  predicate SameHome(start: nat, a: Disk, b: Disk) {
    |a| == |b| && forall i | 0 <= i < |a| && !InLog(start, i) :: a[i] == b[i]
  }

  /** Installing over a partial install reaches the same disk; no distinctness is needed. */
  lemma {:induction false} InstallAgain(start: nat, d: Disk, t: seq<nat>, j: nat, k: nat)
    requires Loggable(start, d, t) && j <= |t| && k <= |t|
    ensures var p := Install(start, d, t, j);
            Loggable(start, p, t) &&
            forall b | 0 <= b < |d| ::
              Install(start, p, t, k)[b] == if b in t[..k] then Install(start, d, t, k)[b] else p[b]
  {
    var p := Install(start, d, t, j);
    if k > 0 {
      InstallAgain(start, d, t, j, k - 1);
      assert t[..k] == t[..k - 1] + [t[k - 1]];
    }
  }

  lemma InstallPrefix(start: nat, d: Disk, t: seq<nat>, j: nat)
    requires Loggable(start, d, t) && j <= |t|
    ensures var p := Install(start, d, t, j);
            Loggable(start, p, t) && Install(start, p, t, |t|) == Install(start, d, t, |t|)
  {
    InstallAgain(start, d, t, j, |t|);
    assert forall b | b in t[..j] :: b in t[..|t|];
  }

  /** Crashing after any number of recovery writes does not change what recovery produces. */
  lemma RecoverResumes(start: nat, d: Disk, j: nat)
    requires ValidHead(start, d)
    requires j <= |Targets(start, d)| + 1
    ensures ValidHead(start, RecoverPrefix(start, d, j))
    ensures Recover(start, RecoverPrefix(start, d, j)) == Recover(start, d)
  {
    var t := Targets(start, d);
    var p := RecoverPrefix(start, d, j);
    if j <= |t| {
      assert p[start] == d[start];
      assert Targets(start, p) == t;
      InstallPrefix(start, d, t, j);
    } else {
      assert Targets(start, p) == [];
      assert p[start] == HeadBlock(p[start], []);
    }
  }

  /** Any number of interrupted recoveries, the i-th stopped after crashes[i] writes (or complete). */
  function Interrupted(start: nat, d: Disk, crashes: seq<nat>): (e: Disk)
    requires ValidHead(start, d)
    ensures ValidHead(start, e)
    decreases |crashes|
  {
    if crashes == [] then d
    else
      var j := if crashes[0] <= |Targets(start, d)| then crashes[0] else |Targets(start, d)| + 1;
      RecoverResumes(start, d, j);
      Interrupted(start, RecoverPrefix(start, d, j), crashes[1..])
  }

  lemma {:induction false} RecoverIdempotent(start: nat, d: Disk, crashes: seq<nat>)
    requires ValidHead(start, d)
    ensures Recover(start, Interrupted(start, d, crashes)) == Recover(start, d)
    decreases |crashes|
  {
    if crashes != [] {
      var j := if crashes[0] <= |Targets(start, d)| then crashes[0] else |Targets(start, d)| + 1;
      RecoverResumes(start, d, j);
      RecoverIdempotent(start, RecoverPrefix(start, d, j), crashes[1..]);
    }
  }

  // ---- Commit ----

  /** One block write of commit(), the (j+1)-st: v[i] is the cached content of home block t[i]. */
  function CommitWrite(start: nat, d: Disk, t: seq<nat>, v: seq<Block>, j: nat): (e: Disk)
    requires Loggable(start, d, t) && |v| == |t| && j <= 2 * |t| + 1
    ensures |e| == |d|
  {
    var n := |t|;
    if j < n then d[start + 1 + j := v[j]]                              // write_log
    else if j == n then d[start := HeadBlock(d[start], t)]              // write_head
    else if j <= 2 * n then d[t[j - n - 1] := d[start + (j - n)]]       // install_trans
    else ClearHead(start, d)                                            // write_head, n == 0
  }

  /** The disk after the first j writes of commit() from disk d. */
  function CommitPrefix(start: nat, d: Disk, t: seq<nat>, v: seq<Block>, j: nat): (e: Disk)
    requires Loggable(start, d, t) && |v| == |t| && j <= 2 * |t| + 2
    ensures |e| == |d|
  {
    if j == 0 then d else CommitWrite(start, CommitPrefix(start, d, t, v, j - 1), t, v, j - 1)
  }

  /** Disk d with the transaction applied: every t[i] holds v[i]. */
  predicate Applied(start: nat, d: Disk, t: seq<nat>, v: seq<Block>, e: Disk)
    requires Loggable(start, d, t) && |v| == |t|
  {
    && |e| == |d|
    && (forall i | 0 <= i < |t| :: e[t[i]] == v[i])
    && (forall b | 0 <= b < |d| && !InLog(start, b) && b !in t :: e[b] == d[b])
  }

  /** Before the header write: only log blocks have changed, and the header is still empty. */
  lemma {:induction false} BeforeHeader(start: nat, d: Disk, t: seq<nat>, v: seq<Block>, j: nat)
    requires Loggable(start, d, t) && |v| == |t| && j <= |t|
    ensures var e := CommitPrefix(start, d, t, v, j);
            && e[start] == d[start]
            && (forall i | 0 <= i < j :: e[start + 1 + i] == v[i])
            && SameHome(start, e, d)
  {
    if j > 0 { BeforeHeader(start, d, t, v, j - 1); }
  }

  /** At the header write: header and log blocks describe the whole transaction. */
  lemma HeaderWritten(start: nat, d: Disk, t: seq<nat>, v: seq<Block>)
    requires Loggable(start, d, t) && |v| == |t|
    ensures var h := CommitPrefix(start, d, t, v, |t| + 1);
            && h[start] == HeadBlock(d[start], t)
            && (forall i | 0 <= i < |t| :: h[start + 1 + i] == v[i])
            && SameHome(start, h, d)
            && ValidHead(start, h) && Targets(start, h) == t
  {
    BeforeHeader(start, d, t, v, |t|);
    var p := CommitPrefix(start, d, t, v, |t|);
    var h := CommitWrite(start, p, t, v, |t|);
    assert CommitPrefix(start, d, t, v, |t| + 1) == h;
    assert Targets(start, h) == t;
  }

  /** After the header write: the install is under way. */
  lemma {:induction false} AfterHeader(start: nat, d: Disk, t: seq<nat>, v: seq<Block>, k: nat)
    requires Loggable(start, d, t) && |v| == |t| && k <= |t|
    ensures CommitPrefix(start, d, t, v, |t| + 1 + k)
         == Install(start, CommitPrefix(start, d, t, v, |t| + 1), t, k)
  {
    if k > 0 {
      AfterHeader(start, d, t, v, k - 1);
      var p := CommitPrefix(start, d, t, v, |t| + k);
      assert CommitPrefix(start, d, t, v, |t| + 1 + k) == CommitWrite(start, p, t, v, |t| + k);
    }
  }

  lemma {:induction false} InstallCopies(start: nat, d: Disk, t: seq<nat>, k: nat)
    requires Loggable(start, d, t) && Distinct(t) && k <= |t|
    ensures forall i | 0 <= i < k :: Install(start, d, t, k)[t[i]] == d[start + 1 + i]
  {
    if k > 0 { InstallCopies(start, d, t, k - 1); }
  }

  /** Recovery from a crash before the header write finds an empty log. */
  lemma RecoverUncommitted(start: nat, d: Disk, t: seq<nat>, v: seq<Block>, j: nat)
    requires Loggable(start, d, t) && |v| == |t| && d[start][0] == 0 && j <= |t|
    ensures var e := CommitPrefix(start, d, t, v, j);
            ValidHead(start, e) && Recover(start, e) == ClearHead(start, e) && SameHome(start, Recover(start, e), d)
  {
    BeforeHeader(start, d, t, v, j);
    assert Targets(start, CommitPrefix(start, d, t, v, j)) == [];
  }

  /** The disk install_trans() leaves during commit, before the header is cleared. */
  function Installed(start: nat, d: Disk, t: seq<nat>, v: seq<Block>): (e: Disk)
    requires Loggable(start, d, t) && |v| == |t|
    ensures |e| == |d|
  {
    Install(start, CommitPrefix(start, d, t, v, |t| + 1), t, |t|)
  }

  lemma InstalledApplied(start: nat, d: Disk, t: seq<nat>, v: seq<Block>)
    requires Loggable(start, d, t) && Distinct(t) && |v| == |t|
    ensures Applied(start, d, t, v, Installed(start, d, t, v))
    ensures Applied(start, d, t, v, ClearHead(start, Installed(start, d, t, v)))
  {
    HeaderWritten(start, d, t, v);
    InstallCopies(start, CommitPrefix(start, d, t, v, |t| + 1), t, |t|);
    assert t[..|t|] == t;
  }

  /** Recovery from a crash after the header write completes the install. */
  lemma RecoverMidInstall(start: nat, d: Disk, t: seq<nat>, v: seq<Block>, k: nat)
    requires Loggable(start, d, t) && |v| == |t| && k <= |t|
    ensures var e := CommitPrefix(start, d, t, v, |t| + 1 + k);
            ValidHead(start, e) && Recover(start, e) == ClearHead(start, Installed(start, d, t, v))
  {
    var h := CommitPrefix(start, d, t, v, |t| + 1);
    HeaderWritten(start, d, t, v);
    AfterHeader(start, d, t, v, k);
    assert CommitPrefix(start, d, t, v, |t| + 1 + k) == RecoverPrefix(start, h, k);
    RecoverResumes(start, h, k);
  }

  /** A cleared log is a fixed point of recovery. */
  lemma RecoverCleared(start: nat, d: Disk)
    requires Fits(start, d)
    ensures var e := ClearHead(start, d); ValidHead(start, e) && Recover(start, e) == e
  {
    var e := ClearHead(start, d);
    assert Targets(start, e) == [];
    assert HeadBlock(e[start], []) == e[start];
  }

  lemma CommitLast(start: nat, d: Disk, t: seq<nat>, v: seq<Block>)
    requires Loggable(start, d, t) && |v| == |t|
    ensures CommitPrefix(start, d, t, v, 2 * |t| + 2) == ClearHead(start, Installed(start, d, t, v))
  {
    var p := CommitPrefix(start, d, t, v, 2 * |t| + 1);
    assert p == Installed(start, d, t, v) by { AfterHeader(start, d, t, v, |t|); }
    assert CommitPrefix(start, d, t, v, 2 * |t| + 2) == CommitWrite(start, p, t, v, 2 * |t| + 1);
  }

  lemma RecoverDone(start: nat, d: Disk, t: seq<nat>, v: seq<Block>)
    requires Loggable(start, d, t) && |v| == |t|
    ensures var e := CommitPrefix(start, d, t, v, 2 * |t| + 2);
            ValidHead(start, e) && Recover(start, e) == ClearHead(start, Installed(start, d, t, v))
  {
    CommitLast(start, d, t, v);
    RecoverCleared(start, Installed(start, d, t, v));
  }

  /**
    Crash atomicity of commit(): a crash after any number j of its block writes, followed by
    any number of interrupted recoveries and one complete one, leaves every home block old
    when the header write was not reached (j <= n) and the whole transaction applied otherwise.
  */
  lemma CommitAtomic(start: nat, d: Disk, t: seq<nat>, v: seq<Block>, j: nat, crashes: seq<nat>)
    requires Loggable(start, d, t) && Distinct(t) && |v| == |t| && d[start][0] == 0
    requires j <= 2 * |t| + 2
    ensures var e := CommitPrefix(start, d, t, v, j);
            && ValidHead(start, e)
            && var r := Recover(start, Interrupted(start, e, crashes));
               && r[start][0] == 0
               && if j <= |t| then SameHome(start, r, d) else Applied(start, d, t, v, r)
  {
    hide CommitPrefix, Recover, Interrupted, Installed, ValidHead;
    if j <= |t| {
      RecoverUncommitted(start, d, t, v, j);
    } else {
      InstalledApplied(start, d, t, v);
      if j == 2 * |t| + 2 {
        RecoverDone(start, d, t, v);
      } else {
        RecoverMidInstall(start, d, t, v, j - |t| - 1);
      }
    }
    RecoverIdempotent(start, CommitPrefix(start, d, t, v, j), crashes);
  }
}
