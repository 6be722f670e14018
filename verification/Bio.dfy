/**
  The buffer cache (kernel/bio.c).  Bget, Acquire, Fill, Modify, Bwrite, Bpin, Bunpin, Unlock and Drop
  are one critical section each, so every interleaving of processes is a sequence of calls of these;
  Bread and Brelse are the sequences a single process makes.  As long as clients write or pin what
  they change before the last release, the cache is invisible: what a reader of block k gets is what
  the last writer of k left, whether or not it is cached.
*/
module Bio {
  import opened BufList

  const NDISK: nat := 3 // HAL_NDISK

  type Block = seq<nat>
  datatype Key = Key(dev: nat, blockno: nat)
  type Disk = map<Key, Block>

  /** holder is the pid that has the sleep-lock, or 0. */
  datatype Buf = Buf(key: Key, valid: bool, refcnt: nat, holder: nat, data: Block)

  function OnDisk(disk: Disk, k: Key): Block {
    if k in disk then disk[k] else []
  }

  predicate Caches(b: Buf, k: Key) {
    b.valid && b.key == k
  }

  /** At most one buffer per block; buffers that were never used share device 0. */
  predicate Unique(bufs: seq<Buf>) {
    forall i, j | 0 <= i < j < |bufs| && bufs[i].key.dev > 0 :: bufs[i].key != bufs[j].key
  }

  /** A buffer that may be recycled holds nothing the disk does not. */
  predicate Clean(b: Buf, disk: Disk) {
    b.valid ==> b.data == OnDisk(disk, b.key)
  }

  predicate BufsOk(bufs: seq<Buf>) {
    && Unique(bufs)
    && forall i | 0 <= i < |bufs| ::
         (bufs[i].refcnt == 0 ==> bufs[i].holder == 0) && (bufs[i].key.dev == 0 ==> !bufs[i].valid)
  }

  /** What clients owe the cache: no buffer that nobody references holds an unwritten change. */
  predicate Tidy(bufs: seq<Buf>, disk: Disk) {
    forall i | 0 <= i < |bufs| && bufs[i].refcnt == 0 :: Clean(bufs[i], disk)
  }

  /** The contents of block k as every reader sees them. */
  ghost function View(bufs: seq<Buf>, disk: Disk, k: Key): Block {
    if exists i :: 0 <= i < |bufs| && Caches(bufs[i], k)
    then var i :| 0 <= i < |bufs| && Caches(bufs[i], k); bufs[i].data
    else OnDisk(disk, k)
  }

  lemma ViewCached(bufs: seq<Buf>, disk: Disk, i: nat)
    requires Unique(bufs) && i < |bufs| && bufs[i].valid && bufs[i].key.dev > 0
    ensures View(bufs, disk, bufs[i].key) == bufs[i].data
  {
    assert Caches(bufs[i], bufs[i].key);
  }

  /** Replacing one buffer: the views that can change are those of its old and new block. */
  lemma ViewFrame(bufs: seq<Buf>, disk: Disk, i: nat, b: Buf, disk': Disk, k: Key)
    requires i < |bufs| && BufsOk(bufs) && BufsOk(bufs[i := b])
    requires OnDisk(disk, k) == OnDisk(disk', k)
    requires Caches(bufs[i], k) <==> Caches(b, k)
    requires Caches(b, k) ==> b.data == bufs[i].data
    ensures View(bufs[i := b], disk', k) == View(bufs, disk, k)
  {
    var bufs' := bufs[i := b];
    if j :| 0 <= j < |bufs| && Caches(bufs[j], k) {
      assert Caches(bufs'[j], k);
      ViewCached(bufs, disk, j);
      ViewCached(bufs', disk', j);
    } else {
      assert forall j | 0 <= j < |bufs| :: !Caches(bufs[j], k);
      assert forall j | 0 <= j < |bufs| :: !Caches(bufs'[j], k);
    }
  }

  lemma ViewUncached(bufs: seq<Buf>, disk: Disk, k: Key)
    requires forall i | 0 <= i < |bufs| :: !Caches(bufs[i], k)
    ensures View(bufs, disk, k) == OnDisk(disk, k)
  {}

  ghost predicate SameViews(bufs: seq<Buf>, disk: Disk, bufs': seq<Buf>, disk': Disk) {
    forall k :: View(bufs', disk', k) == View(bufs, disk, k)
  }

  /**
    Recycling an unreferenced buffer for a block that is not cached loses an unwritten change it held,
    and nothing else.
  */
  lemma Recycle(bufs: seq<Buf>, disk: Disk, i: nat, key: Key)
    requires BufsOk(bufs) && i < |bufs| && bufs[i].refcnt == 0 && key.dev > 0
    requires forall j | 0 <= j < |bufs| :: bufs[j].key != key
    ensures var bufs' := bufs[i := Buf(key, false, 1, 0, bufs[i].data)];
            && BufsOk(bufs') && (Tidy(bufs, disk) ==> Tidy(bufs', disk))
            && (forall k :: View(bufs', disk, k) == if Caches(bufs[i], k) then OnDisk(disk, k) else View(bufs, disk, k))
            && (Clean(bufs[i], disk) <==> SameViews(bufs, disk, bufs', disk))
  {
    var b := Buf(key, false, 1, 0, bufs[i].data);
    var bufs' := bufs[i := b];
    forall k ensures View(bufs', disk, k) == if Caches(bufs[i], k) then OnDisk(disk, k) else View(bufs, disk, k) {
      if Caches(bufs[i], k) {
        assert forall j | 0 <= j < |bufs| :: !Caches(bufs'[j], k);
      } else {
        ViewFrame(bufs, disk, i, b, disk, k);
      }
    }
    if bufs[i].valid {
      ViewCached(bufs, disk, i);
      assert Caches(bufs[i], bufs[i].key);
    }
  }

  /** Changing only counts and the lock of a buffer changes no view. */
  lemma Recount(bufs: seq<Buf>, disk: Disk, i: nat, refcnt: nat, holder: nat)
    requires BufsOk(bufs) && i < |bufs| && (refcnt == 0 ==> holder == 0)
    ensures var bufs' := bufs[i := bufs[i].(refcnt := refcnt, holder := holder)];
            && BufsOk(bufs') && SameViews(bufs, disk, bufs', disk)
            && (Tidy(bufs', disk) <== Tidy(bufs, disk) && (refcnt == 0 ==> Clean(bufs[i], disk)))
            && (refcnt == 0 && !Clean(bufs[i], disk) ==> !Tidy(bufs', disk))
  {
    var b := bufs[i].(refcnt := refcnt, holder := holder);
    assert bufs[i := b][i] == b && (Clean(b, disk) <==> Clean(bufs[i], disk));
    forall k ensures View(bufs[i := b], disk, k) == View(bufs, disk, k) {
      ViewFrame(bufs, disk, i, b, disk, k);
    }
  }

  /** Reading an uncached block in. */
  lemma FillFromDisk(bufs: seq<Buf>, disk: Disk, i: nat)
    requires BufsOk(bufs) && i < |bufs| && !bufs[i].valid && bufs[i].key.dev > 0 && bufs[i].refcnt > 0
    ensures var bufs' := bufs[i := bufs[i].(valid := true, data := OnDisk(disk, bufs[i].key))];
            BufsOk(bufs') && SameViews(bufs, disk, bufs', disk) && (Tidy(bufs, disk) ==> Tidy(bufs', disk))
  {
    var b := bufs[i].(valid := true, data := OnDisk(disk, bufs[i].key));
    var bufs' := bufs[i := b];
    forall k ensures View(bufs', disk, k) == View(bufs, disk, k) {
      if k == b.key {
        ViewCached(bufs', disk, i);
        ViewUncached(bufs, disk, k);
      } else {
        ViewFrame(bufs, disk, i, b, disk, k);
      }
    }
  }

  /** Writing a buffer out. */
  lemma WriteToDisk(bufs: seq<Buf>, disk: Disk, i: nat)
    requires BufsOk(bufs) && i < |bufs| && bufs[i].valid
    ensures var disk' := disk[bufs[i].key := bufs[i].data];
            SameViews(bufs, disk, bufs, disk') && Clean(bufs[i], disk') && (Tidy(bufs, disk) ==> Tidy(bufs, disk'))
  {
    var disk' := disk[bufs[i].key := bufs[i].data];
    forall k ensures View(bufs, disk', k) == View(bufs, disk, k) {
      if k == bufs[i].key {
        ViewCached(bufs, disk, i);
        ViewCached(bufs, disk', i);
      } else {
        assert bufs[i := bufs[i]] == bufs;
        ViewFrame(bufs, disk, i, bufs[i], disk', k);
      }
    }
  }

  /** A client changing the data of a buffer changes the view of that block only. */
  lemma ModifyView(bufs: seq<Buf>, disk: Disk, i: nat, data: Block)
    requires BufsOk(bufs) && i < |bufs| && bufs[i].valid && bufs[i].refcnt > 0
    ensures var bufs' := bufs[i := bufs[i].(data := data)];
            && BufsOk(bufs') && (Tidy(bufs, disk) ==> Tidy(bufs', disk))
            && forall k :: View(bufs', disk, k) == if k == bufs[i].key then data else View(bufs, disk, k)
  {
    var b := bufs[i].(data := data);
    var bufs' := bufs[i := b];
    forall k ensures View(bufs', disk, k) == if k == bufs[i].key then data else View(bufs, disk, k) {
      if k == b.key {
        ViewCached(bufs', disk, i);
      } else {
        ViewFrame(bufs, disk, i, b, disk, k);
      }
    }
  }

  // ---- The cache ----

  /** What bread() comes to: null, the panic of bget(), a wait for the sleep-lock, or a locked buffer. */
  datatype BreadResult = NoDevice | NoBuffer | Waits(b: nat) | Got(b: nat)

  class Bcache {
    var next: seq<nat>       // indices into bufs; the last index, |bufs|, is bcache.head
    var prev: seq<nat>
    var bufs: seq<Buf>
    var disk: Disk
    ghost var order: seq<nat> // all buffers, most recently used first

    ghost predicate Valid()
      reads this
    {
      && |next| == |bufs| + 1 && ListOk(next, prev, order, |bufs|)
      && |order| == |bufs| && (forall i | 0 <= i < |bufs| :: i in order)
      && BufsOk(bufs)
    }

    /** binit(): n empty buffers. */
    constructor (n: nat, disk: Disk)
      ensures Valid() && |bufs| == n && this.disk == disk && Tidy(bufs, disk)
      ensures forall k :: View(bufs, this.disk, k) == OnDisk(disk, k)
      ensures forall i | 0 <= i < n :: bufs[i].refcnt == 0
    {
      this.disk := disk;
      bufs := seq(n, _ => Buf(Key(0, 0), false, 0, 0, []));
      next := seq(n + 1, _ => n);
      prev := seq(n + 1, _ => n);
      order := [];
      new;
      EmptyList(next, prev, n);
      for b := 0 to n
        invariant this.disk == disk && bufs == seq(n, _ => Buf(Key(0, 0), false, 0, 0, []))
        invariant |next| == n + 1 && ListOk(next, prev, order, n) && |order| == b
        invariant forall i | 0 <= i < b :: order[i] == b - 1 - i
      {
        PushFront(next, prev, order, n, b);
        next := next[b := next[n]];
        prev := prev[b := n];
        prev := prev[next[n] := b];
        next := next[n := b];
        order := [b] + order;
      }
      forall i | 0 <= i < n ensures i in order { assert order[n - 1 - i] == i; }
    }

    /** The buffer that holds block key, searching from the most recently used; |bufs| if there is none. */
    method FindCached(key: Key) returns (b: nat)
      requires Valid()
      ensures b <= |bufs|
      ensures if b < |bufs| then bufs[b].key == key else forall j | 0 <= j < |bufs| :: bufs[j].key != key
    {
      ghost var i := 0;
      assert LinkAt(next, prev, order, |bufs|, -1);
      b := next[|bufs|];
      while b != |bufs|
        invariant i <= |order| && b == At(order, |bufs|, i) && b <= |bufs|
        invariant forall j | 0 <= j < i :: bufs[order[j]].key != key
        decreases |order| - i
      {
        if bufs[b].key == key {
          return;
        }
        assert LinkAt(next, prev, order, |bufs|, i);
        b := next[b];
        i := i + 1;
      }
      forall j | 0 <= j < |bufs| ensures bufs[j].key != key {
        assert j in order;
        var m :| 0 <= m < |order| && order[m] == j;
      }
    }

    /** The least recently used buffer that nobody references; |bufs| if there is none. */
    method FindUnused() returns (b: nat, ghost m: int)
      requires Valid()
      ensures b <= |bufs|
      ensures b < |bufs| ==> bufs[b].refcnt == 0 && 0 <= m < |order| && order[m] == b
      ensures forall j | (if b < |bufs| then m else -1) < j < |order| :: bufs[order[j]].refcnt > 0
      ensures b == |bufs| ==> forall j | 0 <= j < |bufs| :: bufs[j].refcnt > 0
    {
      m := |order| - 1;
      assert LinkAt(next, prev, order, |bufs|, |order| - 1);
      b := prev[|bufs|];
      while b != |bufs|
        invariant -1 <= m < |order| && b == At(order, |bufs|, m) && b <= |bufs|
        invariant forall j | m < j < |order| :: bufs[order[j]].refcnt > 0
        decreases m
      {
        if bufs[b].refcnt == 0 {
          return;
        }
        assert LinkAt(next, prev, order, |bufs|, m - 1);
        b := prev[b];
        m := m - 1;
      }
      forall j | 0 <= j < |bufs| ensures bufs[j].refcnt > 0 {
        assert j in order;
        var i :| 0 <= i < |order| && order[i] == j;
      }
    }

    /**
      The critical section of bget(): a reference to the buffer for this block, recycling the least
      recently used free buffer if the block is not cached.  False is the panic when all are busy.
      No reader can tell that it happened, exactly unless the recycled buffer held an unwritten change.
    */
    method Bget(key: Key) returns (ok: bool, b: nat)
      requires Valid() && key.dev > 0
      modifies this`bufs
      ensures Valid() && |bufs| == |old(bufs)|
      ensures Tidy(old(bufs), disk) ==> Tidy(bufs, disk) && SameViews(old(bufs), disk, bufs, disk)
      ensures ok ==> b < |bufs|
      ensures SameViews(old(bufs), disk, bufs, disk) <==> !ok || old(bufs)[b].key == key || Clean(old(bufs)[b], disk)
      ensures !ok ==> bufs == old(bufs) && (forall j | 0 <= j < |bufs| :: bufs[j].refcnt > 0 && bufs[j].key != key)
      ensures ok ==> b < |bufs| && bufs[b].key == key && bufs == old(bufs)[b := bufs[b]]
                     && if old(bufs)[b].key == key then bufs[b] == old(bufs)[b].(refcnt := old(bufs)[b].refcnt + 1)
                        else old(bufs)[b].refcnt == 0 && !bufs[b].valid && bufs[b].refcnt == 1 && bufs[b].holder == 0
    {
      hide View;
      b := FindCached(key);
      if b < |bufs| {
        Recount(bufs, disk, b, bufs[b].refcnt + 1, bufs[b].holder);
        bufs := bufs[b := bufs[b].(refcnt := bufs[b].refcnt + 1)];
        return true, b;
      }
      ghost var m;
      b, m := FindUnused();
      if b < |bufs| {
        Recycle(bufs, disk, b, key);
        bufs := bufs[b := Buf(key, false, 1, 0, bufs[b].data)];
        return true, b;
      }
      ok := false;
    }

    /** acquiresleep(&b->lock); false means the caller sleeps. */
    method Acquire(b: nat, pid: nat) returns (ok: bool)
      requires Valid() && b < |bufs| && bufs[b].refcnt > 0 && pid > 0
      modifies this`bufs
      ensures Valid() && SameViews(old(bufs), disk, bufs, disk) && (Tidy(old(bufs), disk) ==> Tidy(bufs, disk))
      ensures ok == (old(bufs)[b].holder == 0)
      ensures bufs == if ok then old(bufs)[b := old(bufs)[b].(holder := pid)] else old(bufs)
    {
      hide View;
      ok := bufs[b].holder == 0;
      if ok {
        Recount(bufs, disk, b, bufs[b].refcnt, pid);
        bufs := bufs[b := bufs[b].(holder := pid)];
      }
    }

    /** The end of bread(), with the buffer locked: the caller now holds the latest contents. */
    method Fill(b: nat, pid: nat)
      requires Valid() && b < |bufs| && bufs[b].refcnt > 0 && bufs[b].holder == pid && bufs[b].key.dev > 0
      modifies this`bufs
      ensures Valid() && SameViews(old(bufs), disk, bufs, disk) && (Tidy(old(bufs), disk) ==> Tidy(bufs, disk))
      ensures bufs == old(bufs)[b := bufs[b]] && bufs[b].key == old(bufs)[b].key
      ensures bufs[b].refcnt == old(bufs)[b].refcnt && bufs[b].holder == pid
      ensures bufs[b].valid && bufs[b].data == View(bufs, disk, bufs[b].key)
    {
      hide View;
      if !bufs[b].valid {
        FillFromDisk(bufs, disk, b);
        bufs := bufs[b := bufs[b].(valid := true, data := OnDisk(disk, bufs[b].key))];
      }
      ViewCached(bufs, disk, b);
    }

    /**
      bread(): the latest contents of the block in a locked buffer. Nothing is returned for a device
      that does not exist or when every buffer is busy; when another process holds the buffer, the
      caller has its reference and waits, to go on with Acquire and Fill.
    */
    method Bread(dev: nat, blockno: nat, pid: nat) returns (r: BreadResult)
      requires Valid() && pid > 0
      modifies this`bufs
      ensures Valid() && |bufs| == |old(bufs)|
      ensures Tidy(old(bufs), disk) ==> Tidy(bufs, disk) && SameViews(old(bufs), disk, bufs, disk)
      ensures match r
              case NoDevice => !(1 <= dev <= NDISK) && bufs == old(bufs)
              case NoBuffer =>
                1 <= dev <= NDISK && bufs == old(bufs) && forall j | 0 <= j < |bufs| :: bufs[j].refcnt > 0
              case Waits(b) =>
                && 1 <= dev <= NDISK && b < |bufs| && bufs[b].key == Key(dev, blockno)
                && old(bufs)[b].holder != 0
                && bufs[b] == old(bufs)[b].(refcnt := old(bufs)[b].refcnt + 1)
              case Got(b) =>
                && 1 <= dev <= NDISK && b < |bufs| && bufs[b].key == Key(dev, blockno)
                && bufs[b].holder == pid
                && bufs[b].valid && bufs[b].refcnt > 0 && old(bufs)[b].holder == 0
                && (Tidy(old(bufs), disk) ==> bufs[b].data == View(old(bufs), disk, Key(dev, blockno)))
    {
      hide View;
      if dev < 1 || dev > NDISK {
        return NoDevice;
      }
      var ok, b := Bget(Key(dev, blockno));
      if !ok {
        return NoBuffer;
      }
      var got := Acquire(b, pid);
      if !got {
        return Waits(b);
      }
      Fill(b, pid);
      r := Got(b);
    }

    /** The holder of a buffer changes its data: only that block's contents change for readers. */
    method Modify(b: nat, pid: nat, data: Block)
      requires Valid() && b < |bufs| && bufs[b].valid && bufs[b].refcnt > 0 && bufs[b].holder == pid
      modifies this`bufs
      ensures Valid() && bufs == old(bufs)[b := old(bufs)[b].(data := data)]
      ensures (Tidy(old(bufs), disk) ==> Tidy(bufs, disk))
      ensures forall k :: View(bufs, disk, k) == if k == bufs[b].key then data else View(old(bufs), disk, k)
    {
      hide View;
      ModifyView(bufs, disk, b, data);
      bufs := bufs[b := bufs[b].(data := data)];
    }

    /** bwrite(): false is the panic when the caller does not hold the lock. */
    method Bwrite(b: nat, pid: nat) returns (ok: bool)
      requires Valid() && b < |bufs| && bufs[b].valid && pid > 0
      modifies this`disk
      ensures Valid() && SameViews(bufs, old(disk), bufs, disk) && (Tidy(bufs, old(disk)) ==> Tidy(bufs, disk))
      ensures ok == (bufs[b].holder == pid)
      ensures if ok then disk == old(disk)[bufs[b].key := bufs[b].data] && Clean(bufs[b], disk) else disk == old(disk)
    {
      hide View;
      ok := bufs[b].holder == pid;
      if ok {
        WriteToDisk(bufs, disk, b);
        disk := disk[bufs[b].key := bufs[b].data];
      }
    }

    method Bpin(b: nat)
      requires Valid() && b < |bufs|
      modifies this`bufs
      ensures Valid() && SameViews(old(bufs), disk, bufs, disk) && (Tidy(old(bufs), disk) ==> Tidy(bufs, disk))
      ensures bufs == old(bufs)[b := old(bufs)[b].(refcnt := old(bufs)[b].refcnt + 1)]
    {
      hide View;
      Recount(bufs, disk, b, bufs[b].refcnt + 1, bufs[b].holder);
      bufs := bufs[b := bufs[b].(refcnt := bufs[b].refcnt + 1)];
    }

    /** bunpin(): tidy unless this drops the last reference to an unwritten change. */
    method Bunpin(b: nat)
      requires Valid() && b < |bufs| && bufs[b].refcnt > 0 && (bufs[b].refcnt == 1 ==> bufs[b].holder == 0)
      modifies this`bufs
      ensures Valid() && SameViews(old(bufs), disk, bufs, disk)
      ensures bufs == old(bufs)[b := old(bufs)[b].(refcnt := old(bufs)[b].refcnt - 1)]
      ensures Tidy(old(bufs), disk) ==> (Tidy(bufs, disk) <==> bufs[b].refcnt == 0 ==> Clean(bufs[b], disk))
    {
      hide View;
      Recount(bufs, disk, b, bufs[b].refcnt - 1, bufs[b].holder);
      bufs := bufs[b := bufs[b].(refcnt := bufs[b].refcnt - 1)];
    }

    /** The first section of brelse(): the sleep-lock is released; false is the panic of a caller without it. */
    method Unlock(b: nat, pid: nat) returns (ok: bool)
      requires Valid() && b < |bufs| && pid > 0
      modifies this`bufs
      ensures Valid() && SameViews(old(bufs), disk, bufs, disk) && (Tidy(old(bufs), disk) ==> Tidy(bufs, disk))
      ensures ok == (old(bufs)[b].holder == pid)
      ensures bufs == if ok then old(bufs)[b := old(bufs)[b].(holder := 0)] else old(bufs)
    {
      hide View;
      ok := bufs[b].holder == pid;
      if ok {
        Recount(bufs, disk, b, bufs[b].refcnt, 0);
        bufs := bufs[b := bufs[b].(holder := 0)];
      }
    }

    /** The second section of brelse(): one reference less, and the last makes the buffer the most recently used one. */
    method Drop(b: nat)
      requires Valid() && b < |bufs| && bufs[b].refcnt > 0 && (bufs[b].refcnt == 1 ==> bufs[b].holder == 0)
      modifies this
      ensures Valid() && disk == old(disk) && SameViews(old(bufs), disk, bufs, disk)
      ensures bufs == old(bufs)[b := old(bufs)[b].(refcnt := old(bufs)[b].refcnt - 1)]
      ensures Tidy(old(bufs), disk) ==> (Tidy(bufs, disk) <==> bufs[b].refcnt == 0 ==> Clean(bufs[b], disk))
      ensures bufs[b].refcnt > 0 ==> order == old(order)
      ensures bufs[b].refcnt == 0 ==>
                exists m | 0 <= m < |old(order)| :: old(order)[m] == b && order == [b] + Without(old(order), m)
    {
      hide View, ListOk;
      Recount(bufs, disk, b, bufs[b].refcnt - 1, bufs[b].holder);
      bufs := bufs[b := bufs[b].(refcnt := bufs[b].refcnt - 1)];
      if bufs[b].refcnt == 0 {
        MoveFront(b);
      }
    }

    /** The relinking in brelse(): b becomes the first of the list. */
    method MoveFront(b: nat)
      requires Valid() && b < |bufs|
      modifies this`next, this`prev, this`order
      ensures Valid()
      ensures exists m | 0 <= m < |old(order)| :: old(order)[m] == b && order == [b] + Without(old(order), m)
    {
      hide View, ListOk, BufsOk;
      assert b in order;
      ghost var m: nat :| m < |order| && order[m] == b;
      var head := |bufs|;
      Unlink(next, prev, order, head, m);
      prev, next := prev[next[b] := prev[b]], next[prev[b] := next[b]];
      PushFront(next, prev, Without(order, m), head, b);
      next := next[b := next[head]];
      prev := prev[b := head];
      prev := prev[next[head] := b];
      next := next[head := b];
      MovedFront(order, m);
      order := [b] + Without(order, m);
    }

    /**
      brelse(): no view changes, and a last release makes the buffer the most recently used one. The
      cache stays tidy exactly unless it was the last release of an unwritten change.
    */
    method Brelse(b: nat, pid: nat) returns (ok: bool)
      requires Valid() && b < |bufs| && pid > 0
      modifies this
      ensures Valid() && disk == old(disk) && SameViews(old(bufs), disk, bufs, disk)
      ensures ok == (old(bufs)[b].holder == pid)
      ensures !ok ==> bufs == old(bufs) && order == old(order)
      ensures ok ==> old(bufs)[b].refcnt > 0
                     && bufs == old(bufs)[b := old(bufs)[b].(refcnt := old(bufs)[b].refcnt - 1, holder := 0)]
      ensures ok && Tidy(old(bufs), disk) ==> (Tidy(bufs, disk) <==> bufs[b].refcnt == 0 ==> Clean(bufs[b], disk))
      ensures ok && bufs[b].refcnt > 0 ==> order == old(order)
      ensures ok && bufs[b].refcnt == 0 ==>
                exists m | 0 <= m < |old(order)| :: old(order)[m] == b && order == [b] + Without(old(order), m)
    {
      hide View, ListOk;
      ok := Unlock(b, pid);
      if ok {
        Drop(b);
      }
    }
  }

  lemma MovedFront(order: seq<nat>, m: nat)
    requires m < |order|
    ensures forall i :: i in order ==> i in [order[m]] + Without(order, m)
  {
    forall i | i in order ensures i in [order[m]] + Without(order, m) {
      var j :| 0 <= j < |order| && order[j] == i;
      assert j < m ==> Without(order, m)[j] == i;
      assert j > m ==> Without(order, m)[j - 1] == i;
    }
  }
}
