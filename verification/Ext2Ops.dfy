/**
  The loops of kernel/ext2.c over directory blocks, updating the blocks in place, and the directory
  they implement: a first-match map from names to inodes and a list of live entries.
*/
module Ext2Ops {
  import opened Bytes
  import opened Ext2Recs
  import opened Ext2Dir

  /** strncmp() over name_len characters and the test for the end of the name. */
  method NameMatches(b: Block, o: nat, name: Name) returns (same: bool)
    requires RecOk(b, o) && Inode(b, o) != 0 && NoNul(name)
    ensures same <==> RecAt(b, o).name == name
  {
    ghost var stored := RecAt(b, o).name;
    var n := NameLen(b, o);
    var i := 0;
    while i < n
      invariant 0 <= i <= n == |stored| && i <= |name| && stored[..i] == name[..i]
    {
      var c := if i < |name| then name[i] else 0;
      assert stored[i] == b[o + HEAD + i] != 0;
      if b[o + HEAD + i] != c {
        return false;
      }
      i := i + 1;
    }
    assert stored[..n] == stored;
    assert name[..n] == name <==> n == |name|;
    same := n == |name|;
  }

  /** Room for a record of `need` bytes in this one: deleted and long enough, or with enough slack. */
  predicate HasRoom(r: Rec, need: nat) {
    (r.inode == 0 && r.len >= need) || r.len - Need(|r.name|) >= need
  }

  predicate NoRoom(recs: seq<Rec>, need: nat) {
    forall i | 0 <= i < |recs| :: !HasRoom(recs[i], need)
  }

  /** ext2_dir_lookup() within a block; no record has the empty name. */
  method LookupBlock(b: Block, name: Name) returns (inum: nat)
    requires Tiled(b, 0) && NoNul(name)
    ensures inum == if name == [] then 0 else Find(Recs(b, 0), name)
  {
    hide Find, NoNul, Inode, RecLen, NameLen, RecOk;
    var boff := 0;
    FindNone(name);
    while boff < BSIZE
      invariant boff <= BSIZE && Boundary(b, 0, boff)
      invariant name != [] ==> Find(RecsTo(b, 0, boff), name) == 0
      decreases BSIZE - boff
    {
      Here(b, boff);
      if name != [] {
        FindStep(RecsTo(b, 0, boff), RecAt(b, boff), Recs(b, boff + RecLen(b, boff)), name);
      }
      if Inode(b, boff) != 0 && NameLen(b, boff) > 0 {
        var same := NameMatches(b, boff, name);
        if same {
          return Inode(b, boff);
        }
      }
      NextBoundary(b, 0, boff);
      boff := boff + RecLen(b, boff);
    }
    SplitAt(b, 0, BSIZE);
    assert RecsTo(b, 0, BSIZE) + [] == RecsTo(b, 0, BSIZE);
    inum := 0;
  }

  /** ext2_dir_add() within a block: the first record with room takes the new entry. */
  method AddInBlock(b: Block, name: Name, inum: nat, ftype: Byte) returns (done: bool, r: Block)
    requires Tiled(b, 0) && NoNul(name) && |name| < 0x100 && 0 < inum < 0x1_0000_0000
    ensures Tiled(r, 0) && (done <==> !NoRoom(Recs(b, 0), Need(|name|)))
    ensures done ==> Added(Recs(b, 0), Recs(r, 0), name, inum)
    ensures !done ==> r == b
  {
    hide Added, Find, NoNul, Inode, RecLen, NameLen, RecOk, Need, PutRec;
    var need := Need(|name|);
    var boff := 0;
    while boff < BSIZE
      invariant boff <= BSIZE && Boundary(b, 0, boff) && NoRoom(RecsTo(b, 0, boff), need)
      decreases BSIZE - boff
    {
      Here(b, boff);
      var reclen, kept := RecLen(b, boff), Need(NameLen(b, boff));
      if Inode(b, boff) == 0 && reclen >= need {
        ReusedBlock(b, boff, inum, ftype, name);
        return true, PutRec(b, boff, inum, reclen, ftype, name);
      }
      if reclen >= kept + need { // reclen - kept >= needlen, for records that hold their names
        SplitBlockAdds(b, boff, inum, ftype, name);
        return true, SplitBlock(b, boff, inum, ftype, name);
      }
      NextBoundary(b, 0, boff);
      boff := boff + reclen;
    }
    SplitAt(b, 0, BSIZE);
    assert RecsTo(b, 0, BSIZE) + [] == RecsTo(b, 0, BSIZE);
    done, r := false, b;
  }

  /** ext2_unlink() clearing the entry within a block. */
  method ClearInBlock(b: Block, name: Name) returns (done: bool, r: Block, ghost at: nat)
    requires Tiled(b, 0) && NoNul(name)
    ensures Tiled(r, 0) && (done <==> Find(Recs(b, 0), name) != 0)
    ensures done ==>
      && at < |Recs(b, 0)| && Find(Recs(b, 0)[..at], name) == 0
      && Recs(b, 0)[at].inode != 0 && Recs(b, 0)[at].name == name
      && Recs(r, 0) == Recs(b, 0)[at := Recs(b, 0)[at].(inode := 0)]
    ensures !done ==> r == b
  {
    hide Find, NoNul, Inode, RecLen, NameLen, RecOk, ClearInode;
    var boff := 0;
    at := 0;
    FindNone(name);
    while boff < BSIZE
      invariant boff <= BSIZE && Boundary(b, 0, boff) && Find(RecsTo(b, 0, boff), name) == 0
      decreases BSIZE - boff
    {
      Here(b, boff);
      FindStep(RecsTo(b, 0, boff), RecAt(b, boff), Recs(b, boff + RecLen(b, boff)), name);
      if Inode(b, boff) != 0 {
        var same := NameMatches(b, boff, name);
        if same {
          ClearedBlock(b, boff);
          at := |RecsTo(b, 0, boff)|;
          assert Recs(b, 0)[..at] == RecsTo(b, 0, boff);
          return true, ClearInode(b, boff), at;
        }
      }
      NextBoundary(b, 0, boff);
      boff := boff + RecLen(b, boff);
    }
    SplitAt(b, 0, BSIZE);
    assert RecsTo(b, 0, BSIZE) + [] == RecsTo(b, 0, BSIZE);
    done, r := false, b;
  }

  lemma FindNone(name: Name)
    ensures Find([], name) == 0
  {}

  /** At a boundary inside the block there is a record. */
  lemma Here(b: Block, o: nat)
    requires Tiled(b, 0) && Boundary(b, 0, o) && o < BSIZE
    ensures RecOk(b, o) && Tiled(b, o) && Tiled(b, o + RecLen(b, o)) && 0 < RecLen(b, o) && o + RecLen(b, o) <= BSIZE
    ensures o + HEAD <= BSIZE
    ensures Recs(b, 0) == RecsTo(b, 0, o) + ([RecAt(b, o)] + Recs(b, o + RecLen(b, o)))
    ensures RecAt(b, o).inode == Inode(b, o) && RecAt(b, o).len == RecLen(b, o) && |RecAt(b, o).name| == NameLen(b, o)
    ensures |RecsTo(b, 0, o)| < |Recs(b, 0)| && Recs(b, 0)[|RecsTo(b, 0, o)|] == RecAt(b, o)
  {
    hide Inode, RecLen, NameLen, Need, NoNul, RecAt;
    SplitAt(b, 0, o);
    Fields(b, o);
  }

  lemma Fields(b: Block, o: nat)
    requires RecOk(b, o)
    ensures o + HEAD <= BSIZE && o + HEAD + NameLen(b, o) <= BSIZE
    ensures RecAt(b, o).inode == Inode(b, o) && RecAt(b, o).len == RecLen(b, o) && |RecAt(b, o).name| == NameLen(b, o)
    ensures RecAt(b, o).name == b[o + HEAD..o + HEAD + NameLen(b, o)]
  {}

  lemma FindStep(a: seq<Rec>, r: Rec, rest: seq<Rec>, name: Name)
    requires Find(a, name) == 0
    ensures var m := r.inode != 0 && r.name == name;
            && (m ==> Find(a + ([r] + rest), name) == r.inode)
            && (!m ==> Find(a + [r], name) == 0)
  {
    FindConcat(a, [r] + rest, name);
    FindConcat([r], rest, name);
    FindConcat(a, [r], name);
    assert [r][1..] == [];
  }

  lemma ClearedRec(b: Block, o: nat)
    requires RecOk(b, o)
    ensures var r := ClearInode(b, o);
            RecOk(r, o) && RecAt(r, o) == RecAt(b, o).(inode := 0) && RecLen(r, o) == RecLen(b, o)
  {
    hide ClearInode, Inode, RecLen;
    var r := ClearInode(b, o);
    var e := o + HEAD + NameLen(b, o);
    assert r[o + HEAD..e] == r[o + HEAD..][..e - o - HEAD] && b[o + HEAD..e] == b[o + HEAD..][..e - o - HEAD];
  }

  lemma ClearedBlock(b: Block, o: nat)
    requires Tiled(b, 0) && Boundary(b, 0, o) && o < BSIZE && RecOk(b, o)
    ensures var r := ClearInode(b, o);
            && Tiled(r, 0) && |RecsTo(b, 0, o)| < |Recs(b, 0)|
            && Recs(r, 0) == Recs(b, 0)[|RecsTo(b, 0, o)| := RecAt(b, o).(inode := 0)]
  {
    hide ClearInode, Inode, RecLen, NameLen, Need, NoNul, RecAt, Tiled, Recs, RecsTo, Boundary;
    var r, e := ClearInode(b, o), o + RecLen(b, o);
    Here(b, o);
    ClearedRec(b, o);
    SuffixOf(b, r, o + HEAD, e);
    SameSuffix(b, r, e);
    TiledFrom(r, o);
    SamePrefix(b, r, 0, o);
    SplitAt(r, 0, o);
    UpdateMid(RecsTo(b, 0, o), RecAt(b, o), Recs(b, e), RecAt(b, o).(inode := 0));
  }

  lemma TiledFrom(b: Block, o: nat)
    requires RecOk(b, o) && Tiled(b, o + RecLen(b, o))
    ensures Tiled(b, o) && Recs(b, o) == [RecAt(b, o)] + Recs(b, o + RecLen(b, o))
  {}

  lemma UpdateMid(a: seq<Rec>, x: Rec, b: seq<Rec>, y: Rec)
    ensures (a + ([x] + b))[|a| := y] == a + ([y] + b)
  {}

  // ---- The directory ----

  /** Offset `off` is the start of a record, or the end of the directory. */
  predicate AtRecord(blocks: seq<Block>, off: nat)
    requires BlocksOk(blocks)
  {
    if off / BSIZE < |blocks| then Boundary(blocks[off / BSIZE], 0, off % BSIZE) else off == |blocks| * BSIZE
  }

  /** The records from offset off on. */
  function Rest(blocks: seq<Block>, off: nat): seq<Rec>
    requires BlocksOk(blocks) && AtRecord(blocks, off)
  {
    if off / BSIZE < |blocks| then
      SplitAt(blocks[off / BSIZE], 0, off % BSIZE);
      Recs(blocks[off / BSIZE], off % BSIZE) + AllRecs(blocks[off / BSIZE + 1..])
    else []
  }

  lemma RestFromStart(blocks: seq<Block>)
    requires BlocksOk(blocks)
    ensures AtRecord(blocks, 0) && Rest(blocks, 0) == AllRecs(blocks)
  {}

  lemma RestEnd(blocks: seq<Block>, off: nat)
    requires BlocksOk(blocks) && AtRecord(blocks, off) && off >= |blocks| * BSIZE
    ensures Rest(blocks, off) == []
  {}

  lemma RestStep(blocks: seq<Block>, off: nat)
    requires BlocksOk(blocks) && AtRecord(blocks, off) && off < |blocks| * BSIZE
    ensures off / BSIZE < |blocks|
    ensures var b, o := blocks[off / BSIZE], off % BSIZE;
            && RecOk(b, o) && 0 < RecLen(b, o) && off + RecLen(b, o) <= |blocks| * BSIZE
            && AtRecord(blocks, off + RecLen(b, o))
            && Rest(blocks, off) == [RecAt(b, o)] + Rest(blocks, off + RecLen(b, o))
  {
    hide Inode, RecLen, NameLen, Need, NoNul, RecAt, RecOk, Boundary, Tiled, Recs, AllRecs;
    var i, o := off / BSIZE, off % BSIZE;
    var b := blocks[i];
    SplitAt(b, 0, o);
    FirstRec(b, o);
    NextBoundary(b, 0, o);
    var o' := o + RecLen(b, o);
    if o' < BSIZE {
      assert (off + RecLen(b, o)) / BSIZE == i && (off + RecLen(b, o)) % BSIZE == o';
      Cons(RecAt(b, o), Recs(b, o'), AllRecs(blocks[i + 1..]));
    } else {
      assert (off + RecLen(b, o)) / BSIZE == i + 1 && (off + RecLen(b, o)) % BSIZE == 0;
      assert [RecAt(b, o)] + [] == [RecAt(b, o)];
      RestAt(blocks, i + 1);
    }
  }

  lemma FirstRec(b: Block, o: nat)
    requires Tiled(b, o) && o < BSIZE
    ensures o + HEAD <= BSIZE && RecOk(b, o) && 0 < RecLen(b, o) && o + RecLen(b, o) <= BSIZE
    ensures Tiled(b, o + RecLen(b, o))
    ensures Recs(b, o) == [RecAt(b, o)] + Recs(b, o + RecLen(b, o))
    ensures o + RecLen(b, o) == BSIZE ==> Recs(b, o + RecLen(b, o)) == []
  {
    hide Inode, RecLen, NameLen, Need, NoNul, RecAt;
  }

  /** The records from the start of block i on. */
  lemma RestAt(blocks: seq<Block>, i: nat)
    requires BlocksOk(blocks) && i <= |blocks|
    ensures AtRecord(blocks, i * BSIZE) && Rest(blocks, i * BSIZE) == AllRecs(blocks[i..])
  {
    hide Recs, Tiled;
    assert i * BSIZE / BSIZE == i && i * BSIZE % BSIZE == 0;
    if i < |blocks| {
      assert blocks[i..][0] == blocks[i] && blocks[i..][1..] == blocks[i + 1..];
    }
  }

  lemma RoomIn(a: seq<Rec>, m: seq<Rec>, b: seq<Rec>, need: nat)
    requires NoRoom(a, need)
    ensures if NoRoom(m, need) then NoRoom(a + m, need) else !NoRoom(a + (m + b), need)
  {
    hide HasRoom;
    if !NoRoom(m, need) {
      var i :| 0 <= i < |m| && HasRoom(m[i], need);
      assert (a + (m + b))[|a| + i] == m[i];
    }
  }

  lemma FirstBlocks(blocks: seq<Block>, i: nat)
    requires BlocksOk(blocks) && i < |blocks|
    ensures AllRecs(blocks[..i + 1]) == AllRecs(blocks[..i]) + Recs(blocks[i], 0)
  {
    hide Tiled, Recs;
    AroundBlock(blocks[..i + 1], i);
    assert blocks[..i + 1][..i] == blocks[..i] && blocks[..i + 1][i + 1..] == [];
    assert Recs(blocks[i], 0) + AllRecs(blocks[..i + 1][i + 1..]) == Recs(blocks[i], 0);
  }

  /** The block ext2_dir_add() grows the directory by: one record that fills it. */
  lemma AddedLists(recs: seq<Rec>, recs': seq<Rec>, name: Name, inum: nat)
    requires Added(recs, recs', name, inum)
    ensures Inserted(Entries(recs), Entries(recs'), (inum, name))
  {
    hide Entries, Inserted, Find;
  }

  lemma NewBlock(blocks: seq<Block>, inum: nat, ftype: Byte, name: Name)
    requires BlocksOk(blocks) && NoNul(name) && |name| < 0x100 && 0 < inum < 0x1_0000_0000
    ensures var blocks' := blocks + [PutRec(seq(BSIZE, _ => 0), 0, inum, BSIZE, ftype, name)];
            BlocksOk(blocks') && Added(AllRecs(blocks), AllRecs(blocks'), name, inum)
  {
    hide Added, PutRec;
    var zero: Block := seq(BSIZE, _ => 0);
    WriteRec(zero, 0, inum, BSIZE, ftype, name);
    var b := PutRec(zero, 0, inum, BSIZE, ftype, name);
    var blocks' := blocks + [b];
    assert forall k | 0 <= k < |blocks'| :: blocks'[k] == if k < |blocks| then blocks[k] else b;
    AroundBlock(blocks', |blocks|);
    assert blocks'[..|blocks|] == blocks && blocks'[|blocks| + 1..] == [];
    assert Recs(zero, BSIZE) == [] && Recs(b, 0) == [Rec(inum, BSIZE, name)];
    assert [Rec(inum, BSIZE, name)] + AllRecs([]) == [Rec(inum, BSIZE, name)];
    AddedGrow(AllRecs(blocks), Rec(inum, BSIZE, name));
  }

  /** One record of one block cleared, in terms of all records. */
  lemma ClearedInBlock(blocks: seq<Block>, i: nat, b: Block, at: nat) returns (k: nat)
    requires BlocksOk(blocks) && i < |blocks| && Tiled(b, 0) && at < |Recs(blocks[i], 0)|
    requires var r := Recs(blocks[i], 0)[at];
             && r.inode != 0 && Recs(b, 0) == Recs(blocks[i], 0)[at := r.(inode := 0)]
             && Find(AllRecs(blocks[..i]), r.name) == 0 && Find(Recs(blocks[i], 0)[..at], r.name) == 0
    ensures BlocksOk(blocks[i := b])
    ensures var name, was, now := Recs(blocks[i], 0)[at].name, AllRecs(blocks), AllRecs(blocks[i := b]);
            && Find(was, name) != 0 && (forall n: Name | n != name :: Find(now, n) == Find(was, n))
            && k < |Live(was)| && Live(was)[k].name == name && Live(now) == Live(was)[..k] + Live(was)[k + 1..]
  {
    hide Find, Tiled, Recs, Live;
    var recs, r := Recs(blocks[i], 0), Recs(blocks[i], 0)[at];
    var before, after := AllRecs(blocks[..i]), AllRecs(blocks[i + 1..]);
    AroundBlock(blocks, i);
    AroundBlock(blocks[i := b], i);
    assert blocks[i := b][..i] == blocks[..i] && blocks[i := b][i + 1..] == blocks[i + 1..];
    Regroup(before, recs, at, after, r);
    Regroup(before, Recs(b, 0), at, after, r.(inode := 0));
    assert Recs(b, 0)[..at] == recs[..at] && Recs(b, 0)[at + 1..] == recs[at + 1..];
    var pre, post := before + recs[..at], recs[at + 1..] + after;
    FindConcat(before, recs[..at], r.name);
    ClearedOne(pre, r, post);
    LiveAround(pre, r, post);
    k := |Live(pre)|;
  }

  lemma Regroup(a: seq<Rec>, m: seq<Rec>, at: nat, b: seq<Rec>, r: Rec)
    requires at < |m| && m[at] == r
    ensures a + (m + b) == (a + m[..at]) + ([r] + (m[at + 1..] + b))
  {}

  lemma LiveAround(a: seq<Rec>, r: Rec, b: seq<Rec>)
    requires r.inode != 0
    ensures Live(a + ([r] + b)) == Live(a) + ([r] + Live(b)) && Live(a + ([r.(inode := 0)] + b)) == Live(a) + Live(b)
    ensures var was := Live(a + ([r] + b));
            |Live(a)| < |was| && was[|Live(a)|] == r && was[..|Live(a)|] + was[|Live(a)| + 1..] == Live(a) + Live(b)
  {
    hide Live;
    LiveConcat(a, [r] + b);
    LiveConcat(a, [r.(inode := 0)] + b);
    LiveHead(r, b);
    LiveHead(r.(inode := 0), b);
    var was := Live(a) + ([r] + Live(b));
    assert was[..|Live(a)|] == Live(a) && was[|Live(a)| + 1..] == Live(b);
  }

  lemma LiveHead(r: Rec, b: seq<Rec>)
    ensures Live([r] + b) == if r.inode != 0 then [r] + Live(b) else Live(b)
  {
    assert ([r] + b)[1..] == b;
  }

  const LINKS: int := 0x1_0000 // link counts are 16 bits wide

  type Links = x: nat | x < LINKS

  class Directory {
    var blocks: seq<Block>
    var nlink: Links // i_links_count

    /** Every block is exactly tiled; i_size is |blocks| blocks. */
    ghost predicate Valid()
      reads this
    {
      BlocksOk(blocks)
    }

    constructor (blocks: seq<Block>, nlink: Links)
      requires BlocksOk(blocks)
      ensures Valid() && this.blocks == blocks && this.nlink == nlink
    {
      this.blocks, this.nlink := blocks, nlink;
    }

    /** ext2_dir_lookup(): the inode of the first entry with the name, 0 for none and for the empty name. */
    method DirLookup(name: Name) returns (inum: nat)
      requires Valid() && NoNul(name)
      ensures inum == if name == [] then 0 else Find(AllRecs(blocks), name)
    {
      hide Find, Tiled, Recs;
      var i := 0;
      assert blocks[0..] == blocks;
      while i < |blocks|
        invariant i <= |blocks|
        invariant name != [] ==> Find(AllRecs(blocks), name) == Find(AllRecs(blocks[i..]), name)
      {
        inum := LookupBlock(blocks[i], name);
        FindConcat(Recs(blocks[i], 0), AllRecs(blocks[i + 1..]), name);
        assert blocks[i..][1..] == blocks[i + 1..];
        if inum != 0 {
          return;
        }
        i := i + 1;
      }
      FindNone(name);
      inum := 0;
    }

    /** ext2_dir_add(): in the first record with room, else in a new block if one can be had. */
    method DirAdd(name: Name, inum: nat, ftype: Byte, space: bool) returns (ok: bool)
      requires Valid() && NoNul(name) && 0 < |name| < 0x100 && 0 < inum < 0x1_0000_0000
      modifies this`blocks
      ensures Valid() && (ok <==> !NoRoom(AllRecs(old(blocks)), Need(|name|)) || space)
      ensures ok ==> Added(AllRecs(old(blocks)), AllRecs(blocks), name, inum)
      ensures ok ==> Inserted(Entries(AllRecs(old(blocks))), Entries(AllRecs(blocks)), (inum, name))
      ensures !ok ==> blocks == old(blocks)
      ensures |blocks| == |old(blocks)| + (if ok && NoRoom(AllRecs(old(blocks)), Need(|name|)) then 1 else 0)
    {
      hide Added, Find, Tiled, Recs, Need, PutRec, HasRoom, Entries, Inserted;
      var i := 0;
      while i < |blocks|
        invariant i <= |blocks| && blocks == old(blocks) && NoRoom(AllRecs(blocks[..i]), Need(|name|))
      {
        var done, b := AddInBlock(blocks[i], name, inum, ftype);
        AroundBlock(blocks, i);
        RoomIn(AllRecs(blocks[..i]), Recs(blocks[i], 0), AllRecs(blocks[i + 1..]), Need(|name|));
        if done {
          AddedInBlock(blocks, i, b, name, inum);
          AddedLists(AllRecs(blocks), AllRecs(blocks[i := b]), name, inum);
          blocks := blocks[i := b];
          return true;
        }
        FirstBlocks(blocks, i);
        i := i + 1;
      }
      assert blocks[..i] == blocks;
      if !space {
        return false;
      }
      NewBlock(blocks, inum, ftype, name);
      blocks := blocks + [PutRec(seq(BSIZE, _ => 0), 0, inum, BSIZE, ftype, name)];
      AddedLists(AllRecs(old(blocks)), AllRecs(blocks), name, inum);
      ok := true;
    }

    /**
      The entry clearing of ext2_unlink(): the first entry with the name leaves the live ones, every
      other name is unaffected.
    */
    method Clear(name: Name) returns (ok: bool, ghost k: nat)
      requires Valid() && NoNul(name)
      modifies this`blocks
      ensures Valid() && |blocks| == |old(blocks)| && (ok <==> Find(AllRecs(old(blocks)), name) != 0)
      ensures !ok ==> blocks == old(blocks)
      ensures forall n: Name | n != name :: Find(AllRecs(blocks), n) == Find(AllRecs(old(blocks)), n)
      ensures ok ==>
        var was := Live(AllRecs(old(blocks)));
        k < |was| && was[k].name == name && Live(AllRecs(blocks)) == was[..k] + was[k + 1..]
    {
      hide Find, Tiled, Recs, Live;
      k := 0;
      var i := 0;
      FindNone(name);
      while i < |blocks|
        invariant i <= |blocks| && blocks == old(blocks) && Find(AllRecs(blocks[..i]), name) == 0
      {
        var done, b;
        ghost var at;
        done, b, at := ClearInBlock(blocks[i], name);
        if done {
          k := ClearedInBlock(blocks, i, b, at);
          blocks := blocks[i := b];
          return true, k;
        }
        FirstBlocks(blocks, i);
        FindConcat(AllRecs(blocks[..i]), Recs(blocks[i], 0), name);
        i := i + 1;
      }
      assert blocks[..i] == blocks;
      ok := false;
    }

    /** The emptiness test of ext2_unlink(): no live entry but the dots. */
    method Empty() returns (empty: bool)
      requires Valid()
      ensures empty <==> OnlyDots(Live(AllRecs(blocks)))
    {
      hide Tiled, Recs, AllRecs, Inode, RecLen, NameLen, RecOk, RecAt, AtRecord, Rest, OnlyDots;
      var off: nat := 0;
      RestFromStart(blocks);
      while off < |blocks| * BSIZE
        invariant AtRecord(blocks, off) && (OnlyDots(Live(AllRecs(blocks))) <==> OnlyDots(Live(Rest(blocks, off))))
        decreases |blocks| * BSIZE - off
      {
        RestStep(blocks, off);
        var b, boff := blocks[off / BSIZE], off % BSIZE;
        Fields(b, boff);
        assert Rest(blocks, off)[1..] == Rest(blocks, off + RecLen(b, boff));
        DotsStep(Rest(blocks, off));
        if Inode(b, boff) != 0 && !IsDot(b[boff + HEAD..boff + HEAD + NameLen(b, boff)]) {
          return false;
        }
        off := off + RecLen(b, boff);
      }
      RestEnd(blocks, off);
      assert OnlyDots([]) by { DotsNone(); }
      empty := true;
    }

    /**
      ext2_unlink(): `sub` is the directory the entry leads to if it leads to one, null if that cannot
      be read, and `links` the link count of the inode. It succeeds exactly for a name that is there
      and is no directory, or an empty one; then only the first entry with the name leaves the live
      ones. A directory counts itself and its parent, so it gives up two links and one of the parent's.
    */
    method Unlink(name: Name, isDir: bool, sub: Directory?, links: Links)
      returns (ok: bool, left: Links, orphaned: bool, ghost k: nat)
      requires Valid() && NoNul(name) && (sub != null ==> sub.Valid())
      modifies this
      ensures Valid() && |blocks| == |old(blocks)|
      ensures ok <==> && Find(AllRecs(old(blocks)), name) != 0
                      && (isDir ==> sub != null && OnlyDots(Live(AllRecs(old(sub.blocks)))))
      ensures !ok ==> blocks == old(blocks) && nlink == old(nlink) && left == links && !orphaned
      ensures forall n: Name | n != name :: Find(AllRecs(blocks), n) == Find(AllRecs(old(blocks)), n)
      ensures ok ==>
        var was := Live(AllRecs(old(blocks)));
        k < |was| && was[k].name == name && Live(AllRecs(blocks)) == was[..k] + was[k + 1..]
      ensures ok ==> (nlink + (if isDir then 1 else 0) - old(nlink)) % LINKS == 0
      ensures ok ==> (left + (if isDir then 2 else 1) - links) % LINKS == 0 && (orphaned <==> left == 0)
    {
      hide Find, AllRecs, Live, OnlyDots;
      k, left, orphaned := 0, links, false;
      if isDir {
        if sub == null {
          return false, links, false, 0;
        }
        var empty := sub.Empty();
        if !empty {
          return false, links, false, 0;
        }
      }
      ok, k := Clear(name);
      if ok {
        if isDir {
          nlink := (nlink - 1) % LINKS;
          left := (left - 1) % LINKS;
        }
        left := (left - 1) % LINKS;
        orphaned := left == 0;
      }
    }

    /**
      ext2_readdir(): the next live entry from off on, and the offset behind it; -1 at the end or when
      the entry cannot be copied out. The reported inode is cut to 16 bits.
    */
    method Readdir(off0: nat, copied: bool) returns (next: int, inum: nat, name: Name)
      requires Valid() && AtRecord(blocks, off0)
      ensures next == -1 <==> Live(Rest(blocks, off0)) == [] || !copied
      ensures next != -1 ==>
        var live := Live(Rest(blocks, off0));
        && off0 < next && AtRecord(blocks, next) && inum == live[0].inode % 0x1_0000 && name == live[0].name
        && Live(Rest(blocks, next)) == live[1..]
    {
      hide Tiled, Recs, AllRecs, Inode, RecLen, NameLen, RecOk, RecAt, AtRecord, Rest;
      var off: nat := off0;
      while off < |blocks| * BSIZE
        invariant off0 <= off && AtRecord(blocks, off) && Live(Rest(blocks, off)) == Live(Rest(blocks, off0))
        decreases |blocks| * BSIZE - off
      {
        RestStep(blocks, off);
        var b, boff := blocks[off / BSIZE], off % BSIZE;
        Fields(b, boff);
        assert Rest(blocks, off)[1..] == Rest(blocks, off + RecLen(b, boff));
        if Inode(b, boff) != 0 {
          if !copied {
            return -1, 0, [];
          }
          return off + RecLen(b, boff), Inode(b, boff) % 0x1_0000, b[boff + HEAD..boff + HEAD + NameLen(b, boff)];
        }
        off := off + RecLen(b, boff);
      }
      RestEnd(blocks, off);
      next, inum, name := -1, 0, [];
    }

    /** Repeated ext2_readdir() from 0 lists every live entry exactly once, in order, with its inode. */
    method List() returns (names: seq<Name>, inums: seq<nat>)
      requires Valid()
      ensures var live := Live(AllRecs(blocks));
              && |names| == |inums| == |live|
              && forall i | 0 <= i < |live| :: names[i] == live[i].name && inums[i] == live[i].inode % 0x1_0000
    {
      hide Rest, AtRecord, AllRecs;
      names, inums := [], [];
      ghost var live := Live(AllRecs(blocks));
      RestFromStart(blocks);
      var off: nat := 0;
      var more := true;
      while more
        invariant AtRecord(blocks, off) && |inums| == |names| <= |live| && Live(Rest(blocks, off)) == live[|names|..]
        invariant forall i | 0 <= i < |names| :: names[i] == live[i].name && inums[i] == live[i].inode % 0x1_0000
        invariant !more ==> |names| == |live|
        decreases |live| - |names|, more
      {
        var next, inum, name := Readdir(off, true);
        if next == -1 {
          more := false;
        } else {
          names, inums := names + [name], inums + [inum];
          off := next;
        }
      }
    }
  }

  predicate IsDot(name: Name) {
    name == [46] || name == [46, 46]
  }

  predicate OnlyDots(recs: seq<Rec>) {
    forall i | 0 <= i < |recs| :: IsDot(recs[i].name)
  }

  lemma DotsNone()
    ensures OnlyDots(Live([]))
  {}

  lemma DotsCons(live: seq<Rec>)
    requires live != []
    ensures OnlyDots(live) <==> IsDot(live[0].name) && OnlyDots(live[1..])
  {
    hide IsDot;
    if IsDot(live[0].name) && OnlyDots(live[1..]) {
      forall i | 0 <= i < |live| ensures IsDot(live[i].name) {
        assert i > 0 ==> live[i] == live[1..][i - 1];
      }
    } else if OnlyDots(live) {
      forall i | 0 <= i < |live| - 1 ensures IsDot(live[1..][i].name) {
        assert live[1..][i] == live[i + 1];
      }
    }
  }

  lemma DotsStep(recs: seq<Rec>)
    requires recs != []
    ensures OnlyDots(Live(recs)) <==> (recs[0].inode != 0 ==> IsDot(recs[0].name)) && OnlyDots(Live(recs[1..]))
  {
    hide IsDot;
    var live, rest := Live(recs), Live(recs[1..]);
    if recs[0].inode != 0 {
      assert live[0] == recs[0] && live[1..] == rest;
      DotsCons(live);
    }
  }
}
