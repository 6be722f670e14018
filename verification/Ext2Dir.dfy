/**
  Directory operations of kernel/ext2.c on tiled blocks: ext2_dir_lookup(), ext2_dir_add() with its
  reuse, split and grow cases, the entry clearing of ext2_unlink(), and ext2_readdir().
*/
module Ext2Dir {
  import opened Bytes
  import opened Ext2Recs

  predicate BlocksOk(blocks: seq<Block>) {
    forall i | 0 <= i < |blocks| :: Tiled(blocks[i], 0)
  }

  /** All records of the directory in order. */
  function AllRecs(blocks: seq<Block>): seq<Rec>
    requires BlocksOk(blocks)
  {
    if blocks == [] then [] else Recs(blocks[0], 0) + AllRecs(blocks[1..])
  }

  lemma {:induction false} AroundBlock(blocks: seq<Block>, i: nat)
    requires BlocksOk(blocks) && i < |blocks|
    ensures AllRecs(blocks) == AllRecs(blocks[..i]) + (Recs(blocks[i], 0) + AllRecs(blocks[i + 1..]))
  {
    hide Tiled, Recs;
    if i == 0 {
      assert blocks[..0] == [];
    } else {
      AroundBlock(blocks[1..], i - 1);
      assert blocks[1..][..i - 1] == blocks[..i][1..] && blocks[1..][i..] == blocks[i + 1..];
      assert blocks[..i][0] == blocks[0];
    }
  }

  // ---- Names ----

  /** The inode of the first live record with the name, 0 if there is none. */
  function Find(recs: seq<Rec>, name: Name): nat {
    if recs == [] then 0
    else if recs[0].inode != 0 && recs[0].name == name then recs[0].inode
    else Find(recs[1..], name)
  }

  lemma {:induction false} FindConcat(a: seq<Rec>, b: seq<Rec>, name: Name)
    ensures Find(a + b, name) == if Find(a, name) != 0 then Find(a, name) else Find(b, name)
  {
    if a == [] {
      assert a + b == b;
    } else {
      FindConcat(a[1..], b, name);
      assert (a + b)[1..] == a[1..] + b;
    }
  }

  // ---- The listing ----

  /** Inode and name of the live records, in order. */
  function Entries(recs: seq<Rec>): (e: seq<(nat, Name)>) {
    if recs == [] then []
    else if recs[0].inode != 0 then [(recs[0].inode, recs[0].name)] + Entries(recs[1..])
    else Entries(recs[1..])
  }

  lemma {:induction false} EntriesConcat(a: seq<Rec>, b: seq<Rec>)
    ensures Entries(a + b) == Entries(a) + Entries(b)
  {
    if a == [] {
      assert a + b == b;
    } else {
      EntriesConcat(a[1..], b);
      assert (a + b)[1..] == a[1..] + b;
    }
  }

  lemma {:induction false} EntriesLive(recs: seq<Rec>)
    ensures |Entries(recs)| == |Live(recs)|
    ensures forall i | 0 <= i < |Live(recs)| :: Entries(recs)[i] == (Live(recs)[i].inode, Live(recs)[i].name)
  {
    if recs != [] { EntriesLive(recs[1..]); }
  }

  /** One entry e more, at some place. */
  ghost predicate Inserted(was: seq<(nat, Name)>, now: seq<(nat, Name)>, e: (nat, Name)) {
    exists k | 0 <= k <= |was| :: now == was[..k] + [e] + was[k..]
  }

  lemma InsertedBetween(a: seq<(nat, Name)>, was: seq<(nat, Name)>, now: seq<(nat, Name)>, b: seq<(nat, Name)>,
                        e: (nat, Name))
    requires Inserted(was, now, e)
    ensures Inserted(a + (was + b), a + (now + b), e)
  {
    var k :| 0 <= k <= |was| && now == was[..k] + [e] + was[k..];
    var all, j := a + (was + b), |a| + k;
    assert all[..j] == a + was[..k] && all[j..] == was[k..] + b;
    assert a + (now + b) == all[..j] + [e] + all[j..];
  }

  /**
    Every name finds what it found, except that a new name finds inum, and the listing has one more
    entry.
  */
  ghost predicate Added(recs: seq<Rec>, recs': seq<Rec>, name: Name, inum: nat) {
    && (forall n: Name | n != name :: Find(recs', n) == Find(recs, n))
    && (Find(recs, name) == 0 ==> Find(recs', name) == inum)
    && Inserted(Entries(recs), Entries(recs'), (inum, name))
  }

  lemma ListedBetween(a: seq<Rec>, mid: seq<Rec>, mid': seq<Rec>, b: seq<Rec>, e: (nat, Name))
    requires Inserted(Entries(mid), Entries(mid'), e)
    ensures Inserted(Entries(a + (mid + b)), Entries(a + (mid' + b)), e)
  {
    hide Entries, Inserted;
    EntriesConcat(a, mid + b);
    EntriesConcat(mid, b);
    EntriesConcat(a, mid' + b);
    EntriesConcat(mid', b);
    InsertedBetween(Entries(a), Entries(mid), Entries(mid'), Entries(b), e);
  }

  /** Replacing mid by mid' that finds name as inum and other names alike. */
  lemma AddedBetween(a: seq<Rec>, mid: seq<Rec>, mid': seq<Rec>, b: seq<Rec>, name: Name, inum: nat)
    requires Added(mid, mid', name, inum) && inum != 0
    ensures Added(a + (mid + b), a + (mid' + b), name, inum)
  {
    hide Find, Entries, Inserted;
    ListedBetween(a, mid, mid', b, (inum, name));
    forall n: Name
      ensures Find(a + (mid + b), n) == (if Find(a, n) != 0 then Find(a, n) else if Find(mid, n) != 0 then Find(mid, n)
                                         else Find(b, n))
      ensures Find(a + (mid' + b), n) == (if Find(a, n) != 0 then Find(a, n)
                                          else if Find(mid', n) != 0 then Find(mid', n) else Find(b, n))
    {
      FindConcat(a, mid + b, n);
      FindConcat(mid, b, n);
      FindConcat(a, mid' + b, n);
      FindConcat(mid', b, n);
    }
  }

  /** A deleted record that takes a new name. */
  lemma AddedReuse(r: Rec, r': Rec)
    requires r.inode == 0 && r'.inode != 0
    ensures Added([r], [r'], r'.name, r'.inode)
  {
    forall n: Name ensures Find([r], n) == 0 && (Find([r'], n) == if n == r'.name then r'.inode else 0) {
      assert [r][1..] == [] && [r'][1..] == [];
    }
    ListedReuse(r, r');
  }

  lemma ListedReuse(r: Rec, r': Rec)
    requires r.inode == 0 && r'.inode != 0
    ensures Inserted(Entries([r]), Entries([r']), (r'.inode, r'.name))
  {
    var e := (r'.inode, r'.name);
    assert [r][1..] == [] && [r'][1..] == [];
    assert Entries([r]) == [] && Entries([r']) == Entries([r]) + [e];
    ListedLast(Entries([r]), e);
  }

  /** A record shortened, with a new one behind it. */
  lemma AddedSplit(r: Rec, len: nat, r': Rec)
    requires r'.inode != 0
    ensures Added([r], [r.(len := len), r'], r'.name, r'.inode)
  {
    forall n: Name
      ensures Find([r], n) == (if r.inode != 0 && r.name == n then r.inode else 0)
      ensures Find([r.(len := len), r'], n) == (if r.inode != 0 && r.name == n then r.inode
                                                else if n == r'.name then r'.inode else 0)
    {
      assert [r][1..] == [] && [r.(len := len), r'][1..] == [r'] && [r'][1..] == [];
    }
    ListedSplit(r, len, r');
  }

  lemma ListedSplit(r: Rec, len: nat, r': Rec)
    requires r'.inode != 0
    ensures Inserted(Entries([r]), Entries([r.(len := len), r']), (r'.inode, r'.name))
  {
    var e, was := (r'.inode, r'.name), Entries([r]);
    assert [r][1..] == [] && [r.(len := len)][1..] == [] && [r'][1..] == [];
    assert [r.(len := len), r'] == [r.(len := len)] + [r'] && Entries([r.(len := len)]) == was;
    EntriesConcat([r.(len := len)], [r']);
    ListedLast(was, e);
  }

  lemma ListedLast(was: seq<(nat, Name)>, e: (nat, Name))
    ensures Inserted(was, was + [e], e)
  {
    assert was[..|was|] + [e] + was[|was|..] == was + [e];
  }

  /** A record in a new last block. */
  lemma AddedGrow(recs: seq<Rec>, r: Rec)
    requires r.inode != 0
    ensures Added(recs, recs + [r], r.name, r.inode)
  {
    forall n: Name
      ensures Find(recs + [r], n) == if Find(recs, n) != 0 then Find(recs, n) else if n == r.name then r.inode else 0
    {
      FindConcat(recs, [r], n);
      assert [r][1..] == [];
    }
    EntriesConcat(recs, [r]);
    assert [r][1..] == [];
    ListedLast(Entries(recs), (r.inode, r.name));
  }

  /** After clearing the first record found under a name, every other name is as before. */
  lemma ClearedOne(a: seq<Rec>, r: Rec, b: seq<Rec>)
    requires r.inode != 0 && Find(a, r.name) == 0
    ensures var recs, recs' := a + ([r] + b), a + ([r.(inode := 0)] + b);
            && (forall n: Name | n != r.name :: Find(recs', n) == Find(recs, n))
            && Find(recs, r.name) == r.inode && Find(recs', r.name) == Find(b, r.name)
  {
    forall n: Name
      ensures Find(a + ([r] + b), n) == (if Find(a, n) != 0 then Find(a, n) else if r.name == n then r.inode
                                         else Find(b, n))
      ensures Find(a + ([r.(inode := 0)] + b), n) == (if Find(a, n) != 0 then Find(a, n) else Find(b, n))
    {
      FindConcat(a, [r] + b, n);
      FindConcat([r], b, n);
      FindConcat(a, [r.(inode := 0)] + b, n);
      FindConcat([r.(inode := 0)], b, n);
      assert [r][1..] == [] && [r.(inode := 0)][1..] == [];
    }
  }

  // ---- Live records ----

  function Live(recs: seq<Rec>): seq<Rec> {
    if recs == [] then [] else if recs[0].inode != 0 then [recs[0]] + Live(recs[1..]) else Live(recs[1..])
  }

  lemma {:induction false} LiveConcat(a: seq<Rec>, b: seq<Rec>)
    ensures Live(a + b) == Live(a) + Live(b)
  {
    if a == [] {
      assert a + b == b;
    } else {
      LiveConcat(a[1..], b);
      assert (a + b)[1..] == a[1..] + b;
      Cons(a[0], Live(a[1..]), Live(b));
    }
  }

  // ---- In place ----

  /** A record of a block reused for a new name. */
  lemma ReusedBlock(b: Block, o: nat, inum: nat, ftype: Byte, name: Name)
    requires Tiled(b, 0) && Boundary(b, 0, o) && o < BSIZE && RecOk(b, o) && Inode(b, o) == 0
    requires Need(|name|) <= RecLen(b, o)
    requires NoNul(name) && |name| < 0x100 && 0 < inum < 0x1_0000_0000
    ensures o + HEAD + |name| <= BSIZE
    ensures var r := PutRec(b, o, inum, RecLen(b, o), ftype, name);
            Tiled(r, 0) && Added(Recs(b, 0), Recs(r, 0), name, inum)
  {
    hide Added, Find, Entries, Inserted, PutRec;
    var len := RecLen(b, o);
    SplitAt(b, 0, o);
    WriteRec(b, o, inum, len, ftype, name);
    var r := PutRec(b, o, inum, len, ftype, name);
    SamePrefix(b, r, 0, o);
    SplitAt(r, 0, o);
    AddedReuse(RecAt(b, o), Rec(inum, len, name));
    AddedBetween(RecsTo(b, 0, o), [RecAt(b, o)], [Rec(inum, len, name)], Recs(b, o + len), name, inum);
  }

  /** The block after a split at o: the record keeps what its name needs, the new one takes the rest. */
  function SplitBlock(b: Block, o: nat, inum: nat, ftype: Byte, name: Name): Block
    requires RecOk(b, o) && RecLen(b, o) - Need(NameLen(b, o)) >= Need(|name|) && |name| < 0x100 && inum < 0x1_0000_0000
  {
    var kept := Need(NameLen(b, o));
    PutRec(PutLen(b, o, kept), o + kept, inum, RecLen(b, o) - kept, ftype, name)
  }

  lemma SplitTail(b: Block, o: nat, inum: nat, ftype: Byte, name: Name)
    requires RecOk(b, o) && Tiled(b, o + RecLen(b, o)) && RecLen(b, o) - Need(NameLen(b, o)) >= Need(|name|)
    requires NoNul(name) && |name| < 0x100 && 0 < inum < 0x1_0000_0000
    ensures var r, kept := SplitBlock(b, o, inum, ftype, name), Need(NameLen(b, o));
            && r[..o] == b[..o] && Tiled(r, o)
            && Recs(r, o) == [RecAt(b, o).(len := kept), Rec(inum, RecLen(b, o) - kept, name)]
                             + Recs(b, o + RecLen(b, o))
  {
    hide PutRec, PutLen, Inode, RecLen, NameLen, NoNul, RecAt, Need, Tiled, Recs;
    var len, kept := RecLen(b, o), Need(NameLen(b, o));
    Aligned(NameLen(b, o), o, len);
    Aligned(|name|, o, len);
    var b1 := PutLen(b, o, kept);
    SuffixOf(b1, b, o + HEAD, o + len);
    SameSuffix(b, b1, o + len);
    WriteRec(b1, o + kept, inum, len - kept, ftype, name);
    var r := PutRec(b1, o + kept, inum, len - kept, ftype, name);
    PrefixOf(r, b1, o, o + kept);
    FirstOfSplit(b, b1, r, o, kept);
    FirstThen(r, o, kept, RecAt(b, o).(len := kept), Rec(inum, len - kept, name), Recs(b, o + len));
  }

  lemma Aligned(n: nat, o: nat, len: nat)
    requires o % 4 == 0 && len % 4 == 0
    ensures HEAD + n <= Need(n) && Need(n) % 4 == 0 && (o + Need(n)) % 4 == 0 && (len - Need(n)) % 4 == 0
  {}

  lemma FirstThen(r: Block, o: nat, kept: nat, x: Rec, y: Rec, rest: seq<Rec>)
    requires RecOk(r, o) && RecAt(r, o) == x && x.len == kept && Tiled(r, o + kept) && Recs(r, o + kept) == [y] + rest
    ensures Tiled(r, o) && Recs(r, o) == [x, y] + rest
  {
    Cons(x, [y], rest);
  }

  lemma FirstOfSplit(b: Block, b1: Block, r: Block, o: nat, kept: nat)
    requires RecOk(b, o) && kept == Need(NameLen(b, o)) <= RecLen(b, o) && b1 == PutLen(b, o, kept)
    requires r[..o + kept] == b1[..o + kept]
    ensures RecOk(r, o) && RecAt(r, o) == RecAt(b, o).(len := kept)
  {
    hide PutLen;
    var n := NameLen(b, o);
    forall i | 0 <= i < o + kept ensures r[i] == b1[i] {
      assert r[i] == r[..o + kept][i];
    }
    assert b1[o + HEAD..o + HEAD + n] == b1[o + HEAD..][..n] == b[o + HEAD..][..n] == b[o + HEAD..o + HEAD + n];
    assert r[o + HEAD..o + HEAD + n] == b1[o + HEAD..o + HEAD + n];
  }

  lemma SplitBlockAdds(b: Block, o: nat, inum: nat, ftype: Byte, name: Name)
    requires Tiled(b, 0) && Boundary(b, 0, o) && o < BSIZE && RecOk(b, o)
    requires RecLen(b, o) - Need(NameLen(b, o)) >= Need(|name|)
    requires NoNul(name) && |name| < 0x100 && 0 < inum < 0x1_0000_0000
    ensures var r := SplitBlock(b, o, inum, ftype, name); Tiled(r, 0) && Added(Recs(b, 0), Recs(r, 0), name, inum)
  {
    hide Added, Find, Entries, Inserted, SplitBlock, Inode, RecLen, NameLen, NoNul, Need;
    var len, kept := RecLen(b, o), Need(NameLen(b, o));
    SplitAt(b, 0, o);
    SplitTail(b, o, inum, ftype, name);
    var r := SplitBlock(b, o, inum, ftype, name);
    SamePrefix(b, r, 0, o);
    SplitAt(r, 0, o);
    AddedSplit(RecAt(b, o), kept, Rec(inum, len - kept, name));
    AddedBetween(RecsTo(b, 0, o), [RecAt(b, o)], [RecAt(b, o).(len := kept), Rec(inum, len - kept, name)],
                 Recs(b, o + len), name, inum);
  }

  /** One block changed by an addition. */
  lemma AddedInBlock(blocks: seq<Block>, i: nat, b: Block, name: Name, inum: nat)
    requires BlocksOk(blocks) && i < |blocks| && Tiled(b, 0) && Added(Recs(blocks[i], 0), Recs(b, 0), name, inum)
    requires inum != 0
    ensures BlocksOk(blocks[i := b]) && Added(AllRecs(blocks), AllRecs(blocks[i := b]), name, inum)
  {
    hide Added, Tiled, Recs;
    AroundBlock(blocks, i);
    AroundBlock(blocks[i := b], i);
    assert blocks[i := b][..i] == blocks[..i] && blocks[i := b][i + 1..] == blocks[i + 1..];
    AddedBetween(AllRecs(blocks[..i]), Recs(blocks[i], 0), Recs(b, 0), AllRecs(blocks[i + 1..]), name, inum);
  }
}
