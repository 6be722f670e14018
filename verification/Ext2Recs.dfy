/**
  Directory blocks of kernel/ext2.c: 1024 bytes tiled by variable-length records (inode, rec_len,
  name_len, file_type, name), read as a sequence of records.
*/
module Ext2Recs {
  import opened Bytes

  const BSIZE: nat := 1024
  const HEAD: nat := 8

  type Block = b: seq<Byte> | |b| == BSIZE witness seq(BSIZE, _ => 0)
  type Name = seq<Byte>

  datatype Rec = Rec(inode: nat, len: nat, name: Name)

  predicate NoNul(name: Name) {
    forall i | 0 <= i < |name| :: name[i] != 0
  }

  function Inode(b: Block, o: nat): nat
    requires o + HEAD <= BSIZE
  {
    (b[o] as int) + 0x100 * (b[o + 1] as int) + 0x1_0000 * (b[o + 2] as int) + 0x100_0000 * (b[o + 3] as int)
  }

  function RecLen(b: Block, o: nat): nat
    requires o + HEAD <= BSIZE
  {
    (b[o + 4] as int) + 0x100 * (b[o + 5] as int)
  }

  function NameLen(b: Block, o: nat): nat
    requires o + HEAD <= BSIZE
  {
    b[o + 6]
  }

  /** Header and name, rounded up to four bytes. */
  function Need(n: nat): nat {
    (HEAD + n + 3) / 4 * 4
  }

  /** A record that holds its name, is four-aligned and ends inside the block. */
  predicate RecOk(b: Block, o: nat) {
    && o % 4 == 0 && o + HEAD <= BSIZE && HEAD <= RecLen(b, o) && RecLen(b, o) % 4 == 0
    && Need(NameLen(b, o)) <= RecLen(b, o) && o + RecLen(b, o) <= BSIZE
    && (Inode(b, o) != 0 ==> NoNul(b[o + HEAD..o + HEAD + NameLen(b, o)]))
  }

  /** From o on the block is exactly tiled by records. */
  predicate Tiled(b: Block, o: nat)
    decreases BSIZE - o
  {
    o == BSIZE || (o < BSIZE && RecOk(b, o) && Tiled(b, o + RecLen(b, o)))
  }

  function RecAt(b: Block, o: nat): Rec
    requires RecOk(b, o)
  {
    Rec(Inode(b, o), RecLen(b, o), b[o + HEAD..o + HEAD + NameLen(b, o)])
  }

  /** The records from o on. */
  function Recs(b: Block, o: nat): seq<Rec>
    requires Tiled(b, o)
    decreases BSIZE - o
  {
    if o == BSIZE then [] else [RecAt(b, o)] + Recs(b, o + RecLen(b, o))
  }

  /** p is a record boundary at or after o. */
  predicate Boundary(b: Block, o: nat, p: nat)
    requires Tiled(b, o)
    decreases BSIZE - o
  {
    o == p || (o < BSIZE && Boundary(b, o + RecLen(b, o), p))
  }

  /** The records from o up to the boundary p. */
  function RecsTo(b: Block, o: nat, p: nat): seq<Rec>
    requires Tiled(b, o) && Boundary(b, o, p)
    decreases BSIZE - o
  {
    if o == p then [] else [RecAt(b, o)] + RecsTo(b, o + RecLen(b, o), p)
  }

  lemma Cons(x: Rec, a: seq<Rec>, b: seq<Rec>)
    ensures [x] + (a + b) == ([x] + a) + b
  {}

  /** At a boundary the rest is tiled, and the records split there. */
  lemma {:induction false} SplitAt(b: Block, o: nat, p: nat)
    requires Tiled(b, o) && Boundary(b, o, p)
    ensures o <= p <= BSIZE && Tiled(b, p) && Recs(b, o) == RecsTo(b, o, p) + Recs(b, p)
    decreases BSIZE - o
  {
    hide Need, Inode, RecLen, NameLen, NoNul, RecAt;
    if o != p {
      var n := o + RecLen(b, o);
      SplitAt(b, n, p);
      Cons(RecAt(b, o), RecsTo(b, n, p), Recs(b, p));
    }
  }

  lemma {:induction false} NextBoundary(b: Block, o: nat, p: nat)
    requires Tiled(b, o) && Boundary(b, o, p) && p < BSIZE && RecOk(b, p)
    ensures Boundary(b, o, p + RecLen(b, p)) && RecsTo(b, o, p + RecLen(b, p)) == RecsTo(b, o, p) + [RecAt(b, p)]
    decreases BSIZE - o
  {
    hide Need, Inode, RecLen, NameLen, NoNul, RecAt;
    var n := o + RecLen(b, o);
    var q := p + RecLen(b, p);
    if o != p {
      SplitAt(b, n, p);
      NextBoundary(b, n, p);
      Cons(RecAt(b, o), RecsTo(b, n, p), [RecAt(b, p)]);
    } else {
      assert RecsTo(b, q, q) == [];
    }
  }

  /** What lies before a boundary depends only on the bytes before it. */
  lemma {:induction false} SamePrefix(b: Block, b': Block, o: nat, p: nat)
    requires Tiled(b, o) && Boundary(b, o, p) && Tiled(b', p) && p <= BSIZE && b[..p] == b'[..p]
    ensures Tiled(b', o) && Boundary(b', o, p) && RecsTo(b', o, p) == RecsTo(b, o, p)
    decreases BSIZE - o
  {
    hide Need, Inode, RecLen, NameLen, NoNul, RecAt;
    SplitAt(b, o, p);
    if o != p {
      SplitAt(b, o + RecLen(b, o), p);
      SameRec(b, b', o, p);
      SamePrefix(b, b', o + RecLen(b, o), p);
    }
  }

  lemma SameRec(b: Block, b': Block, o: nat, p: nat)
    requires RecOk(b, o) && o + RecLen(b, o) <= p <= BSIZE && b[..p] == b'[..p]
    ensures RecOk(b', o) && RecAt(b', o) == RecAt(b, o) && RecLen(b', o) == RecLen(b, o)
  {
    forall i | 0 <= i < p ensures b[i] == b'[i] {
      assert b[i] == b[..p][i];
    }
    assert b[o + HEAD..o + HEAD + NameLen(b, o)] == b'[o + HEAD..o + HEAD + NameLen(b, o)];
  }

  /** What lies behind depends only on the bytes behind. */
  lemma {:induction false} SameSuffix(b: Block, b': Block, o: nat)
    requires Tiled(b, o) && o <= BSIZE && b[o..] == b'[o..]
    ensures Tiled(b', o) && Recs(b', o) == Recs(b, o)
    decreases BSIZE - o
  {
    hide Need, Inode, RecLen, NameLen, NoNul, RecAt;
    if o != BSIZE {
      SameRecAfter(b, b', o);
      var n := o + RecLen(b, o);
      SuffixOf(b, b', o, n);
      SameSuffix(b, b', n);
    }
  }

  lemma SameRecAfter(b: Block, b': Block, o: nat)
    requires RecOk(b, o) && b[o..] == b'[o..]
    ensures RecOk(b', o) && RecAt(b', o) == RecAt(b, o) && RecLen(b', o) == RecLen(b, o)
  {
    forall i | o <= i < BSIZE ensures b[i] == b'[i] {
      assert b[i] == b[o..][i - o];
    }
    assert b[o + HEAD..o + HEAD + NameLen(b, o)] == b'[o + HEAD..o + HEAD + NameLen(b, o)];
  }

  lemma PrefixOf(a: seq<Byte>, b: seq<Byte>, o: nat, e: nat)
    requires o <= e <= |a| == |b| && a[..e] == b[..e]
    ensures a[..o] == b[..o]
  {
    assert a[..o] == a[..e][..o] && b[..o] == b[..e][..o];
  }

  lemma SuffixOf(a: seq<Byte>, b: seq<Byte>, o: nat, e: nat)
    requires o <= e <= |a| == |b| && a[o..] == b[o..]
    ensures a[e..] == b[e..]
  {
    assert a[e..] == a[o..][e - o..] && b[e..] == b[o..][e - o..];
  }

  // ---- Updates in place ----

  /** A record stored at o. */
  function PutRec(b: Block, o: nat, inum: nat, len: nat, ftype: Byte, name: Name): (r: Block)
    requires o + HEAD + |name| <= BSIZE && inum < 0x1_0000_0000 && len < 0x1_0000 && |name| < 0x100
    ensures r[..o] == b[..o] && r[o + HEAD + |name|..] == b[o + HEAD + |name|..]
    ensures Inode(r, o) == inum && RecLen(r, o) == len && NameLen(r, o) == |name|
    ensures r[o + HEAD..o + HEAD + |name|] == name
  {
    FourBytes(inum);
    b[..o] + Header(inum, len, |name|, ftype) + name + b[o + HEAD + |name|..]
  }

  function Header(inum: nat, len: nat, n: Byte, ftype: Byte): (h: seq<Byte>)
    requires inum < 0x1_0000_0000 && len < 0x1_0000
    ensures |h| == HEAD
  {
    [inum % 0x100, inum / 0x100 % 0x100, inum / 0x1_0000 % 0x100, inum / 0x100_0000, len % 0x100, len / 0x100, n, ftype]
  }

  /** rec_len alone. */
  function PutLen(b: Block, o: nat, len: nat): (r: Block)
    requires o + HEAD <= BSIZE && len < 0x1_0000
    ensures r[..o] == b[..o] && r[o + HEAD..] == b[o + HEAD..]
    ensures Inode(r, o) == Inode(b, o) && RecLen(r, o) == len && NameLen(r, o) == NameLen(b, o)
  {
    b[o + 4 := len % 0x100][o + 5 := len / 0x100]
  }

  /** inode alone, to zero. */
  function ClearInode(b: Block, o: nat): (r: Block)
    requires o + HEAD <= BSIZE
    ensures r[..o] == b[..o] && r[o + HEAD..] == b[o + HEAD..]
    ensures Inode(r, o) == 0 && RecLen(r, o) == RecLen(b, o) && NameLen(r, o) == NameLen(b, o)
  {
    b[o := 0][o + 1 := 0][o + 2 := 0][o + 3 := 0]
  }

  /** A record written over [o, o+len), with the rest behind it untouched, in front of the old rest. */
  lemma WriteRec(b: Block, o: nat, inum: nat, len: nat, ftype: Byte, name: Name)
    requires o % 4 == 0 && len % 4 == 0 && Need(|name|) <= len && o + len <= BSIZE && inum < 0x1_0000_0000
    requires |name| < 0x100
    requires Tiled(b, o + len) && NoNul(name)
    ensures o + HEAD + |name| <= BSIZE
    ensures var r := PutRec(b, o, inum, len, ftype, name);
            Tiled(r, o) && Recs(r, o) == [Rec(inum, len, name)] + Recs(b, o + len)
  {
    var r := PutRec(b, o, inum, len, ftype, name);
    SuffixOf(r, b, o + HEAD + |name|, o + len);
    SameSuffix(b, r, o + len);
  }
}
