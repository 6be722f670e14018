/**
  dlookup() of kernel/fat32.c as a state machine over directory entries, and what it finds once
  dwrite_lfn() has written a name. Its character buffer starts uninitialised: every cell that no entry
  has written holds whatever the memory held before.
*/
module LfnLookup {
  import opened Bytes
  import opened Lfn

  function Lower(c: Byte): Byte {
    if 65 <= c <= 90 then c + 32 else c
  }

  function Upper(c: Byte): Byte {
    if 97 <= c <= 122 then c - 32 else c
  }

  predicate SameNoCase(a: Name, b: Name) {
    |a| == |b| && forall i | 0 <= i < |a| :: Lower(a[i]) == Lower(b[i])
  }

  function FirstDot(s: Name): (i: nat)
    ensures i <= |s| && (i < |s| ==> s[i] == 46) && (forall k | 0 <= k < i :: s[k] != 46)
  {
    if s == [] || s[0] == 46 then 0 else 1 + FirstDot(s[1..])
  }

  /** name83(): eight characters up to the first dot and three after it, upper case, space-padded. */
  function Name83(s: Name): (r: seq<Byte>)
    ensures |r| == 11
  {
    seq(11, i requires 0 <= i < 11 => Char83(s, i))
  }

  function Char83(s: Name, i: nat): Byte
    requires i < 11
  {
    var d := FirstDot(s);
    if i < 8 then (if i < d then Upper(s[i]) else 32)
    else if d + 1 + (i - 8) < |s| then Upper(s[d + 1 + (i - 8)]) else 32
  }

  /** "." and ".." match their own on-disk form. */
  predicate DotMatch(nm: Name, short: seq<Byte>)
    requires |short| == 11
  {
    || (nm == [46] && short[0] == 46 && short[1] == 32)
    || (nm == [46, 46] && short[0] == 46 && short[1] == 46)
  }

  // ---- Memory ----

  /** The buffer and the memory behind it, as far as 191 entries of 13 characters reach. */
  const MEM: nat := 191 * PER_ENTRY

  type Mem = m: seq<Ushort> | |m| == MEM witness seq(MEM, _ => 0)

  /** A cell never written, or the character written last. */
  datatype Cell = Junk | Char(c: Ushort)

  type Cells = c: seq<Cell> | |c| == MEM witness seq(MEM, _ => Junk)

  /** What is read when the memory held `junk` before. */
  function Fill(cells: Cells, junk: Mem): (m: Mem)
    ensures forall i | 0 <= i < MEM :: m[i] == if cells[i] == Junk then junk[i] else cells[i].c
  {
    seq(MEM, i requires 0 <= i < MEM => if cells[i] == Junk then junk[i] else cells[i].c)
  }

  /** The characters of entry s stored at its place; what does not fit the 260 characters is not stored. */
  function Put(cells: Cells, s: nat, c: seq<Ushort>): (r: Cells)
    requires |c| == PER_ENTRY
    ensures forall i | 0 <= i < MEM :: r[i] == PutAt(cells, s, c, i)
  {
    seq(MEM, i requires 0 <= i < MEM => PutAt(cells, s, c, i))
  }

  function PutAt(cells: Cells, s: nat, c: seq<Ushort>, i: nat): Cell
    requires |c| == PER_ENTRY && i < MEM
  {
    var k := i - (s - 1) * PER_ENTRY;
    if i < BUF && 0 <= k < PER_ENTRY then Char(c[k]) else cells[i]
  }

  // ---- dlookup() ----

  /** The locals of dlookup(): the character buffer, how much of it counts, and what entry is expected. */
  datatype Pending = Pending(cells: Cells, chars: nat, cksum: Byte, active: bool, next: int)

  function Start(): Pending {
    Pending(seq(MEM, _ => Junk), 0, 0, false, 0)
  }

  function Forget(st: Pending): Pending {
    st.(chars := 0, active := false)
  }

  predicate IsShort(e: Raw) {
    e[0] != 0 && e[0] != 0xE5 && !IsLong(e)
  }

  /** What dlookup() remembers after an entry that is not the one looked for. */
  function After(e: Raw, st: Pending): Pending {
    if e[0] == 0xE5 || !IsLong(e) then Forget(st)
    else
      var s := SeqOf(e);
      if IsLast(e) then Pending(Put(st.cells, s, Chars(e)), s * PER_ENTRY, e[13], true, s - 1)
      else if st.active && e[13] == st.cksum && s == st.next then
        st.(cells := Put(st.cells, s, Chars(e)), next := st.next - 1)
      else Forget(st)
  }

  /** What dlookup() remembers when it reaches entry i. */
  function Before(dir: seq<Raw>, i: nat): Pending
    requires i <= |dir|
  {
    if i == 0 then Start() else After(dir[i - 1], Before(dir, i - 1))
  }

  /** A long name is pending that claims this short entry. */
  predicate Offered(e: Raw, st: Pending) {
    st.active && st.chars > 0 && Checksum(e[..11]) == st.cksum
  }

  predicate LongMatch(e: Raw, st: Pending, nm: Name, junk: Mem) {
    Offered(e, st) && SameNoCase(nm, Decode(Fill(st.cells, junk)[..Min(st.chars, MEM)], 0))
  }

  predicate ShortMatch(e: Raw, nm: Name) {
    DotMatch(nm, e[..11]) || Name83(nm) == e[..11]
  }

  predicate Matches(e: Raw, st: Pending, nm: Name, junk: Mem) {
    IsShort(e) && (LongMatch(e, st, nm, junk) || ShortMatch(e, nm))
  }

  datatype Found = None | At(index: nat)

  /** dlookup() from entry i on. */
  function Scan(dir: seq<Raw>, i: nat, st: Pending, nm: Name, junk: Mem): (r: Found)
    ensures r.At? ==> i <= r.index < |dir|
    decreases |dir| - i
  {
    if i >= |dir| || dir[i][0] == 0 then None
    else if Matches(dir[i], st, nm, junk) then At(i)
    else Scan(dir, i + 1, After(dir[i], st), nm, junk)
  }

  function Lookup(dir: seq<Raw>, nm: Name, junk: Mem): Found {
    Scan(dir, 0, Start(), nm, junk)
  }

  /** Entry i is the end marker or the entry looked for. */
  predicate Stops(dir: seq<Raw>, i: nat, nm: Name, junk: Mem)
    requires i < |dir|
  {
    dir[i][0] == 0 || Matches(dir[i], Before(dir, i), nm, junk)
  }

  /** dlookup() finds the first matching entry before any end marker. */
  lemma {:induction false} ScanAt(dir: seq<Raw>, i: nat, nm: Name, junk: Mem, k: nat)
    requires i <= k < |dir|
    ensures Scan(dir, i, Before(dir, i), nm, junk) == At(k) <==>
            && dir[k][0] != 0 && Matches(dir[k], Before(dir, k), nm, junk)
            && forall m | i <= m < k :: !Stops(dir, m, nm, junk)
    decreases |dir| - i
  {
    hide Matches, After;
    if i < k && !Stops(dir, i, nm, junk) {
      ScanAt(dir, i + 1, nm, junk, k);
    }
  }

  /** A lookup that fails walks past every entry up to an index with no end marker before it. */
  lemma {:induction false} WalksPast(dir: seq<Raw>, i: nat, off: nat, nm: Name, junk: Mem)
    requires i <= off <= |dir| && (forall k | i <= k < off :: dir[k][0] != 0)
    requires Scan(dir, i, Before(dir, i), nm, junk) == None
    ensures forall k | i <= k < off :: !Stops(dir, k, nm, junk)
    decreases off - i
  {
    hide Matches, After;
    if i < off {
      assert !Stops(dir, i, nm, junk);
      WalksPast(dir, i + 1, off, nm, junk);
    }
  }

  /** A lookup that matches nothing up to the end marker fails. */
  lemma {:induction false} WalksOut(dir: seq<Raw>, i: nat, off: nat, nm: Name, junk: Mem)
    requires i <= off < |dir| && dir[off][0] == 0
    requires forall k | i <= k < off :: !Stops(dir, k, nm, junk)
    ensures Scan(dir, i, Before(dir, i), nm, junk) == None
    decreases off - i
  {
    hide Matches, After;
    if i < off {
      assert !Stops(dir, i, nm, junk);
      WalksOut(dir, i + 1, off, nm, junk);
    }
  }

  lemma {:induction false} SameBefore(a: seq<Raw>, b: seq<Raw>, i: nat)
    requires i <= |a| && i <= |b| && a[..i] == b[..i]
    ensures Before(a, i) == Before(b, i)
  {
    hide After;
    if i > 0 {
      assert a[..i][..i - 1] == a[..i - 1] && b[..i][..i - 1] == b[..i - 1] && a[..i][i - 1] == b[..i][i - 1];
      SameBefore(a, b, i - 1);
    }
  }

  // ---- Matching with unknown characters ----

  predicate Completes(v: seq<Ushort>, u: seq<Cell>) {
    |v| == |u| && forall i | 0 <= i < |u| && u[i].Char? :: v[i] == u[i].c
  }

  /** Some contents of the unwritten cells make the characters spell the name. */
  predicate Fits(nm: Name, u: seq<Cell>, len: nat)
    decreases |u|
  {
    if u == [] || len >= NAME_MAX then nm == []
    else if u[0] == Junk then
      nm == [] || (0 < nm[0] < 128 && Fits(nm[1..], u[1..], len + 1)) || Fits(nm, u[1..], len)
    else if u[0].c == 0 || u[0].c == PAD then nm == []
    else if u[0].c < 128 then nm != [] && Lower(nm[0]) == Lower(u[0].c) && Fits(nm[1..], u[1..], len + 1)
    else Fits(nm, u[1..], len)
  }

  /** Some contents of the unwritten cells make them spell something else. */
  predicate Misses(nm: Name, u: seq<Cell>, len: nat)
    decreases |u|
  {
    if u == [] || len >= NAME_MAX then nm != []
    else if u[0] == Junk then true
    else if u[0].c == 0 || u[0].c == PAD then nm != []
    else if u[0].c < 128 then nm == [] || Lower(nm[0]) != Lower(u[0].c) || Misses(nm[1..], u[1..], len + 1)
    else Misses(nm, u[1..], len)
  }

  lemma SameStep(nm: Name, c: Byte, rest: Name)
    ensures SameNoCase(nm, [c] + rest) <==> nm != [] && Lower(nm[0]) == Lower(c) && SameNoCase(nm[1..], rest)
  {
    var b := [c] + rest;
    if nm != [] && |nm| == |b| && Lower(nm[0]) == Lower(c) && SameNoCase(nm[1..], rest) {
      forall i | 0 <= i < |nm| ensures Lower(nm[i]) == Lower(b[i]) {
        if i > 0 { assert nm[i] == nm[1..][i - 1] && b[i] == rest[i - 1]; }
      }
    }
    if SameNoCase(nm, b) {
      forall i | 0 <= i < |rest| ensures Lower(nm[1..][i]) == Lower(rest[i]) {
        assert nm[1..][i] == nm[i + 1] && b[i + 1] == rest[i];
      }
    }
  }

  lemma {:induction false} FitsAny(nm: Name, u: seq<Cell>, len: nat, v: seq<Ushort>)
    requires Completes(v, u)
    ensures SameNoCase(nm, Decode(v, len)) ==> Fits(nm, u, len)
    ensures !SameNoCase(nm, Decode(v, len)) ==> Misses(nm, u, len)
    decreases |u|
  {
    hide SameNoCase;
    SameEmpty(nm);
    if u != [] && len < NAME_MAX && v[0] != 0 && v[0] != PAD {
      if v[0] < 128 {
        SameStep(nm, v[0], Decode(v[1..], len + 1));
        LowerAscii(nm, v[0]);
        if nm != [] { FitsAny(nm[1..], u[1..], len + 1, v[1..]); }
      } else {
        FitsAny(nm, u[1..], len, v[1..]);
      }
    }
  }

  lemma SameEmpty(nm: Name)
    ensures SameNoCase(nm, []) <==> nm == []
  {}

  lemma LowerAscii(nm: Name, c: Byte)
    ensures nm != [] && 0 < c < 128 && Lower(nm[0]) == Lower(c) ==> 0 < nm[0] < 128
  {}

  lemma {:induction false} FitsSome(nm: Name, u: seq<Cell>, len: nat) returns (v: seq<Ushort>)
    requires Fits(nm, u, len)
    ensures Completes(v, u) && SameNoCase(nm, Decode(v, len))
    decreases |u|
  {
    hide SameNoCase;
    SameEmpty(nm);
    v := seq(|u|, i requires 0 <= i < |u| => if u[i] == Junk then 0 else u[i].c);
    if u != [] && len < NAME_MAX {
      if u[0] == Junk {
        if nm != [] {
          if 0 < nm[0] < 128 && Fits(nm[1..], u[1..], len + 1) {
            var w := FitsSome(nm[1..], u[1..], len + 1);
            v := [nm[0]] + w;
            assert v[1..] == w;
            SameStep(nm, nm[0], Decode(w, len + 1));
          } else {
            var w := FitsSome(nm, u[1..], len);
            v := [200] + w;
            assert v[1..] == w;
          }
        }
      } else if u[0].c != 0 && u[0].c != PAD {
        if u[0].c < 128 {
          var w := FitsSome(nm[1..], u[1..], len + 1);
          v := [u[0].c] + w;
          assert v[1..] == w;
          SameStep(nm, u[0].c, Decode(w, len + 1));
        } else {
          var w := FitsSome(nm, u[1..], len);
          v := [u[0].c] + w;
          assert v[1..] == w;
        }
      }
    }
  }

  lemma {:induction false} MissesSome(nm: Name, u: seq<Cell>, len: nat) returns (v: seq<Ushort>)
    requires Misses(nm, u, len)
    ensures Completes(v, u) && !SameNoCase(nm, Decode(v, len))
    decreases |u|
  {
    hide SameNoCase;
    SameEmpty(nm);
    v := seq(|u|, i requires 0 <= i < |u| => if u[i] == Junk then (if nm == [] then 97 else 0) else u[i].c);
    if u != [] && len < NAME_MAX {
      if u[0] == Junk {
        if nm == [] { SameStep(nm, 97, Decode(v[1..], len + 1)); }
      } else if u[0].c != 0 && u[0].c != PAD {
        if u[0].c >= 128 {
          var w := MissesSome(nm, u[1..], len);
          v := [u[0].c] + w;
          assert v[1..] == w;
        } else if nm != [] && Lower(nm[0]) == Lower(u[0].c) {
          var w := MissesSome(nm[1..], u[1..], len + 1);
          v := [u[0].c] + w;
          assert v[1..] == w;
          SameStep(nm, u[0].c, Decode(w, len + 1));
        } else {
          SameStep(nm, u[0].c, Decode(v[1..], len + 1));
        }
      }
    }
  }

  // ---- What depends on the memory ----

  /** The characters the pending name is read from. */
  function Shown(st: Pending): seq<Cell> {
    st.cells[..Min(st.chars, MEM)]
  }

  /** Some contents of the memory make dlookup() return this entry. */
  predicate CanMatch(e: Raw, st: Pending, nm: Name) {
    IsShort(e) && ((Offered(e, st) && Fits(nm, Shown(st), 0)) || ShortMatch(e, nm))
  }

  /** Whether dlookup() returns this entry depends on the contents of the memory. */
  predicate Torn(e: Raw, st: Pending, nm: Name) {
    IsShort(e) && Offered(e, st) && Fits(nm, Shown(st), 0) && Misses(nm, Shown(st), 0) && !ShortMatch(e, nm)
  }

  lemma FillShown(st: Pending, junk: Mem)
    ensures Completes(Fill(st.cells, junk)[..Min(st.chars, MEM)], Shown(st))
  {}

  lemma MatchNeeds(e: Raw, st: Pending, nm: Name, junk: Mem)
    ensures Matches(e, st, nm, junk) ==> CanMatch(e, st, nm)
    ensures CanMatch(e, st, nm) && !Torn(e, st, nm) ==> Matches(e, st, nm, junk)
  {
    hide Fits, Misses, SameNoCase, Decode, ShortMatch, Fill, Shown, IsShort, Checksum;
    FillShown(st, junk);
    FitsAny(nm, Shown(st), 0, Fill(st.cells, junk)[..Min(st.chars, MEM)]);
  }

  function Memory(v: seq<Ushort>): (m: Mem)
    requires |v| <= MEM
  {
    v + seq(MEM - |v|, _ => 0)
  }

  lemma FillsTo(st: Pending, v: seq<Ushort>)
    requires Completes(v, Shown(st))
    ensures Fill(st.cells, Memory(v))[..Min(st.chars, MEM)] == v
  {
    var n, m := Min(st.chars, MEM), Fill(st.cells, Memory(v));
    forall i | 0 <= i < n ensures m[i] == v[i] {
      assert Shown(st)[i] == st.cells[i];
    }
  }

  lemma MatchSome(e: Raw, st: Pending, nm: Name) returns (junk: Mem)
    requires CanMatch(e, st, nm)
    ensures Matches(e, st, nm, junk)
  {
    hide Fits, Misses, SameNoCase, Decode, ShortMatch, Fill, Shown, IsShort, Checksum;
    junk := seq(MEM, _ => 0);
    if Offered(e, st) && Fits(nm, Shown(st), 0) {
      var v := FitsSome(nm, Shown(st), 0);
      ShownSize(st);
      FillsTo(st, v);
      junk := Memory(v);
    }
  }

  lemma ShownSize(st: Pending)
    ensures |Shown(st)| == Min(st.chars, MEM)
  {}

  lemma MissSome(e: Raw, st: Pending, nm: Name) returns (junk: Mem)
    requires Torn(e, st, nm)
    ensures !Matches(e, st, nm, junk)
  {
    hide Fits, Misses, SameNoCase, Decode, ShortMatch, Fill, Shown, IsShort, Checksum;
    var v := MissesSome(nm, Shown(st), 0);
    ShownSize(st);
    FillsTo(st, v);
    junk := Memory(v);
  }

  /** dlookup() reaches entry i whatever the memory holds. */
  predicate Reached(dir: seq<Raw>, i: nat, nm: Name)
    requires i <= |dir|
  {
    forall k | 0 <= k < i :: dir[k][0] != 0 && !CanMatch(dir[k], Before(dir, k), nm)
  }

  lemma ReachedPasses(dir: seq<Raw>, i: nat, nm: Name, junk: Mem)
    requires i <= |dir| && Reached(dir, i, nm)
    ensures forall k | 0 <= k < i :: !Stops(dir, k, nm, junk)
  {
    hide CanMatch, Matches, After, Before;
    forall k | 0 <= k < i ensures !Stops(dir, k, nm, junk) {
      MatchNeeds(dir[k], Before(dir, k), nm, junk);
    }
  }

  ghost predicate TornReached(dir: seq<Raw>, nm: Name) {
    exists i | 0 <= i < |dir| :: Reached(dir, i, nm) && Torn(dir[i], Before(dir, i), nm)
  }

  lemma TornDiffers(dir: seq<Raw>, i: nat, nm: Name) returns (j: Mem, k: Mem)
    requires i < |dir| && Reached(dir, i, nm) && Torn(dir[i], Before(dir, i), nm)
    ensures Lookup(dir, nm, j) == At(i) != Lookup(dir, nm, k)
  {
    hide After, Matches, Fits, Misses;
    assert dir[i][0] != 0;
    j := MatchSome(dir[i], Before(dir, i), nm);
    k := MissSome(dir[i], Before(dir, i), nm);
    ReachedPasses(dir, i, nm, j);
    ScanAt(dir, 0, nm, j, i);
    ScanAt(dir, 0, nm, k, i);
  }

  lemma {:induction false} SettledFrom(dir: seq<Raw>, i: nat, nm: Name, j: Mem, k: Mem)
    requires i <= |dir| && Reached(dir, i, nm) && !TornReached(dir, nm)
    ensures Scan(dir, i, Before(dir, i), nm, j) == Scan(dir, i, Before(dir, i), nm, k)
    decreases |dir| - i
  {
    hide After, Matches, CanMatch, Torn, Reached, TornReached;
    if i < |dir| && dir[i][0] != 0 {
      MatchNeeds(dir[i], Before(dir, i), nm, j);
      MatchNeeds(dir[i], Before(dir, i), nm, k);
      ReachedNext(dir, i, nm);
      if !CanMatch(dir[i], Before(dir, i), nm) {
        SettledFrom(dir, i + 1, nm, j, k);
      }
    }
  }

  lemma ReachedNext(dir: seq<Raw>, i: nat, nm: Name)
    requires i < |dir| && Reached(dir, i, nm) && dir[i][0] != 0
    ensures TornReached(dir, nm) || !Torn(dir[i], Before(dir, i), nm)
    ensures !CanMatch(dir[i], Before(dir, i), nm) ==> Reached(dir, i + 1, nm)
  {
    hide CanMatch, Torn, Before;
  }

  /** The result of dlookup() depends on what its memory held before exactly when it reaches a torn entry. */
  lemma DependsIff(dir: seq<Raw>, nm: Name)
    ensures TornReached(dir, nm) <==> exists j: Mem, k: Mem :: Lookup(dir, nm, j) != Lookup(dir, nm, k)
  {
    hide Torn, Reached;
    if TornReached(dir, nm) {
      var i :| 0 <= i < |dir| && Reached(dir, i, nm) && Torn(dir[i], Before(dir, i), nm);
      var j, k := TornDiffers(dir, i, nm);
    } else {
      forall j: Mem, k: Mem ensures Lookup(dir, nm, j) == Lookup(dir, nm, k) {
        SettledFrom(dir, 0, nm, j, k) by { assert Reached(dir, 0, nm) by { ReachedFirst(dir, nm); } }
      }
    }
  }

  lemma ReachedFirst(dir: seq<Raw>, nm: Name)
    ensures Reached(dir, 0, nm)
  {}

  // ---- A complete run settles its name ----

  /** Every cell from the entry expected next up to the end of the pending name has been written. */
  predicate Written(st: Pending) {
    st.active ==> forall c | 0 <= c < Min(st.chars, BUF) && st.next * PER_ENTRY <= c :: st.cells[c].Char?
  }

  lemma {:induction false} WrittenBefore(dir: seq<Raw>, i: nat)
    requires i <= |dir|
    ensures Written(Before(dir, i))
  {
    if i > 0 { WrittenBefore(dir, i - 1); }
  }

  lemma {:induction false} KnownDecides(nm: Name, u: seq<Cell>, len: nat)
    requires forall c | 0 <= c < |u| :: u[c].Char?
    ensures Fits(nm, u, len) <==> !Misses(nm, u, len)
    decreases |u|
  {
    if u != [] {
      KnownDecides(nm, u[1..], len);
      if nm != [] { KnownDecides(nm[1..], u[1..], len + 1); }
    }
  }

  /** A run read down to its first entry, of at most twenty: its short entry is not torn. */
  lemma WholeNotTorn(dir: seq<Raw>, i: nat, nm: Name)
    requires i < |dir| && (Before(dir, i).active ==> Before(dir, i).next <= 0 && Before(dir, i).chars <= BUF)
    ensures !Torn(dir[i], Before(dir, i), nm)
  {
    hide Before, Fits, Misses, IsShort, ShortMatch, Checksum;
    WrittenBefore(dir, i);
    var st := Before(dir, i);
    if Offered(dir[i], st) {
      KnownDecides(nm, Shown(st), 0);
    }
  }

  // ---- The name that dwrite_lfn() wrote ----

  /** Halfway down a run: entries n..s are in the buffer, s-1 is expected next. */
  ghost predicate Midway(st: Pending, name: Name, n: nat, cksum: Byte, s: nat)
    requires |name| <= n * PER_ENTRY && 1 <= s <= n <= 20
  {
    && st.active && st.cksum == cksum && st.next == s - 1 && st.chars == n * PER_ENTRY
    && forall c | (s - 1) * PER_ENTRY <= c < n * PER_ENTRY :: st.cells[c] == Char(Padded(name, n)[c])
  }

  lemma PutNext(cells: Cells, name: Name, n: nat, s: nat)
    requires |name| <= n * PER_ENTRY && 1 <= s <= n <= 20
    requires forall c | s * PER_ENTRY <= c < n * PER_ENTRY :: cells[c] == Char(Padded(name, n)[c])
    ensures var r := Put(cells, s, Padded(name, n)[(s - 1) * PER_ENTRY..s * PER_ENTRY]);
            forall c | (s - 1) * PER_ENTRY <= c < n * PER_ENTRY :: r[c] == Char(Padded(name, n)[c])
  {
    hide Padded;
  }

  /** What is pending after entries n, ..., s of a run. */
  lemma {:induction false} ReadsRun(dir: seq<Raw>, off: nat, name: Name, short: Raw, s: nat)
    requires HasRun(dir, off, name, short) && 1 <= s <= Needed(|name|)
    ensures Midway(Before(dir, off + Needed(|name|) - s + 1), name, Needed(|name|), Checksum(short[..11]), s)
    decreases Needed(|name|) - s
  {
    hide Checksum, RunEntry, Padded, Put, Needed;
    var n := Needed(|name|);
    var k := off + n - s;
    RunEntryReads(name, n, Checksum(short[..11]), s);
    if s < n { ReadsRun(dir, off, name, short, s + 1); }
    PutNext(Before(dir, k).cells, name, n, s);
    assert dir[k] == RunEntry(name, n, Checksum(short[..11]), s);
  }

  /** The long name pending at the short entry is the name itself, whatever the memory held. */
  lemma PendingName(st: Pending, name: Name, n: nat, cksum: Byte, junk: Mem)
    requires n == Needed(|name|) && 1 <= |name| <= NAME_MAX && Ascii(name) && 1 <= n <= 20 && |name| <= n * PER_ENTRY
    requires Midway(st, name, n, cksum, 1)
    ensures Decode(Fill(st.cells, junk)[..Min(st.chars, MEM)], 0) == name
  {
    var u := Fill(st.cells, junk)[..n * PER_ENTRY];
    assert u[..n * PER_ENTRY] == u == Padded(name, n);
    PaddedStarts(name, n, u);
    DecodeName(u, name, 0);
  }

  lemma RunMatches(dir: seq<Raw>, off: nat, name: Name, short: Raw, junk: Mem)
    requires HasRun(dir, off, name, short)
    ensures var p := off + Needed(|name|);
            && dir[p][0] != 0 && Matches(dir[p], Before(dir, p), name, junk)
            && forall k | off <= k < p :: !Stops(dir, k, name, junk)
  {
    hide Checksum, RunEntry, Padded, Before, Needed, Decode, SameNoCase, Fill;
    var n, cksum := Needed(|name|), Checksum(short[..11]);
    NeededBounds(|name|);
    forall k | off <= k < off + n ensures !Stops(dir, k, name, junk) {
      RunEntryReads(name, n, cksum, off + n - k);
      assert dir[off + n - (off + n - k)] == RunEntry(name, n, cksum, off + n - k);
    }
    ReadsRun(dir, off, name, short, 1);
    PendingName(Before(dir, off + n), name, n, cksum, junk);
    SameSelf(name);
  }

  lemma SameSelf(name: Name)
    ensures SameNoCase(name, name)
  {}

  /**
    No end marker before the run: dlookup() returns its short entry from any memory exactly if nothing
    before it can match.
  */
  lemma FindsRunIff(dir: seq<Raw>, off: nat, name: Name, short: Raw)
    requires HasRun(dir, off, name, short) && (forall k | 0 <= k < off :: dir[k][0] != 0)
    ensures (forall junk: Mem :: Lookup(dir, name, junk) == At(off + Needed(|name|))) <==> Reached(dir, off, name)
  {
    hide HasRun, Needed, Matches, CanMatch, Before;
    var p := off + Needed(|name|);
    assert p < |dir| by { RunFits(dir, off, name, short); }
    if Reached(dir, off, name) {
      forall junk: Mem ensures Lookup(dir, name, junk) == At(p) {
        ReachedPasses(dir, off, name, junk);
        RunMatches(dir, off, name, short, junk);
        LookupAt(dir, name, junk, p);
      }
    } else {
      var k :| 0 <= k < off && CanMatch(dir[k], Before(dir, k), name);
      var junk := MatchSome(dir[k], Before(dir, k), name);
      LookupAt(dir, name, junk, p);
      assert Stops(dir, k, name, junk);
    }
  }

  lemma RunFits(dir: seq<Raw>, off: nat, name: Name, short: Raw)
    requires HasRun(dir, off, name, short)
    ensures off + Needed(|name|) < |dir|
  {}

  lemma LookupAt(dir: seq<Raw>, nm: Name, junk: Mem, k: nat)
    requires k < |dir|
    ensures Lookup(dir, nm, junk) == At(k) <==>
            && dir[k][0] != 0 && Matches(dir[k], Before(dir, k), nm, junk)
            && forall m | 0 <= m < k :: !Stops(dir, m, nm, junk)
  {
    hide Matches;
    ScanAt(dir, 0, nm, junk, k);
  }

  /** No torn entry among the first off. */
  predicate Clear(dir: seq<Raw>, off: nat, nm: Name)
    requires off <= |dir|
  {
    forall k | 0 <= k < off :: !Torn(dir[k], Before(dir, k), nm)
  }

  /** Past a failed lookup, nothing can match in any memory exactly if no entry is torn. */
  lemma AbsentReachedIff(dir: seq<Raw>, off: nat, nm: Name, junk: Mem)
    requires off <= |dir| && (forall k | 0 <= k < off :: dir[k][0] != 0) && Lookup(dir, nm, junk) == None
    ensures Reached(dir, off, nm) <==> Clear(dir, off, nm)
  {
    hide Matches, CanMatch, Torn, Before;
    WalksPast(dir, 0, off, nm, junk) by { assert Before(dir, 0) == Start() by { BeforeFirst(dir); } }
    forall k | 0 <= k < off ensures CanMatch(dir[k], Before(dir, k), nm) <==> Torn(dir[k], Before(dir, k), nm) {
      assert !Stops(dir, k, nm, junk);
      MatchNeeds(dir[k], Before(dir, k), nm, junk);
      TornCan(dir[k], Before(dir, k), nm);
    }
  }

  lemma BeforeFirst(dir: seq<Raw>)
    ensures Before(dir, 0) == Start()
  {}

  lemma TornCan(e: Raw, st: Pending, nm: Name)
    ensures Torn(e, st, nm) ==> CanMatch(e, st, nm)
  {}

  /**
    dlookup() of a name it had not found, after dwrite_lfn() wrote its run with no end marker before it.
    Each call has memory of its own: the offset found is that of the run's short entry, whatever the
    second call's memory held, exactly if no entry before the run is torn.
  */
  lemma LookupFindsRun(before: seq<Raw>, after: seq<Raw>, off: nat, name: Name, short: Raw, junk: Mem)
    requires |before| == |after| && HasRun(after, off, name, short)
    requires before[..off] == after[..off] && (forall k | 0 <= k < off :: before[k][0] != 0)
    requires Lookup(before, name, junk) == None
    ensures (forall later: Mem :: Lookup(after, name, later) == At(off + Needed(|name|))) <==> Clear(before, off, name)
  {
    hide HasRun, Needed, Lookup, CanMatch, Torn, Before;
    RunFits(after, off, name, short);
    AbsentReachedIff(before, off, name, junk);
    forall k | 0 <= k < off ensures before[k] == after[k] && Before(before, k) == Before(after, k) {
      assert before[..off][k] == after[..off][k];
      assert before[..k] == before[..off][..k] && after[..k] == after[..off][..k];
      SameBefore(before, after, k);
    }
    FindsRunIff(after, off, name, short);
  }

  /** An entry numbered 2 with the last flag and no entry 1 between it and its short entry: that one is torn. */
  lemma TornPair(dir: seq<Raw>, name: Name, short: Raw)
    requires |name| == 2 * PER_ENTRY && Ascii(name) && IsShort(short) && !ShortMatch(short, name) && |dir| >= 2
    requires dir[0] == LongEntry(66, Checksum(short[..11]), name[PER_ENTRY..]) && dir[1] == short
    ensures Reached(dir, 1, name) && Torn(dir[1], Before(dir, 1), name)
  {
    hide Checksum, LongEntry, Chars, Matches, DotMatch, Name83;
    var cksum, st := Checksum(short[..11]), Before(dir, 1);
    LongEntryReads(66, cksum, name[PER_ENTRY..]);
    assert Before(dir, 0) == Start();
    assert st == After(dir[0], Start());
    var v := seq(26, i requires 0 <= i < 26 => name[i]);
    assert Completes(v, Shown(st));
    StartsDecodes(v, name);
    SameSelf(name);
    FitsAny(name, Shown(st), 0, v);
    assert Shown(st)[0] == Junk;
  }

  /**
    Such a pair, then free slots: dlookup() can miss the name, and after dwrite_lfn() has written its
    run into those slots, return the torn entry instead.
  */
  lemma TornExample(name: Name, short: Raw, e: Raw) returns (before: seq<Raw>, after: seq<Raw>, first: Mem, later: Mem)
    requires |name| == 2 * PER_ENTRY && Ascii(name) && IsShort(short) && !ShortMatch(short, name) && IsShort(e)
    ensures |before| == |after| == 5 && before[..2] == after[..2] && HasRun(after, 2, name, e)
    ensures Lookup(before, name, first) == None && Lookup(after, name, later) == At(1)
  {
    hide Checksum, LongEntry, Chars, Matches, Name83, DotMatch, Padded, Torn;
    var pair := [LongEntry(66, Checksum(short[..11]), name[PER_ENTRY..]), short];
    var cksum, free := Checksum(e[..11]), seq(32, _ => 0);
    before := pair + [free, free, free];
    after := pair + [RunEntry(name, 2, cksum, 2), RunEntry(name, 2, cksum, 1), e];
    assert before[..2] == pair == after[..2];
    TornPair(before, name, short);
    first := MissSome(short, Before(before, 1), name);
    assert !Stops(before, 0, name, first) by { ReachedPasses(before, 1, name, first); }
    assert before[1][0] != 0 && !Stops(before, 1, name, first);
    WalksOut(before, 0, 2, name, first);
    TornPair(after, name, short);
    var miss;
    later, miss := TornDiffers(after, 1, name);
  }

  lemma StartsDecodes(v: seq<Ushort>, name: Name)
    requires |v| == |name| <= NAME_MAX && Ascii(name) && forall i | 0 <= i < |name| :: v[i] == name[i]
    ensures Decode(v, 0) == name
  {
    DecodeName(v, name, 0);
  }
}
