/** Path strings of kernel/vfs.c: skipelem() and the elements of a path. */
module VfsPath {
  const NAME_MAX: nat := 255 // VDIRSIZ - 1

  /** A maximal run of characters other than '/'. */
  function RunLen(path: string): (n: nat)
    ensures n <= |path| && (forall i | 0 <= i < n :: path[i] != '/') && (n < |path| ==> path[n] == '/')
  {
    if path == [] || path[0] == '/' then 0 else 1 + RunLen(path[1..])
  }

  /** The elements of a path in order, each cut to what a directory entry can hold. */
  function Elems(path: string): (names: seq<string>)
    ensures forall i | 0 <= i < |names| :: 0 < |names[i]| <= NAME_MAX && '/' !in names[i]
    decreases |path|
  {
    if path == [] then []
    else if path[0] == '/' then Elems(path[1..])
    else [Cut(path[..RunLen(path)])] + Elems(path[RunLen(path)..])
  }

  function Cut(name: string): string {
    if |name| >= NAME_MAX then name[..NAME_MAX] else name
  }

  lemma {:induction false} SkipSlashes(path: string, a: nat, b: nat)
    requires a <= b <= |path| && forall i | a <= i < b :: path[i] == '/'
    ensures Elems(path[a..]) == Elems(path[b..])
    decreases b - a
  {
    if a < b {
      SkipSlashes(path, a + 1, b);
      assert path[a..][1..] == path[a + 1..];
    }
  }

  lemma {:induction false} RunLenIs(path: string, n: nat)
    requires n <= |path| && (forall i | 0 <= i < n :: path[i] != '/') && (n < |path| ==> path[n] == '/')
    ensures RunLen(path) == n
  {
    if n > 0 { RunLenIs(path[1..], n - 1); }
  }

  /** Slashes, a run without slashes, slashes: the path's first element and the rest. */
  lemma FirstElem(path: string, s: nat, e: nat, i: nat)
    requires s < e <= i <= |path| && (forall k | 0 <= k < s :: path[k] == '/')
    requires (forall k | s <= k < e :: path[k] != '/')
    requires (forall k | e <= k < i :: path[k] == '/') && (e < |path| ==> path[e] == '/')
    requires (i < |path| ==> path[i] != '/')
    ensures Elems(path) == [Cut(path[s..e])] + Elems(path[i..]) && (path[i..] == "" <==> Elems(path[i..]) == [])
  {
    hide Elems, RunLen, Cut;
    assert path[0..] == path;
    SkipSlashes(path, 0, s);
    OneElem(path, s, e);
    SkipSlashes(path, e, i);
    LastIff(path[i..]);
  }

  lemma OneElem(path: string, s: nat, e: nat)
    requires s < e <= |path| && (forall k | s <= k < e :: path[k] != '/') && (e < |path| ==> path[e] == '/')
    ensures Elems(path[s..]) == [Cut(path[s..e])] + Elems(path[e..])
  {
    RunLenIs(path[s..], e - s);
    assert path[s..][..e - s] == path[s..e] && path[s..][e - s..] == path[e..];
  }

  lemma LastIff(rest: string)
    requires rest == "" || rest[0] != '/'
    ensures rest == "" <==> Elems(rest) == []
  {}

  /** skipelem(): the next element and what follows it, or nothing left but slashes. */
  method Skipelem(path: string) returns (found: bool, name: string, rest: string)
    ensures found <==> Elems(path) != []
    ensures found ==> Elems(path) == [name] + Elems(rest) && |rest| < |path| && (rest == "" <==> |Elems(path)| == 1)
  {
    hide Elems, RunLen;
    var i := 0;
    while i < |path| && path[i] == '/'
      invariant i <= |path| && forall k | 0 <= k < i :: path[k] == '/'
    {
      i := i + 1;
    }
    if i == |path| {
      OnlySlashes(path);
      return false, "", "";
    }
    var s := i;
    while i < |path| && path[i] != '/'
      invariant s <= i <= |path| && forall k | s <= k < i :: path[k] != '/'
    {
      i := i + 1;
    }
    name := Cut(path[s..i]);
    ghost var e := i;
    while i < |path| && path[i] == '/'
      invariant e <= i <= |path| && forall k | e <= k < i :: path[k] == '/'
    {
      i := i + 1;
    }
    FirstElem(path, s, e, i);
    found, rest := true, path[i..];
  }

  lemma OnlySlashes(path: string)
    requires forall k | 0 <= k < |path| :: path[k] == '/'
    ensures Elems(path) == []
  {
    assert path[0..] == path;
    SkipSlashes(path, 0, |path|);
  }
}
