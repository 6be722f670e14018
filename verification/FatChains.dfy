/**
  Cluster chains in the FAT of kernel/fat32.c, and files as byte sequences over them. Each file has
  a chain; `owner` is the inverse of the chains, which makes them acyclic and pairwise disjoint.
*/
module FatChains {
  import opened Bytes
  import opened FatDisk

  datatype Place = Place(file: nat, i: nat)
  type Chains = map<nat, seq<nat>>
  type Owners = map<nat, Place>

  predicate LinkOk(table: seq<nat>, chain: seq<nat>, i: nat)
    requires i < |chain| && chain[i] < |table|
  {
    if i + 1 < |chain| then table[chain[i]] == chain[i + 1] else table[chain[i]] >= EOC_MIN
  }

  predicate ClusterOk(table: seq<nat>, chains: Chains, owner: Owners, f: nat, i: nat)
    requires f in chains && i < |chains[f]|
  {
    var c := chains[f][i];
    2 <= c < |table| && c in owner && owner[c] == Place(f, i) && LinkOk(table, chains[f], i)
  }

  /** Chains in range, linked by the FAT, ended by an end-of-chain mark, and inverted by owner. */
  ghost predicate ChainsOk(table: seq<nat>, chains: Chains, owner: Owners) {
    && |table| < EOC_MIN
    && (forall f, i: nat | f in chains && i < |chains[f]| :: ClusterOk(table, chains, owner, f, i))
    && (forall c | c in owner ::
          owner[c].file in chains && owner[c].i < |chains[owner[c].file]| && chains[owner[c].file][owner[c].i] == c)
  }

  /** No cluster is in two chains, or twice in one. */
  lemma Disjoint(table: seq<nat>, chains: Chains, owner: Owners, f: nat, i: nat, h: nat, j: nat)
    requires ChainsOk(table, chains, owner) && f in chains && h in chains && i < |chains[f]| && j < |chains[h]|
    requires chains[f][i] == chains[h][j]
    ensures f == h && i == j
  {
    assert ClusterOk(table, chains, owner, f, i) && ClusterOk(table, chains, owner, h, j);
  }

  /** A free entry belongs to no chain. */
  lemma FreeUnowned(table: seq<nat>, chains: Chains, owner: Owners, c: nat)
    requires ChainsOk(table, chains, owner) && c < |table| && table[c] == 0
    ensures c !in owner
  {
    forall f, i: nat | f in chains && i < |chains[f]| ensures chains[f][i] != c {
      assert ClusterOk(table, chains, owner, f, i);
      assert i + 1 < |chains[f]| ==> ClusterOk(table, chains, owner, f, i + 1);
    }
  }

  /** An entry outside all chains can take any value. */
  lemma SetUnowned(table: seq<nat>, chains: Chains, owner: Owners, c: nat, v: nat)
    requires ChainsOk(table, chains, owner) && c < |table| && c !in owner
    ensures ChainsOk(table[c := v], chains, owner)
  {
    var table' := table[c := v];
    forall f, i: nat | f in chains && i < |chains[f]| ensures ClusterOk(table', chains, owner, f, i) {
      assert ClusterOk(table, chains, owner, f, i);
    }
  }

  /** Linking an unowned, end-marked cluster behind the last one of f. */
  lemma Append(table: seq<nat>, chains: Chains, owner: Owners, f: nat, c: nat)
    requires ChainsOk(table, chains, owner) && f in chains && 2 <= c < |table| && c !in owner && table[c] >= EOC_MIN
    ensures var chain := chains[f];
            && (chain != [] ==> chain[|chain| - 1] < |table|)
            && ChainsOk(if chain == [] then table else table[chain[|chain| - 1] := c],
                        chains[f := chain + [c]], owner[c := Place(f, |chain|)])
  {
    var chain := chains[f];
    if chain != [] { assert ClusterOk(table, chains, owner, f, |chain| - 1); }
    var table' := if chain == [] then table else table[chain[|chain| - 1] := c];
    var chains', owner' := chains[f := chain + [c]], owner[c := Place(f, |chain|)];
    forall h, i: nat | h in chains' && i < |chains'[h]| ensures ClusterOk(table', chains', owner', h, i) {
      if h != f || i < |chain| {
        assert ClusterOk(table, chains, owner, h, i);
        assert chains'[h][i] == chains[h][i];
        if chain != [] && chains[h][i] == chain[|chain| - 1] { Disjoint(table, chains, owner, h, i, f, |chain| - 1); }
      }
    }
  }

  function Without(owner: Owners, f: nat): (r: Owners)
    ensures forall c :: c in r <==> c in owner && owner[c].file != f
    ensures forall c | c in r :: r[c] == owner[c]
  {
    map c | c in owner && owner[c].file != f :: owner[c]
  }

  /** A file that gives up its chain owns none of its clusters. */
  lemma Drop(table: seq<nat>, chains: Chains, owner: Owners, f: nat)
    requires ChainsOk(table, chains, owner) && f in chains
    ensures ChainsOk(table, chains[f := []], Without(owner, f))
    ensures forall i | 0 <= i < |chains[f]| :: 2 <= chains[f][i] < |table| && chains[f][i] !in Without(owner, f)
  {
    var chains', owner' := chains[f := []], Without(owner, f);
    forall h, i: nat | h in chains' && i < |chains'[h]| ensures ClusterOk(table, chains', owner', h, i) {
      assert ClusterOk(table, chains, owner, h, i);
    }
    forall i: nat | i < |chains[f]| ensures 2 <= chains[f][i] < |table| && chains[f][i] !in owner' {
      assert ClusterOk(table, chains, owner, f, i);
    }
  }

  // ---- Bytes ----

  lemma DivRange(k: nat, b: nat, n: nat)
    requires 0 < b && k < n * b
    ensures k / b < n && k % b < b && k == k / b * b + k % b
  {
    Times(n, if n <= k / b then k / b + 1 else n + 1, b);
  }

  lemma DivParts(k: nat, b: nat, j: nat, i: nat)
    requires k == j * b + i && i < b
    ensures k / b == j && k % b == i
  {
    var q := k / b;
    assert k == q * b + k % b;
    if q < j { Times(q, j, b); } else if j < q { Times(j, q, b); }
  }

  /** A position in the file against a stretch inside cluster number j. */
  lemma SameSpot(k: nat, b: nat, q: nat, m: nat, j: nat, i: nat, len: nat)
    requires k == q * b + m && m < b && i + len <= b
    ensures j * b + i <= k < j * b + i + len <==> q == j && i <= m < i + len
    ensures q == j ==> k - (j * b + i) == m - i
  {
    if q < j { Times(q, j, b); } else if j < q { Times(j, q, b); }
  }

  ghost predicate ClustersOk(g: Geometry, chain: seq<nat>) {
    forall i | 0 <= i < |chain| :: 2 <= chain[i] < g.tot + 2
  }

  /** Byte k of the file with this chain (0 past its end). */
  function FileByte(g: Geometry, disk: Disk, chain: seq<nat>, k: nat): Byte {
    if 0 < g.bpc && k / g.bpc < |chain| && 2 <= chain[k / g.bpc] then ClusterByte(g, disk, chain[k / g.bpc], k % g.bpc)
    else 0
  }

  function ClusterByte(g: Geometry, disk: Disk, c: nat, i: nat): Byte
    requires 2 <= c
  {
    if BytePos(g, c, i) < |disk| then disk[BytePos(g, c, i)] else 0
  }

  /** The part of a file in cluster number j of its chain. */
  lemma ByteIn(g: Geometry, disk: Disk, chain: seq<nat>, j: nat, i: nat)
    requires j < |chain| && ClustersOk(g, chain) && i < g.bpc
    ensures FileByte(g, disk, chain, j * g.bpc + i) == ClusterByte(g, disk, chain[j], i)
  {
    DivParts(j * g.bpc + i, g.bpc, j, i);
  }

  lemma ChainInRange(g: Geometry, table: seq<nat>, chains: Chains, owner: Owners, f: nat)
    requires ChainsOk(table, chains, owner) && f in chains && |table| == g.tot + 2
    ensures ClustersOk(g, chains[f])
  {
    forall i: nat | i < |chains[f]| ensures 2 <= chains[f][i] < g.tot + 2 {
      assert ClusterOk(table, chains, owner, f, i);
    }
  }

  /** Byte `m` of cluster e after data was stored at byte i of cluster c. */
  lemma StoredByte(g: Geometry, disk: Disk, c: nat, i: nat, data: seq<Byte>, e: nat, m: nat)
    requires GeoOk(g, disk) && 2 <= c < g.tot + 2 && 2 <= e < g.tot + 2 && i + |data| <= g.bpc && i < g.bpc && m < g.bpc
    ensures BytePos(g, c, i) + |data| <= |disk|
    ensures ClusterByte(g, Store(disk, BytePos(g, c, i), data), e, m)
         == if e == c && i <= m < i + |data| then data[m - i] else ClusterByte(g, disk, e, m)
  {
    ByteInData(g, disk, c, i);
    ByteInData(g, disk, e, m);
    if e != c {
      var p := BytePos(g, e, m) - BytePos(g, c, i) + i;
      if 0 <= p < g.bpc { ClustersApart(g, c, p, e, m); }
    }
  }

  /** Data stored in one cluster of f changes exactly those bytes of f and no byte of another file. */
  lemma StorePiece(g: Geometry, disk: Disk, table: seq<nat>, chains: Chains, owner: Owners, f: nat, j: nat, i: nat,
                   data: seq<Byte>, h: nat, k: nat)
    requires GeoOk(g, disk) && ChainsOk(table, chains, owner) && |table| == g.tot + 2
    requires f in chains && j < |chains[f]| && i + |data| <= g.bpc && i < g.bpc && h in chains
    requires ClustersOk(g, chains[h]) && ClustersOk(g, chains[f]) && BytePos(g, chains[f][j], i) + |data| <= |disk|
    requires k < |chains[h]| * g.bpc
    ensures var disk', at := Store(disk, BytePos(g, chains[f][j], i), data), j * g.bpc + i;
            FileByte(g, disk', chains[h], k)
            == if h == f && at <= k < at + |data| then data[k - at] else FileByte(g, disk, chains[h], k)
  {
    hide BytePos, ChainsOk, ClusterByte, GeoOk, Store;
    var b, c := g.bpc, chains[f][j];
    DivRange(k, b, |chains[h]|);
    var q, m := k / b, k % b;
    StoredByte(g, disk, c, i, data, chains[h][q], m);
    SameSpot(k, b, q, m, j, i, |data|);
    if chains[h][q] == c {
      Disjoint(table, chains, owner, h, q, f, j);
    }
  }
}
