/** Sibling proofs: every leaf has one, and nothing else does (merkle/tree.go:68-104).

    Soundness cannot say "or the hash has a collision": a function onto 32 bytes always
    has one. It says instead that a collision is found between two explicit finite sets:
    the byte strings hashed while building the tree and those hashed while checking the
    proof. */
module MerkleProofs {
  import opened Bytes
  import opened Merkle
  import opened Order

  /** The verifier: fold the pair hash over the proof, leaf to root. */
  function Fold(k: Keccak, h: Hash, proof: seq<Hash>): Hash
    decreases |proof|
  {
    if proof == [] then h else Fold(k, HashPair(k, h, proof[0]), proof[1..])
  }

  function Sibling(hs: seq<Hash>, idx: nat): Hash
    requires idx < |hs|
  {
    if idx % 2 == 0 then (if idx + 1 < |hs| then hs[idx + 1] else hs[idx]) else hs[idx - 1]
  }

  /** The siblings met on the way up from position idx. */
  function ProofFrom(k: Keccak, hs: seq<Hash>, idx: nat): seq<Hash>
    requires idx < |hs|
    decreases |hs|
  {
    if |hs| == 1 then [] else [Sibling(hs, idx)] + ProofFrom(k, Level(k, hs), idx / 2)
  }

  function Pow2(d: nat): (r: nat)
    ensures r > 0
  {
    if d == 0 then 1 else 2 * Pow2(d - 1)
  }

  // ----- Completeness -----

  lemma ParentOfSiblings(k: Keccak, hs: seq<Hash>, idx: nat)
    requires idx < |hs|
    ensures Level(k, hs)[idx / 2] == HashPair(k, hs[idx], Sibling(hs, idx))
  {
    PairBytesCommutes(hs[idx], Sibling(hs, idx));
  }

  lemma {:induction false} ProofFolds(k: Keccak, hs: seq<Hash>, idx: nat)
    requires idx < |hs|
    ensures Fold(k, hs[idx], ProofFrom(k, hs, idx)) == RootOf(k, hs)
    decreases |hs|
  {
    if |hs| > 1 {
      ParentOfSiblings(k, hs, idx);
      ProofFolds(k, Level(k, hs), idx / 2);
      assert ProofFrom(k, hs, idx)[1..] == ProofFrom(k, Level(k, hs), idx / 2);
    }
  }

  /** The number of times n nodes must be paired up to leave one. */
  function Depth(n: nat): nat {
    if n <= 1 then 0 else 1 + Depth((n + 1) / 2)
  }

  /** Depth is the logarithm to base 2, rounded up. */
  lemma {:induction false} DepthIsLog(n: nat)
    requires n > 0
    ensures n <= Pow2(Depth(n)) && (n > 1 ==> Pow2(Depth(n) - 1) < n)
  {
    if n > 1 { DepthIsLog((n + 1) / 2); }
  }

  lemma {:induction false} ProofLength(k: Keccak, hs: seq<Hash>, idx: nat)
    requires idx < |hs|
    ensures |ProofFrom(k, hs, idx)| == Depth(|hs|)
    decreases |hs|
  {
    if |hs| > 1 {
      var up := Level(k, hs);
      ProofLength(k, up, idx / 2);
      assert |up| == (|hs| + 1) / 2 && ProofFrom(k, hs, idx)[1..] == ProofFrom(k, up, idx / 2);
    }
  }

  method FindLeaf(t: Tree, id: Hash) returns (idx: int)
    ensures idx < 0 ==> forall l | l in t.leaves :: l.clusterID != id
    ensures 0 <= idx ==> idx < |t.leaves| && t.leaves[idx].clusterID == id
  {
    for i := 0 to |t.leaves|
      invariant forall j | 0 <= j < i :: t.leaves[j].clusterID != id
    {
      if t.leaves[i].clusterID == id { return i; }
    }
    return -1;
  }

  lemma LeafProof(k: Keccak, m: Balances, t: Tree, i: nat)
    requires IsTree(k, m, t) && i < |t.leaves|
    ensures var id := t.leaves[i].clusterID; var p := ProofFrom(k, HashesOf(t.leaves), i);
      id in m && Fold(k, HashLeaf(k, id, m[id]), p) == t.root && |p| == Depth(|m|)
  {
    assert IsLeafOf(k, m, t.leaves[i]);
    LeafCount(k, m, t);
    ProofFolds(k, HashesOf(t.leaves), i);
    ProofLength(k, HashesOf(t.leaves), i);
  }

  lemma NotALeaf(k: Keccak, m: Balances, t: Tree, id: Hash)
    requires IsTree(k, m, t)
    requires forall l | l in t.leaves :: l.clusterID != id
    ensures id !in m
  {
    assert id in m ==> IsLeafOf(k, m, Leaf(id, m[id], HashLeaf(k, id, m[id])));
  }

  /** The position above the leaf, j layers up. */
  function Above(leaf: nat, j: nat): nat {
    if j == 0 then leaf else Above(leaf, j - 1) / 2
  }

  /** From the leaf up, each entry is the neighbour in its layer of the node above the leaf, the
      node itself if it is an odd last one. */
  ghost predicate IsSiblingPath(layers: seq<seq<Hash>>, leaf: nat, path: seq<Hash>) {
    |path| + 1 == |layers| && forall j | 0 <= j < |path| :: IsNeighbour(layers[j], Above(leaf, j), path[j])
  }

  predicate IsNeighbour(layer: seq<Hash>, at: nat, h: Hash) {
    && at < |layer|
    && h == layer[if at % 2 == 1 then at - 1 else if at + 1 < |layer| then at + 1 else at]
  }

  lemma {:induction false} AboveHalf(leaf: nat, j: nat)
    ensures Above(leaf / 2, j) == Above(leaf, j + 1)
  {
    if j > 0 { AboveHalf(leaf, j - 1); }
  }

  lemma {:induction false} ProofIsPath(k: Keccak, layers: seq<seq<Hash>>, leaf: nat)
    requires IsLayering(k, layers) && leaf < |layers[0]|
    ensures IsSiblingPath(layers, leaf, ProofFrom(k, layers[0], leaf))
    decreases |layers|
  {
    hide HashPair;
    var path := ProofFrom(k, layers[0], leaf);
    if |layers| > 1 {
      assert layers[1] == Level(k, layers[0]);
      ProofIsPath(k, layers[1..], leaf / 2);
      forall j | 0 <= j < |path| ensures IsNeighbour(layers[j], Above(leaf, j), path[j]) {
        if j > 0 {
          AboveHalf(leaf, j - 1);
          assert IsNeighbour(layers[1..][j-1], Above(leaf / 2, j - 1), path[1..][j-1]);
        }
      }
    }
  }

  /** The loop of GetProof: one sibling a layer, below the root. */
  method Climb(k: Keccak, layers: seq<seq<Hash>>, leaf: nat) returns (path: seq<Hash>)
    requires IsLayering(k, layers) && leaf < |layers[0]|
    ensures path == ProofFrom(k, layers[0], leaf) && IsSiblingPath(layers, leaf, path)
  {
    ProofIsPath(k, layers, leaf);
    hide IsSiblingPath;
    path := [];
    var idx: nat := leaf;
    for layer := 0 to |layers| - 1
      invariant idx < |layers[layer]|
      invariant path + ProofFrom(k, layers[layer], idx) == ProofFrom(k, layers[0], leaf)
    {
      ghost var rest := ProofFrom(k, layers[layer + 1], idx / 2);
      assert path + ([Sibling(layers[layer], idx)] + rest) == path + [Sibling(layers[layer], idx)] + rest;
      path := path + [Sibling(layers[layer], idx)];
      idx := idx / 2;
    }
  }

  /** The siblings on the way up from leaf i, which is the cluster's; none for a single leaf. */
  ghost predicate IsProofOf(t: Tree, i: nat, id: Hash, proof: seq<Hash>) {
    && i < |t.leaves| && t.leaves[i].clusterID == id
    && if |t.leaves| == 1 then proof == [] else IsSiblingPath(t.layers, i, proof)
  }

  lemma TreeLayers(k: Keccak, m: Balances, t: Tree)
    requires IsTree(k, m, t) && t.leaves != []
    ensures t.layers == [] <==> |t.leaves| == 1
    ensures t.layers == [] ==> ProofFrom(k, HashesOf(t.leaves), 0) == []
    ensures t.layers != [] ==> IsLayering(k, t.layers) && t.layers[0] == HashesOf(t.leaves)
  {
    LayersAreLevels(k, HashesOf(t.leaves));
  }

  /** A proof is found for exactly the clusters of the map; it verifies against the root
      and its length depends on the number of clusters alone. */
  method GetProof(k: Keccak, ghost m: Balances, t: Tree, id: Hash) returns (proof: Option<seq<Hash>>)
    requires IsTree(k, m, t)
    ensures proof.Some? <==> id in m
    ensures proof.Some? ==> Fold(k, HashLeaf(k, id, m[id]), proof.value) == t.root && |proof.value| == Depth(|m|)
    ensures proof.Some? ==> exists i :: IsProofOf(t, i, id, proof.value)
  {
    var idx := FindLeaf(t, id);
    if idx < 0 {
      NotALeaf(k, m, t, id);
      return None;
    }
    LeafProof(k, m, t, idx);
    TreeLayers(k, m, t);
    hide IsTree, IsSiblingPath, Fold, ProofFrom, Layers;
    if |t.layers| == 0 {
      assert IsProofOf(t, idx, id, []);
      return Some([]);
    }
    var path := Climb(k, t.layers, idx);
    assert IsProofOf(t, idx, id, path);
    return Some(path);
  }

  lemma {:induction false} DistinctLength<T>(a: seq<T>, s: set<T>)
    requires Distinct(a)
    requires forall x :: x in a <==> x in s
    ensures |a| == |s|
  {
    if a != [] {
      DistinctLength(a[1..], s - {a[0]});
    } else {
      assert s == {};
    }
  }

  lemma LeafCount(k: Keccak, m: Balances, t: Tree)
    requires IsTree(k, m, t)
    ensures |t.leaves| == |m|
  {
    if m != map[] {
      var ids := MapSeq(t.leaves, (l: Leaf) => l.clusterID);
      forall id ensures id in ids <==> id in m.Keys {
        if id in m {
          var l := Leaf(id, m[id], HashLeaf(k, id, m[id]));
          assert IsLeafOf(k, m, l);
          var i :| 0 <= i < |t.leaves| && t.leaves[i] == l;
          assert ids[i] == id;
        }
        if id in ids {
          var i :| 0 <= i < |ids| && ids[i] == id;
          assert IsLeafOf(k, m, t.leaves[i]);
        }
      }
      forall i, j | 0 <= i < j < |ids| ensures ids[i] != ids[j] {
        assert IsLeafOf(k, m, t.leaves[i]) && IsLeafOf(k, m, t.leaves[j]);
      }
      DistinctLength(ids, m.Keys);
    }
  }

  // ----- Soundness -----

  /** x was hashed on one side, y on the other, they differ and have the same hash. */
  ghost predicate Collide(k: Keccak, xs: set<Bytes>, ys: set<Bytes>) {
    exists x, y :: x in xs && y in ys && x != y && k(x) == k(y)
  }

  ghost function LeafQueries(k: Keccak, id: Hash, balance: u32): set<Bytes> {
    {LeafBytes(id, balance), k(LeafBytes(id, balance))}
  }

  ghost function LevelQueries(k: Keccak, hs: seq<Hash>): set<Bytes>
    decreases |hs|
  {
    if |hs| <= 1 then {} else LevelPairs(hs) + LevelQueries(k, Level(k, hs))
  }

  ghost function LevelPairs(hs: seq<Hash>): set<Bytes> {
    set i | 0 <= i < (|hs| + 1) / 2 :: PairBytes(hs[2 * i], RightChild(hs, i))
  }

  /** Every byte string hashed while the tree of m is built. */
  ghost function TreeQueries(k: Keccak, m: Balances): set<Bytes> {
    if m == map[] then {[]}
    else
      (set id | id in m :: LeafBytes(id, m[id])) + (set id | id in m :: k(LeafBytes(id, m[id])))
      + LevelQueries(k, Sorted(HashesOf(AllLeaves(k, m)), HashKey))
  }

  ghost function FoldQueries(k: Keccak, h: Hash, proof: seq<Hash>): set<Bytes>
    decreases |proof|
  {
    if proof == [] then {} else {PairBytes(h, proof[0])} + FoldQueries(k, HashPair(k, h, proof[0]), proof[1..])
  }

  /** Every byte string hashed while a proof for (id, balance) is checked. */
  ghost function ProofQueries(k: Keccak, id: Hash, balance: u32, proof: seq<Hash>): set<Bytes> {
    LeafQueries(k, id, balance) + FoldQueries(k, HashLeaf(k, id, balance), proof)
  }

  lemma {:induction false} FoldLast(k: Keccak, h: Hash, proof: seq<Hash>)
    requires proof != []
    ensures var n := |proof| - 1; var inner := Fold(k, h, proof[..n]);
      && Fold(k, h, proof) == HashPair(k, inner, proof[n])
      && FoldQueries(k, h, proof) == FoldQueries(k, h, proof[..n]) + {PairBytes(inner, proof[n])}
    decreases |proof|
  {
    var n := |proof| - 1;
    if n > 0 {
      FoldLast(k, HashPair(k, h, proof[0]), proof[1..]);
      assert proof[1..][..n-1] == proof[..n][1..];
    }
  }

  lemma CollideMonotone(k: Keccak, xs: set<Bytes>, ys: set<Bytes>, xs': set<Bytes>, ys': set<Bytes>)
    requires xs <= xs' && ys <= ys' && Collide(k, xs, ys)
    ensures Collide(k, xs', ys')
  {
  }

  /** Walk an accepted proof down from the root, one level at a time: some prefix of it
      folds to a node of the bottom level, or two different strings meet in one hash. */
  lemma {:induction false} Descend(k: Keccak, bottom: seq<Hash>, pre: Bytes, proof: seq<Hash>) returns (n: nat)
    requires bottom != [] && |pre| == 32
    requires Fold(k, k(pre), proof) == RootOf(k, bottom)
    ensures Collide(k, LevelQueries(k, bottom), {pre} + FoldQueries(k, k(pre), proof))
      || (n <= |proof| && Fold(k, k(pre), proof[..n]) in bottom)
    decreases |bottom|
  {
    var h := k(pre);
    if |bottom| == 1 {
      assert proof[..|proof|] == proof && bottom[0] in bottom;
      return |proof|;
    }
    var up := Level(k, bottom);
    n := Descend(k, up, pre, proof);
    var ys := {pre} + FoldQueries(k, h, proof);
    if n <= |proof| && Fold(k, h, proof[..n]) in up {
      DescendStep(k, bottom, pre, proof, n);
      n := if n > 0 then n - 1 else 0;
    } else {
      CollideMonotone(k, LevelQueries(k, up), ys, LevelQueries(k, bottom), ys);
    }
  }

  lemma DescendStep(k: Keccak, bottom: seq<Hash>, pre: Bytes, proof: seq<Hash>, n: nat)
    requires |bottom| > 1 && |pre| == 32 && n <= |proof|
    requires Fold(k, k(pre), proof[..n]) in Level(k, bottom)
    ensures Collide(k, LevelQueries(k, bottom), {pre} + FoldQueries(k, k(pre), proof))
      || (n > 0 && Fold(k, k(pre), proof[..n-1]) in bottom)
  {
    var h := k(pre);
    var i :| 0 <= i < |Level(k, bottom)| && Level(k, bottom)[i] == Fold(k, h, proof[..n]);
    var l, r := bottom[2 * i], RightChild(bottom, i);
    assert PairBytes(l, r) in LevelPairs(bottom);
    if n == 0 {
      assert k(PairBytes(l, r)) == k(pre) && PairBytes(l, r) != pre;
    } else {
      var p := proof[..n];
      FoldLast(k, h, p);
      FoldQueriesPrefix(k, h, proof, n);
      assert p[..n-1] == proof[..n-1];
      var below := Fold(k, h, proof[..n-1]);
      assert k(PairBytes(below, p[n-1])) == k(PairBytes(l, r)) && PairBytes(below, p[n-1]) in FoldQueries(k, h, p);
      if PairBytes(below, p[n-1]) == PairBytes(l, r) {
        PairBytesInjective(below, p[n-1], l, r);
      }
    }
  }

  lemma {:induction false} FoldQueriesPrefix(k: Keccak, h: Hash, proof: seq<Hash>, n: nat)
    requires n <= |proof|
    ensures FoldQueries(k, h, proof[..n]) <= FoldQueries(k, h, proof)
    decreases |proof|
  {
    if n > 0 {
      FoldQueriesPrefix(k, HashPair(k, h, proof[0]), proof[1..], n - 1);
      assert proof[1..][..n-1] == proof[..n][1..];
    }
  }

  /** Soundness, for a proof of any length and every map, the empty and the one-cluster
      ones included: what verifies against the root is an entry of the map, or the hash
      function has been broken on strings in plain view. */
  lemma ProofSound(k: Keccak, m: Balances, id: Hash, balance: u32, proof: seq<Hash>)
    requires Fold(k, HashLeaf(k, id, balance), proof) == RootOfMap(k, m)
    ensures (id in m && m[id] == balance) || Collide(k, TreeQueries(k, m), ProofQueries(k, id, balance, proof))
  {
    if m == map[] {
      var pre := k(LeafBytes(id, balance));
      LastQuery(k, pre, proof);
      var y :| y in {pre} + FoldQueries(k, k(pre), proof) && y != [] && k(y) == k([]);
      assert [] in TreeQueries(k, m) && y in ProofQueries(k, id, balance, proof);
    } else {
      ProofSoundNonEmpty(k, m, id, balance, proof);
    }
  }

  lemma ProofSoundNonEmpty(k: Keccak, m: Balances, id: Hash, balance: u32, proof: seq<Hash>)
    requires m != map[]
    requires Fold(k, HashLeaf(k, id, balance), proof) == RootOfMap(k, m)
    ensures (id in m && m[id] == balance) || Collide(k, TreeQueries(k, m), ProofQueries(k, id, balance, proof))
  {
    var pre := k(LeafBytes(id, balance));
    var leaves := AllLeaves(k, m);
    var hs := Sorted(HashesOf(leaves), HashKey);
    TreeNonEmpty(k, m);
    var n := Descend(k, hs, pre, proof);
    if n <= |proof| && Fold(k, k(pre), proof[..n]) in hs {
      var h := Fold(k, k(pre), proof[..n]);
      assert h in multiset(hs) && h in multiset(HashesOf(leaves));
      var i :| 0 <= i < |leaves| && HashesOf(leaves)[i] == h;
      assert IsLeafOf(k, m, leaves[i]);
      LandedOnLeaf(k, m, leaves[i], id, balance, proof, n);
    } else {
      CollideMonotone(k, LevelQueries(k, hs), {pre} + FoldQueries(k, k(pre), proof),
        TreeQueries(k, m), ProofQueries(k, id, balance, proof));
    }
  }

  lemma TreeNonEmpty(k: Keccak, m: Balances)
    requires m != map[]
    ensures Sorted(HashesOf(AllLeaves(k, m)), HashKey) != []
  {
    var id :| id in m;
    assert IsLeafOf(k, m, Leaf(id, m[id], HashLeaf(k, id, m[id])));
    var hs := HashesOf(AllLeaves(k, m));
    assert |Sorted(hs, HashKey)| == |multiset(Sorted(hs, HashKey))| == |hs|;
  }

  /** The hash a fold ends in is the hash of a 32-byte or a 64-byte string. */
  lemma LastQuery(k: Keccak, pre: Bytes, proof: seq<Hash>)
    requires |pre| == 32
    ensures exists y :: y in {pre} + FoldQueries(k, k(pre), proof) && y != [] && k(y) == Fold(k, k(pre), proof)
  {
    if proof == [] {
      assert k(pre) == Fold(k, k(pre), proof) && pre != [];
    } else {
      FoldLast(k, k(pre), proof);
      var n := |proof| - 1;
      var y := PairBytes(Fold(k, k(pre), proof[..n]), proof[n]);
      assert k(y) == Fold(k, k(pre), proof) && |y| == 64;
    }
  }

  lemma LandedOnLeaf(k: Keccak, m: Balances, l: Leaf, id: Hash, balance: u32, proof: seq<Hash>, n: nat)
    requires n <= |proof| && IsLeafOf(k, m, l)
    requires Fold(k, HashLeaf(k, id, balance), proof[..n]) == l.hash
    ensures (id in m && m[id] == balance) || Collide(k, TreeQueries(k, m), ProofQueries(k, id, balance, proof))
  {
    var xs, ys := TreeQueries(k, m), ProofQueries(k, id, balance, proof);
    var inner, mine := LeafBytes(l.clusterID, m[l.clusterID]), LeafBytes(id, balance);
    assert inner in xs && k(inner) in xs && mine in ys && k(mine) in ys;
    if n > 0 {
      FoldLast(k, k(k(mine)), proof[..n]);
      FoldQueriesPrefix(k, k(k(mine)), proof, n);
      var last := PairBytes(Fold(k, k(k(mine)), proof[..n][..n-1]), proof[..n][n-1]);
      assert last in ys && |last| == 64 && k(last) == k(k(inner));
    } else if k(inner) == k(mine) && inner == mine {
      LeafBytesInjective(l.clusterID, m[l.clusterID], id, balance);
    }
  }

  // ----- The root binds the whole map -----

  lemma PairInLevel(hs: seq<Hash>, idx: nat)
    requires idx < |hs|
    ensures PairBytes(hs[idx], Sibling(hs, idx)) in LevelPairs(hs)
  {
    var i := idx / 2;
    if idx % 2 == 0 {
      assert idx == 2 * i && Sibling(hs, idx) == RightChild(hs, i);
    } else {
      assert idx == 2 * i + 1 && Sibling(hs, idx) == hs[2 * i] && RightChild(hs, i) == hs[idx];
      PairBytesCommutes(hs[idx], hs[2 * i]);
    }
    assert PairBytes(hs[2 * i], RightChild(hs, i)) in LevelPairs(hs);
  }

  lemma {:induction false} ProofQueriesInTree(k: Keccak, hs: seq<Hash>, idx: nat)
    requires idx < |hs|
    ensures FoldQueries(k, hs[idx], ProofFrom(k, hs, idx)) <= LevelQueries(k, hs)
    decreases |hs|
  {
    if |hs| > 1 {
      var up, proof := Level(k, hs), ProofFrom(k, hs, idx);
      ParentOfSiblings(k, hs, idx);
      ProofQueriesInTree(k, up, idx / 2);
      assert proof[1..] == ProofFrom(k, up, idx / 2);
      PairInLevel(hs, idx);
      assert FoldQueries(k, hs[idx], proof) == {PairBytes(hs[idx], proof[0])} + FoldQueries(k, up[idx / 2], proof[1..]);
      assert LevelQueries(k, up) <= LevelQueries(k, hs);
    }
  }

  /** Every entry of a map has a proof that uses only strings hashed in building its tree. */
  lemma ProofExists(k: Keccak, m: Balances, id: Hash) returns (proof: seq<Hash>)
    requires id in m
    ensures Fold(k, HashLeaf(k, id, m[id]), proof) == RootOfMap(k, m)
    ensures ProofQueries(k, id, m[id], proof) <= TreeQueries(k, m)
  {
    var leaves := AllLeaves(k, m);
    var hs := Sorted(HashesOf(leaves), HashKey);
    var l := Leaf(id, m[id], HashLeaf(k, id, m[id]));
    assert IsLeafOf(k, m, l);
    var j :| 0 <= j < |leaves| && leaves[j] == l;
    assert HashesOf(leaves)[j] == l.hash;
    assert l.hash in multiset(HashesOf(leaves)) && l.hash in multiset(hs);
    var i :| 0 <= i < |hs| && hs[i] == l.hash;
    proof := ProofFrom(k, hs, i);
    ProofFolds(k, hs, i);
    ProofQueriesInTree(k, hs, i);
  }

  lemma EntryBound(k: Keccak, m: Balances, m': Balances, id: Hash)
    requires RootOfMap(k, m) == RootOfMap(k, m')
    requires id in m
    ensures (id in m' && m'[id] == m[id]) || Collide(k, TreeQueries(k, m'), TreeQueries(k, m))
  {
    var proof := ProofExists(k, m, id);
    ProofSound(k, m', id, m[id], proof);
    if Collide(k, TreeQueries(k, m'), ProofQueries(k, id, m[id], proof)) {
      CollideMonotone(k, TreeQueries(k, m'), ProofQueries(k, id, m[id], proof), TreeQueries(k, m'), TreeQueries(k, m));
    }
  }

  /** Two balance maps with one root are the same map, or building the two trees hashed
      two different strings to one value. */
  lemma RootBindsMap(k: Keccak, m: Balances, m': Balances)
    requires RootOfMap(k, m) == RootOfMap(k, m')
    ensures m == m' || Collide(k, TreeQueries(k, m), TreeQueries(k, m'))
  {
    if m != m' {
      if id :| id in m && !(id in m' && m'[id] == m[id]) {
        EntryBound(k, m, m', id);
      } else {
        assert m.Keys <= m'.Keys;
        assert m'.Keys <= m.Keys ==> m.Keys == m'.Keys && m == m';
        var id :| id in m' && id !in m;
        EntryBound(k, m', m, id);
      }
    }
  }
}
