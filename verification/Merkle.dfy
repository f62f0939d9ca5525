/** The Merkle tree over cluster balances (merkle/tree.go, merkle/encoding.go).

    The hash function is a parameter k throughout. */
module Merkle {
  import opened Bytes
  import opened Order

  /** The balances a tree commits to. */
  type Balances = map<Hash, u32>

  datatype Leaf = Leaf(clusterID: Hash, effectiveBalance: u32, hash: Hash)
  datatype Tree = Tree(root: Hash, leaves: seq<Leaf>, layers: seq<seq<Hash>>)

  // ----- Encoding -----

  /** abi.encode(bytes32, uint32): two 32-byte words. */
  function LeafBytes(id: Hash, balance: u32): (r: Bytes)
    ensures |r| == 64
  {
    id + BigEndian(balance, 32)
  }

  lemma LeafBytesInjective(id: Hash, balance: u32, id': Hash, balance': u32)
    requires LeafBytes(id, balance) == LeafBytes(id', balance')
    ensures id == id' && balance == balance'
  {
    assert id == LeafBytes(id, balance)[..32] && id' == LeafBytes(id', balance')[..32];
    assert BigEndian(balance, 32) == LeafBytes(id, balance)[32..];
    assert BigEndian(balance', 32) == LeafBytes(id', balance')[32..];
    Word32Injective(balance, balance');
  }

  function HashLeaf(k: Keccak, id: Hash, balance: u32): Hash {
    k(k(LeafBytes(id, balance)))
  }

  /** The 64 bytes hashed for a pair: the smaller child first. */
  function PairBytes(a: Hash, b: Hash): (r: Bytes)
    ensures |r| == 64
  {
    if LexLe(a, b) then a + b else b + a
  }

  function HashPair(k: Keccak, a: Hash, b: Hash): Hash {
    k(PairBytes(a, b))
  }

  lemma PairBytesCommutes(a: Hash, b: Hash)
    ensures PairBytes(a, b) == PairBytes(b, a)
  {
    LexTotal(a, b);
    if LexLe(a, b) && LexLe(b, a) { LexAntisymmetric(a, b); }
  }

  /** A pair encoding determines the two children up to their order. */
  lemma PairBytesInjective(a: Hash, b: Hash, c: Hash, d: Hash)
    requires PairBytes(a, b) == PairBytes(c, d)
    ensures (a == c && b == d) || (a == d && b == c)
  {
    var p, q := PairBytes(a, b), PairBytes(c, d);
    assert p == p[..32] + p[32..] && q == q[..32] + q[32..];
    assert (p[..32] == a && p[32..] == b) || (p[..32] == b && p[32..] == a);
    assert (q[..32] == c && q[32..] == d) || (q[..32] == d && q[32..] == c);
  }

  // ----- Levels, layers and the root -----

  function LeafHash(l: Leaf): Hash { l.hash }

  function HashKey(h: Hash): seq<int> { h }

  function LeafKey(l: Leaf): seq<int> { l.hash }

  function HashesOf(leaves: seq<Leaf>): seq<Hash> { MapSeq(leaves, LeafHash) }

  /** The right child of position i of the next level; an odd last node is paired with itself. */
  function RightChild(hs: seq<Hash>, i: nat): Hash
    requires 2 * i < |hs|
  {
    if 2 * i + 1 < |hs| then hs[2 * i + 1] else hs[2 * i]
  }

  function Level(k: Keccak, hs: seq<Hash>): seq<Hash> {
    seq((|hs| + 1) / 2, i requires 0 <= i < (|hs| + 1) / 2 => HashPair(k, hs[2 * i], RightChild(hs, i)))
  }

  function Layers(k: Keccak, hs: seq<Hash>): (r: seq<seq<Hash>>)
    requires hs != []
    ensures r != [] && r[0] == hs
    decreases |hs|
  {
    if |hs| == 1 then [hs] else [hs] + Layers(k, Level(k, hs))
  }

  function RootOf(k: Keccak, hs: seq<Hash>): Hash
    requires hs != []
    decreases |hs|
  {
    if |hs| == 1 then hs[0] else RootOf(k, Level(k, hs))
  }

  lemma {:induction false} LastLayerIsRoot(k: Keccak, hs: seq<Hash>)
    requires hs != []
    ensures var ls := Layers(k, hs); ls[|ls| - 1] == [RootOf(k, hs)]
    decreases |hs|
  {
    if |hs| > 1 {
      LastLayerIsRoot(k, Level(k, hs));
      assert Layers(k, hs)[1..] == Layers(k, Level(k, hs));
    } else {
      assert hs == [hs[0]];
    }
  }

  // ----- What it means to be the tree of a balance map -----

  predicate IsLeafOf(k: Keccak, m: Balances, l: Leaf) {
    && l.clusterID in m
    && l.effectiveBalance == m[l.clusterID]
    && l.hash == HashLeaf(k, l.clusterID, m[l.clusterID])
  }

  /** leaves lists every cluster of m exactly once, each with its balance and leaf hash. */
  ghost predicate LeavesFor(k: Keccak, m: Balances, leaves: seq<Leaf>) {
    Distinct(leaves) && forall l :: l in leaves <==> IsLeafOf(k, m, l)
  }

  ghost predicate IsTree(k: Keccak, m: Balances, t: Tree) {
    if m == map[] then t == Tree(k([]), [], [])
    else
      && LeavesFor(k, m, t.leaves)
      && t.leaves != []
      && SortedBy(t.leaves, LeafKey)
      && t.root == RootOf(k, HashesOf(t.leaves))
      && t.layers == if |t.leaves| == 1 then [] else Layers(k, HashesOf(t.leaves))
  }

  ghost function AllLeaves(k: Keccak, m: Balances): (r: seq<Leaf>)
    ensures LeavesFor(k, m, r)
  {
    var e := Enumerate(m.Keys);
    var r := seq(|e|, i requires 0 <= i < |e| => Leaf(e[i], m[e[i]], HashLeaf(k, e[i], m[e[i]])));
    assert forall l: Leaf :: IsLeafOf(k, m, l) ==> l in r by {
      forall l: Leaf | IsLeafOf(k, m, l) ensures l in r {
        var i :| 0 <= i < |e| && e[i] == l.clusterID;
        assert r[i] == l;
      }
    }
    r
  }

  /** The root as a function of the balance map alone. */
  ghost function RootOfMap(k: Keccak, m: Balances): Hash {
    if m == map[] then k([])
    else
      assert AllLeaves(k, m) != [] by {
        var id :| id in m;
        assert IsLeafOf(k, m, Leaf(id, m[id], HashLeaf(k, id, m[id])));
      }
      var hs := Sorted(HashesOf(AllLeaves(k, m)), HashKey);
      assert |hs| == |multiset(hs)| == |HashesOf(AllLeaves(k, m))|;
      RootOf(k, hs)
  }

  /** Neither the map's iteration order, nor the sort's treatment of equal hashes, nor
      anything else but the map itself shows in the root. */
  lemma TreeRootIsRootOfMap(k: Keccak, m: Balances, t: Tree)
    requires IsTree(k, m, t)
    ensures t.root == RootOfMap(k, m)
  {
    if m != map[] {
      var ls := AllLeaves(k, m);
      DistinctMultiset(ls, t.leaves);
      MapSeqMultiset(ls, t.leaves, LeafHash);
      var hs := Sorted(HashesOf(ls), HashKey);
      SortedIsSorted(HashesOf(ls), HashKey);
      SortedUnique(hs, HashesOf(t.leaves), HashKey);
    }
  }

  /** Two builds of one map agree on the root, on every layer and on the leaf hashes. */
  lemma TreesAgree(k: Keccak, m: Balances, t: Tree, t': Tree)
    requires IsTree(k, m, t) && IsTree(k, m, t')
    ensures t.root == t'.root && t.layers == t'.layers && HashesOf(t.leaves) == HashesOf(t'.leaves)
  {
    if m != map[] {
      DistinctMultiset(t.leaves, t'.leaves);
      MapSeqMultiset(t.leaves, t'.leaves, LeafHash);
      SortedUnique(HashesOf(t.leaves), HashesOf(t'.leaves), HashKey);
    }
  }

  /** Consecutive layers are consecutive levels, down to the one that has a single node. */
  ghost predicate IsLayering(k: Keccak, ls: seq<seq<Hash>>) {
    && ls != [] && |ls[|ls| - 1]| == 1
    && forall i | 0 <= i < |ls| - 1 :: |ls[i]| > 1 && ls[i + 1] == Level(k, ls[i])
  }

  lemma {:induction false} LayersAreLevels(k: Keccak, hs: seq<Hash>)
    requires hs != []
    ensures IsLayering(k, Layers(k, hs))
    decreases |hs|
  {
    if |hs| > 1 {
      LayersAreLevels(k, Level(k, hs));
      var ls := Layers(k, hs);
      assert ls[1..] == Layers(k, Level(k, hs));
      forall i | 0 <= i < |ls| - 1 ensures |ls[i]| > 1 && ls[i + 1] == Level(k, ls[i]) {
        if i > 0 { assert ls[i] == ls[1..][i - 1] && ls[i + 1] == ls[1..][i]; }
      }
    }
  }

  // ----- The same, spelled out -----

  /** The 64 bytes of a leaf: the cluster id, then the balance as a word. */
  predicate IsLeafEncoding(id: Hash, balance: u32, s: Bytes) {
    |s| == 64 && s[..32] == id && IsWord(s[32..], balance)
  }

  /** The hash of the two children put together, the one that is smaller at the first byte in
      which they differ in front. */
  ghost predicate IsParent(k: Keccak, left: Hash, right: Hash, parent: Hash) {
    || (NotAbove(left, right) && parent == k(left + right))
    || (NotAbove(right, left) && parent == k(right + left))
  }

  /** Every two neighbours have their parent above them, an odd last one is its own neighbour. */
  ghost predicate IsNextLevel(k: Keccak, hashes: seq<Hash>, next: seq<Hash>) {
    && |next| == (|hashes| + 1) / 2
    && forall i | 0 <= i < |next| ::
         IsParent(k, hashes[2 * i], if 2 * i + 1 < |hashes| then hashes[2 * i + 1] else hashes[2 * i], next[i])
  }

  /** A leaf for each cluster, twice hashed, the leaves in ascending order of their hashes. */
  ghost predicate HasLeaves(k: Keccak, m: Balances, leaves: seq<Leaf>) {
    && (forall i, j | 0 <= i < j < |leaves| ::
          leaves[i].clusterID != leaves[j].clusterID && NotAbove(leaves[i].hash, leaves[j].hash))
    && (forall id | id in m :: exists l :: l in leaves && l.clusterID == id)
    && forall l | l in leaves :: l.clusterID in m && l.effectiveBalance == m[l.clusterID]
         && exists s :: IsLeafEncoding(l.clusterID, l.effectiveBalance, s) && l.hash == k(k(s))
  }

  /** Layer upon layer from the leaf hashes up to the root. */
  ghost predicate HasLayers(k: Keccak, leaves: seq<Leaf>, layers: seq<seq<Hash>>, root: Hash) {
    && layers != [] && layers[0] == MapSeq(leaves, (l: Leaf) => l.hash) && layers[|layers|-1] == [root]
    && forall i | 0 <= i < |layers| - 1 :: |layers[i]| > 1 && IsNextLevel(k, layers[i], layers[i+1])
  }

  ghost predicate IsPairedTree(k: Keccak, m: Balances, t: Tree) {
    if m == map[] then t == Tree(k([]), [], [])
    else
      && HasLeaves(k, m, t.leaves)
      && if |t.leaves| == 1 then t.layers == [] && t.root == t.leaves[0].hash
         else HasLayers(k, t.leaves, t.layers, t.root)
  }

  lemma PairOutright(k: Keccak, a: Hash, b: Hash, p: Hash)
    ensures p == HashPair(k, a, b) <==> IsParent(k, a, b, p)
  {
    LexByFirstDifference(a, b);
    LexByFirstDifference(b, a);
    LexTotal(a, b);
    if LexLe(a, b) && LexLe(b, a) { LexAntisymmetric(a, b); }
  }

  lemma LevelOutright(k: Keccak, hs: seq<Hash>, next: seq<Hash>)
    ensures next == Level(k, hs) <==> IsNextLevel(k, hs, next)
  {
    hide HashPair, IsParent;
    forall a, b, p ensures p == HashPair(k, a, b) <==> IsParent(k, a, b, p) { PairOutright(k, a, b, p); }
    var up := Level(k, hs);
    forall i | 0 <= i < |up| ensures up[i] == HashPair(k, hs[2 * i], RightChild(hs, i)) {
    }
    if IsNextLevel(k, hs, next) {
      forall i | 0 <= i < |up| ensures up[i] == next[i] {
        assert IsParent(k, hs[2 * i], RightChild(hs, i), next[i]);
      }
    }
  }

  lemma LeafOutright(k: Keccak, id: Hash, balance: u32, h: Hash)
    ensures h == HashLeaf(k, id, balance) <==> exists s :: IsLeafEncoding(id, balance, s) && h == k(k(s))
  {
    var e := LeafBytes(id, balance);
    BigEndianIsWord(balance);
    assert e[..32] == id && e[32..] == BigEndian(balance, 32);
    assert IsLeafEncoding(id, balance, e);
    forall s | IsLeafEncoding(id, balance, s) ensures s == e {
      forall j | 0 <= j < 32 ensures s[32..][j] == e[32..][j] {
      }
      assert s == s[..32] + s[32..] && e == e[..32] + e[32..];
      assert s[32..] == e[32..];
    }
  }

  lemma LeavesOutright(k: Keccak, m: Balances, leaves: seq<Leaf>)
    ensures LeavesFor(k, m, leaves) && SortedBy(leaves, LeafKey) <==> HasLeaves(k, m, leaves)
  {
    hide IsLeafEncoding, HashLeaf, LexLe, NotAbove;
    forall l: Leaf ensures l.hash == HashLeaf(k, l.clusterID, l.effectiveBalance) <==>
        exists s :: IsLeafEncoding(l.clusterID, l.effectiveBalance, s) && l.hash == k(k(s)) {
      LeafOutright(k, l.clusterID, l.effectiveBalance, l.hash);
    }
    forall l: Leaf, l': Leaf ensures LexLe(LeafKey(l), LeafKey(l')) <==> NotAbove(l.hash, l'.hash) {
      LexByFirstDifference(l.hash, l'.hash);
    }
    if LeavesFor(k, m, leaves) {
      forall id | id in m ensures exists l :: l in leaves && l.clusterID == id {
        assert IsLeafOf(k, m, Leaf(id, m[id], HashLeaf(k, id, m[id])));
      }
      forall i, j | 0 <= i < j < |leaves| ensures leaves[i].clusterID != leaves[j].clusterID {
        assert IsLeafOf(k, m, leaves[i]) && IsLeafOf(k, m, leaves[j]);
      }
    }
    if HasLeaves(k, m, leaves) {
      forall l ensures l in leaves <==> IsLeafOf(k, m, l) {
        if IsLeafOf(k, m, l) {
          var l' :| l' in leaves && l'.clusterID == l.clusterID;
        }
      }
    }
  }

  lemma {:induction false} LayeringIsLayers(k: Keccak, ls: seq<seq<Hash>>)
    requires IsLayering(k, ls)
    ensures ls[0] != [] && ls == Layers(k, ls[0])
    decreases |ls|
  {
    if |ls| > 1 {
      assert ls[1] == Level(k, ls[0]);
      LayeringIsLayers(k, ls[1..]);
      assert ls == [ls[0]] + ls[1..];
    } else {
      assert ls == [ls[0]];
    }
  }

  lemma LayersOutright(k: Keccak, leaves: seq<Leaf>, layers: seq<seq<Hash>>, root: Hash)
    requires leaves != []
    ensures layers == Layers(k, HashesOf(leaves)) && root == RootOf(k, HashesOf(leaves))
      <==> HasLayers(k, leaves, layers, root)
  {
    var hs := HashesOf(leaves);
    assert hs == MapSeq(leaves, (l: Leaf) => l.hash);
    hide Layers, IsNextLevel, Level, RootOf;
    forall a, b ensures b == Level(k, a) <==> IsNextLevel(k, a, b) { LevelOutright(k, a, b); }
    LayersAreLevels(k, hs);
    LastLayerIsRoot(k, hs);
    if HasLayers(k, leaves, layers, root) {
      LayeringIsLayers(k, layers);
    }
  }

  /** What a tree is, without a word about how it is built: nothing else is a tree of the map. */
  lemma TreeExactly(k: Keccak, m: Balances, t: Tree)
    ensures IsTree(k, m, t) <==> IsPairedTree(k, m, t)
  {
    hide HasLayers, Layers, RootOf, LeavesFor, HasLeaves, SortedBy;
    LeavesOutright(k, m, t.leaves);
    if m != map[] {
      LeavesNotNone(k, m, t.leaves);
      if t.leaves != [] { LayersOutright(k, t.leaves, t.layers, t.root); }
      if |t.leaves| == 1 { OneLeafRoot(k, t.leaves); }
    }
  }

  /** So the root of the map is that of any tree paired up in this way. */
  lemma PairedRoot(k: Keccak, m: Balances, t: Tree)
    requires IsPairedTree(k, m, t)
    ensures t.root == RootOfMap(k, m)
  {
    hide IsPairedTree, RootOfMap, IsTree;
    TreeExactly(k, m, t);
    TreeRootIsRootOfMap(k, m, t);
  }

  lemma LeavesNotNone(k: Keccak, m: Balances, leaves: seq<Leaf>)
    requires m != map[]
    ensures HasLeaves(k, m, leaves) ==> leaves != []
  {
    var id :| id in m;
  }

  lemma OneLeafRoot(k: Keccak, leaves: seq<Leaf>)
    requires |leaves| == 1
    ensures RootOf(k, HashesOf(leaves)) == leaves[0].hash
  {
  }

  // ----- Construction -----

  method MakeLeaves(k: Keccak, clusters: Balances) returns (leaves: seq<Leaf>)
    ensures LeavesFor(k, clusters, leaves)
    ensures |leaves| == |clusters|
  {
    leaves := [];
    var todo := clusters.Keys;
    while todo != {}
      invariant todo <= clusters.Keys
      invariant Distinct(leaves)
      invariant |leaves| + |todo| == |clusters|
      invariant forall l :: l in leaves <==>
        IsLeafOf(k, clusters, l) && l.clusterID !in todo
    {
      var id :| id in todo;
      var leaf := Leaf(id, clusters[id], HashLeaf(k, id, clusters[id]));
      leaves := leaves + [leaf];
      todo := todo - {id};
    }
  }

  method HashLevel(k: Keccak, hashes: seq<Hash>) returns (next: seq<Hash>)
    ensures next == Level(k, hashes) && IsNextLevel(k, hashes, next)
  {
    LevelOutright(k, hashes, Level(k, hashes));
    var buf := new Hash[(|hashes| + 1) / 2];
    var i := 0;
    while i < |hashes|
      invariant 0 <= i <= |hashes| + 1 && i % 2 == 0
      invariant forall j | 0 <= j < i / 2 :: buf[j] == Level(k, hashes)[j]
    {
      var left, right := hashes[i], hashes[i];
      if i + 1 < |hashes| {
        right := hashes[i + 1];
      }
      buf[i / 2] := HashPair(k, left, right);
      i := i + 2;
    }
    next := buf[..];
  }

  method BuildLayers(k: Keccak, leaves: seq<Leaf>) returns (layers: seq<seq<Hash>>)
    requires leaves != []
    ensures layers == Layers(k, HashesOf(leaves))
  {
    var hashes := [];
    for i := 0 to |leaves|
      invariant hashes == HashesOf(leaves)[..i]
    {
      hashes := hashes + [leaves[i].hash];
    }
    layers := [hashes];
    assert hashes == HashesOf(leaves) && [] + Layers(k, hashes) == Layers(k, hashes);
    while |hashes| > 1
      invariant hashes != []
      invariant layers != [] && layers[|layers| - 1] == hashes
      invariant layers[..|layers| - 1] + Layers(k, hashes) == Layers(k, HashesOf(leaves))
      decreases |hashes|
    {
      ghost var before := hashes;
      hashes := HashLevel(k, hashes);
      assert Layers(k, before) == [before] + Layers(k, hashes);
      layers := layers + [hashes];
    }
  }

  method NewTree(k: Keccak, clusters: Balances) returns (t: Tree)
    ensures IsTree(k, clusters, t) && IsPairedTree(k, clusters, t)
    ensures t.root == RootOfMap(k, clusters)
  {
    hide IsPairedTree;
    if |clusters| == 0 {
      t := Tree(k([]), [], []);
      TreeExactly(k, clusters, t);
      return;
    }
    var unsorted := MakeLeaves(k, clusters);
    var leaves := Sort(unsorted, LeafKey);
    DistinctPermutation(unsorted, leaves);
    MultisetMembers(unsorted, leaves);
    if |leaves| == 1 {
      t := Tree(leaves[0].hash, leaves, []);
    } else {
      var layers := BuildLayers(k, leaves);
      LastLayerIsRoot(k, HashesOf(leaves));
      t := Tree(layers[|layers| - 1][0], leaves, layers);
    }
    TreeRootIsRootOfMap(k, clusters, t);
    TreeExactly(k, clusters, t);
  }
}
