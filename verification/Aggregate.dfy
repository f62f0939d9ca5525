/** From active validators and beacon balances to the committed root
    (oracle/oracle.go:239-321). */
module Aggregate {
  import opened Bytes
  import opened Order
  import opened Merkle
  import opened Events
  import opened Storage

  const GWEI_PER_ETH: nat := 1_000_000_000
  const BALANCE_FLOOR: nat := 32_000_000_000
  const U32: int := 0x1_0000_0000

  /** Effective balances in gwei, by public key, at the finalized state. */
  type Beacon = map<Bytes, u64>

  /** What one validator adds to its cluster: its balance, or 32 ETH if that is more or the
      beacon does not know it. */
  function Contribution(beacon: Beacon, pubkey: Bytes): (r: nat)
    ensures r >= BALANCE_FLOOR
  {
    if pubkey in beacon && beacon[pubkey] >= BALANCE_FLOOR then beacon[pubkey] else BALANCE_FLOOR
  }

  /** The contribution of v to cluster c. */
  function Share(beacon: Beacon, v: Validator, c: Hash): nat {
    if v.0 == c then Contribution(beacon, v.1) else 0
  }

  /** The true total of a cluster, over the integers. */
  function ClusterTotal(vs: seq<Validator>, beacon: Beacon, c: Hash): nat {
    if vs == [] then 0 else ClusterTotal(vs[..|vs|-1], beacon, c) + Share(beacon, vs[|vs|-1], c)
  }

  function ClusterCount(vs: seq<Validator>, c: Hash): nat {
    if vs == [] then 0 else ClusterCount(vs[..|vs|-1], c) + if vs[|vs|-1].0 == c then 1 else 0
  }

  function GrandTotal(vs: seq<Validator>, beacon: Beacon): nat {
    if vs == [] then 0 else GrandTotal(vs[..|vs|-1], beacon) + Contribution(beacon, vs[|vs|-1].1)
  }

  /** The stored figure: the 64-bit sum in whole ETH, cut to 32 bits. */
  function EffectiveBalance(vs: seq<Validator>, beacon: Beacon, c: Hash): u32 {
    ((ClusterTotal(vs, beacon, c) % U64) / GWEI_PER_ETH) % U32
  }

  // ----- The total from the beacon's balances -----

  /** By how much the cluster's known balances exceed 32 ETH each. */
  function ExcessOf(vs: seq<Validator>, beacon: Beacon, c: Hash): nat {
    if vs == [] then 0
    else
      var v := vs[|vs|-1];
      ExcessOf(vs[..|vs|-1], beacon, c)
      + if v.0 == c && v.1 in beacon && beacon[v.1] > 32_000_000_000 then beacon[v.1] - 32_000_000_000 else 0
  }

  /** In whole ETH, a sum of gwei kept in 64 bits, cut to 32 bits. */
  function WholeEth(gwei: nat): u32 {
    gwei % 0x1_0000_0000_0000_0000 / 1_000_000_000 % 0x1_0000_0000
  }

  /** A cluster's total is 32 ETH for each of its validators and what their known balances
      exceed that by; its figure is this total in whole ETH. */
  lemma {:induction false} TotalExactly(vs: seq<Validator>, beacon: Beacon, c: Hash)
    ensures ClusterTotal(vs, beacon, c) == 32_000_000_000 * ClusterCount(vs, c) + ExcessOf(vs, beacon, c)
    ensures EffectiveBalance(vs, beacon, c) == WholeEth(32_000_000_000 * ClusterCount(vs, c) + ExcessOf(vs, beacon, c))
  {
    if vs != [] { TotalExactly(vs[..|vs|-1], beacon, c); }
  }

  /** Every cluster is listed with the figure of its total. */
  ghost predicate HasFigures(vs: seq<Validator>, beacon: Beacon, bs: seq<ClusterBalance>) {
    forall b | b in bs :: b.effectiveBalance ==
      WholeEth(32_000_000_000 * ClusterCount(vs, b.clusterID) + ExcessOf(vs, beacon, b.clusterID))
  }

  lemma AggregateHasFigures(vs: seq<Validator>, beacon: Beacon, bs: seq<ClusterBalance>)
    requires IsAggregate(vs, beacon, bs)
    ensures HasFigures(vs, beacon, bs)
  {
    forall b | b in bs ensures b.effectiveBalance ==
      WholeEth(32_000_000_000 * ClusterCount(vs, b.clusterID) + ExcessOf(vs, beacon, b.clusterID)) {
      TotalExactly(vs, beacon, b.clusterID);
    }
  }

  /** Raising a validator's balance from 32 ETH or more raises the totals of exactly the
      clusters it is listed for, by the same amount. */
  lemma {:induction false} RaisedBalance(vs: seq<Validator>, beacon: Beacon, pubkey: Bytes, d: nat, c: Hash)
    requires Distinct(vs) && pubkey in beacon && beacon[pubkey] >= 32_000_000_000 && beacon[pubkey] + d < U64
    ensures ClusterTotal(vs, beacon[pubkey := beacon[pubkey] + d], c)
      == ClusterTotal(vs, beacon, c) + if (c, pubkey) in vs then d else 0
  {
    if vs != [] {
      var n := |vs| - 1;
      RaisedBalance(vs[..n], beacon, pubkey, d, c);
      assert vs == vs[..n] + [vs[n]] && vs[n] !in vs[..n];
    }
  }

  /** The stored figure is the cluster's floored total exactly when that total is below
      2^32 ETH; no wrap of the 64-bit sum can go unnoticed below it. */
  lemma ExactBelow32Bits(vs: seq<Validator>, beacon: Beacon, c: Hash)
    ensures EffectiveBalance(vs, beacon, c) == ClusterTotal(vs, beacon, c) / GWEI_PER_ETH
      <==> ClusterTotal(vs, beacon, c) < U32 * GWEI_PER_ETH
  {
  }

  lemma {:induction false} TotalAboveFloor(vs: seq<Validator>, beacon: Beacon, c: Hash)
    ensures ClusterTotal(vs, beacon, c) >= ClusterCount(vs, c) * BALANCE_FLOOR
  {
    if vs != [] { TotalAboveFloor(vs[..|vs|-1], beacon, c); }
  }

  lemma {:induction false} TotalBounded(vs: seq<Validator>, beacon: Beacon, c: Hash, most: nat)
    requires most >= BALANCE_FLOOR && forall pk | pk in beacon :: beacon[pk] <= most
    ensures ClusterTotal(vs, beacon, c) <= ClusterCount(vs, c) * most
  {
    if vs != [] {
      TotalBounded(vs[..|vs|-1], beacon, c, most);
      var n := ClusterCount(vs[..|vs|-1], c);
      assert (n + 1) * most == n * most + most;
    }
  }

  /** A cluster counts for at least 32 ETH a validator, as long as the number of its
      validators times the largest balance stays below 2^32 ETH. */
  lemma AtLeast32PerValidator(vs: seq<Validator>, beacon: Beacon, c: Hash, most: nat)
    requires most >= BALANCE_FLOOR && forall pk | pk in beacon :: beacon[pk] <= most
    requires ClusterCount(vs, c) * most < U32 * GWEI_PER_ETH
    ensures EffectiveBalance(vs, beacon, c) == ClusterTotal(vs, beacon, c) / GWEI_PER_ETH >= 32 * ClusterCount(vs, c)
  {
    TotalBounded(vs, beacon, c, most);
    TotalAboveFloor(vs, beacon, c);
    ExactBelow32Bits(vs, beacon, c);
    assert ClusterCount(vs, c) * BALANCE_FLOOR == 32 * ClusterCount(vs, c) * GWEI_PER_ETH;
  }

  // ----- Nothing is lost between clusters -----

  function SumOver(ids: seq<Hash>, vs: seq<Validator>, beacon: Beacon): nat {
    if ids == [] then 0 else SumOver(ids[..|ids|-1], vs, beacon) + ClusterTotal(vs, beacon, ids[|ids|-1])
  }

  lemma {:induction false} SumOverAppend(ids: seq<Hash>, vs: seq<Validator>, v: Validator, beacon: Beacon)
    requires Distinct(ids)
    ensures SumOver(ids, vs + [v], beacon)
      == SumOver(ids, vs, beacon) + if v.0 in ids then Contribution(beacon, v.1) else 0
  {
    if ids != [] {
      var n := |ids| - 1;
      SumOverAppend(ids[..n], vs, v, beacon);
      assert (vs + [v])[..|vs|] == vs;
      assert ids == ids[..n] + [ids[n]];
      assert ids[n] !in ids[..n];
    }
  }

  lemma {:induction false} SumOverEmpty(ids: seq<Hash>, beacon: Beacon)
    ensures SumOver(ids, [], beacon) == 0
  {
    if ids != [] { SumOverEmpty(ids[..|ids|-1], beacon); }
  }

  /** The totals of the clusters add up to the total of the validators. */
  lemma {:induction false} Conservation(ids: seq<Hash>, vs: seq<Validator>, beacon: Beacon)
    requires Distinct(ids) && forall i | 0 <= i < |vs| :: vs[i].0 in ids
    ensures SumOver(ids, vs, beacon) == GrandTotal(vs, beacon)
  {
    if vs == [] {
      SumOverEmpty(ids, beacon);
    } else {
      var n := |vs| - 1;
      Conservation(ids, vs[..n], beacon);
      SumOverAppend(ids, vs[..n], vs[n], beacon);
      assert vs == vs[..n] + [vs[n]];
    }
  }

  function StoredSum(bs: seq<ClusterBalance>): nat {
    if bs == [] then 0 else StoredSum(bs[..|bs|-1]) + bs[|bs|-1].effectiveBalance
  }

  lemma {:induction false} WholeEthTotal(vs: seq<Validator>, beacon: Beacon, c: Hash)
    requires forall pk | pk in beacon :: beacon[pk] % GWEI_PER_ETH == 0
    ensures ClusterTotal(vs, beacon, c) % GWEI_PER_ETH == 0
  {
    if vs != [] { WholeEthTotal(vs[..|vs|-1], beacon, c); }
  }

  lemma {:induction false} StoredSumIsSumOver(bs: seq<ClusterBalance>, vs: seq<Validator>, beacon: Beacon)
    requires forall pk | pk in beacon :: beacon[pk] % GWEI_PER_ETH == 0
    requires forall i | 0 <= i < |bs| ::
      && ClusterTotal(vs, beacon, bs[i].clusterID) < U32 * GWEI_PER_ETH
      && bs[i].effectiveBalance == EffectiveBalance(vs, beacon, bs[i].clusterID)
    ensures StoredSum(bs) * GWEI_PER_ETH == SumOver(MapSeq(bs, IDOf), vs, beacon)
  {
    if bs != [] {
      var n := |bs| - 1;
      StoredSumIsSumOver(bs[..n], vs, beacon);
      assert MapSeq(bs, IDOf)[..n] == MapSeq(bs[..n], IDOf);
      ExactBelow32Bits(vs, beacon, bs[n].clusterID);
      WholeEthTotal(vs, beacon, bs[n].clusterID);
    }
  }

  // ----- The loops -----

  function IDOf(b: ClusterBalance): Hash { b.clusterID }

  /** One entry for each cluster with a validator in vs, with its stored figure. */
  ghost predicate IsAggregate(vs: seq<Validator>, beacon: Beacon, bs: seq<ClusterBalance>) {
    && Distinct(MapSeq(bs, IDOf))
    && (forall i | 0 <= i < |bs| :: bs[i].effectiveBalance == EffectiveBalance(vs, beacon, bs[i].clusterID))
    && (forall c :: c in MapSeq(bs, IDOf) <==> HasValidator(vs, c))
  }

  ghost predicate HasValidator(vs: seq<Validator>, c: Hash) {
    exists i :: 0 <= i < |vs| && vs[i].0 == c
  }

  /** The running totals after the validators vs. */
  ghost predicate TotalsOf(vs: seq<Validator>, beacon: Beacon, totals: map<Hash, u64>) {
    && (forall c :: c in totals <==> HasValidator(vs, c))
    && (forall c | c in totals :: totals[c] == ClusterTotal(vs, beacon, c) % U64)
  }

  lemma {:induction false} NoValidatorNoTotal(vs: seq<Validator>, beacon: Beacon, c: Hash)
    requires !HasValidator(vs, c)
    ensures ClusterTotal(vs, beacon, c) == 0
  {
    if vs != [] {
      assert vs[|vs|-1].0 != c;
      assert forall i | 0 <= i < |vs|-1 :: vs[..|vs|-1][i] == vs[i];
      NoValidatorNoTotal(vs[..|vs|-1], beacon, c);
    }
  }

  lemma TotalsStep(vs: seq<Validator>, v: Validator, beacon: Beacon, totals: map<Hash, u64>)
    requires TotalsOf(vs, beacon, totals)
    ensures TotalsOf(vs + [v], beacon, totals[v.0 :=
      ((if v.0 in totals then totals[v.0] else 0) + Contribution(beacon, v.1)) % U64])
  {
    var s := vs + [v];
    assert s[..|vs|] == vs && s[|vs|] == v;
    forall c ensures HasValidator(s, c) <==> HasValidator(vs, c) || c == v.0 {
      if HasValidator(vs, c) {
        var i :| 0 <= i < |vs| && vs[i].0 == c;
        assert s[i].0 == c;
      }
    }
    if v.0 !in totals { NoValidatorNoTotal(vs, beacon, v.0); }
    SumMod(ClusterTotal(vs, beacon, v.0), Contribution(beacon, v.1));
  }

  /** For whole-ETH balances the stored figures add up to the validators' total. */
  lemma StoredConservation(vs: seq<Validator>, beacon: Beacon, bs: seq<ClusterBalance>)
    requires IsAggregate(vs, beacon, bs)
    requires forall pk | pk in beacon :: beacon[pk] % GWEI_PER_ETH == 0
    requires forall i | 0 <= i < |bs| :: ClusterTotal(vs, beacon, bs[i].clusterID) < U32 * GWEI_PER_ETH
    ensures StoredSum(bs) * GWEI_PER_ETH == GrandTotal(vs, beacon)
  {
    StoredSumIsSumOver(bs, vs, beacon);
    Conservation(MapSeq(bs, IDOf), vs, beacon);
  }

  /** Every public key once. */
  method DeduplicatePubkeys(validators: seq<Validator>) returns (pubkeys: seq<Bytes>)
    ensures Distinct(pubkeys)
    ensures forall pk :: pk in pubkeys <==> exists i :: 0 <= i < |validators| && validators[i].1 == pk
  {
    var seen: set<Bytes> := {};
    pubkeys := [];
    for i := 0 to |validators|
      invariant Distinct(pubkeys) && forall pk :: pk in seen <==> pk in pubkeys
      invariant forall pk :: pk in seen <==> exists j :: 0 <= j < i && validators[j].1 == pk
    {
      var pk := validators[i].1;
      if pk !in seen {
        seen := seen + {pk};
        pubkeys := pubkeys + [pk];
      }
    }
  }

  method AggregateByCluster(validators: seq<Validator>, balances: Beacon) returns (result: seq<ClusterBalance>)
    ensures IsAggregate(validators, balances, result) && HasFigures(validators, balances, result)
  {
    var totals: map<Hash, u64> := map[];
    for i := 0 to |validators|
      invariant TotalsOf(validators[..i], balances, totals)
    {
      var v := validators[i];
      var balance: nat := if v.1 in balances then balances[v.1] else 0;
      if balance < BALANCE_FLOOR {
        balance := BALANCE_FLOOR;
      }
      assert validators[..i+1] == validators[..i] + [v];
      TotalsStep(validators[..i], v, balances, totals);
      totals := totals[v.0 := ((if v.0 in totals then totals[v.0] else 0) + balance) % U64];
    }
    assert validators[..|validators|] == validators;
    result := ListTotals(validators, balances, totals);
    AggregateHasFigures(validators, balances, result);
  }

  lemma SumMod(a: nat, b: nat)
    ensures (a % U64 + b) % U64 == (a + b) % U64
  {
  }

  method ListTotals(ghost validators: seq<Validator>, ghost balances: Beacon, totals: map<Hash, u64>)
    returns (result: seq<ClusterBalance>)
    requires TotalsOf(validators, balances, totals)
    ensures IsAggregate(validators, balances, result)
  {
    result := [];
    var todo := totals.Keys;
    while todo != {}
      invariant todo <= totals.Keys
      invariant Distinct(MapSeq(result, IDOf))
      invariant forall c :: c in MapSeq(result, IDOf) <==> c in totals && c !in todo
      invariant forall i | 0 <= i < |result| ::
        result[i].effectiveBalance == EffectiveBalance(validators, balances, result[i].clusterID)
    {
      var c :| c in todo;
      var b := ClusterBalance(c, (totals[c] / GWEI_PER_ETH) % U32);
      assert MapSeq(result + [b], IDOf) == MapSeq(result, IDOf) + [c];
      result := result + [b];
      todo := todo - {c};
    }
  }

  // ----- The root as a function of the active set and the beacon -----

  /** The map built from a list of balances; a later entry replaces an earlier one. */
  function BalancesOf(bs: seq<ClusterBalance>): Balances {
    if bs == [] then map[] else BalancesOf(bs[..|bs|-1])[bs[|bs|-1].clusterID := bs[|bs|-1].effectiveBalance]
  }

  /** With distinct ids the map is the list. */
  lemma {:induction false} BalancesLookup(bs: seq<ClusterBalance>, c: Hash, b: u32)
    requires Distinct(MapSeq(bs, IDOf))
    ensures c in BalancesOf(bs) && BalancesOf(bs)[c] == b <==> ClusterBalance(c, b) in bs
  {
    if bs != [] {
      var n := |bs| - 1;
      assert MapSeq(bs[..n], IDOf) == MapSeq(bs, IDOf)[..n];
      BalancesLookup(bs[..n], c, b);
      assert bs == bs[..n] + [bs[n]];
      forall i | 0 <= i < n ensures bs[i].clusterID != bs[n].clusterID {
        assert MapSeq(bs, IDOf)[i] != MapSeq(bs, IDOf)[n];
      }
    }
  }

  /** Rebuilding from a stored list in any order gives the same map, hence the same root. */
  lemma RebuildAnyOrder(bs: seq<ClusterBalance>, bs': seq<ClusterBalance>)
    requires Distinct(MapSeq(bs, IDOf)) && multiset(bs) == multiset(bs')
    ensures BalancesOf(bs) == BalancesOf(bs')
  {
    MapSeqMultiset(bs, bs', IDOf);
    DistinctPermutation(MapSeq(bs, IDOf), MapSeq(bs', IDOf));
    MultisetMembers(bs, bs');
    var m, m' := BalancesOf(bs), BalancesOf(bs');
    forall c ensures (c in m <==> c in m') && (c in m ==> m[c] == m'[c]) {
      if c in m { BalancesLookup(bs, c, m[c]); BalancesLookup(bs', c, m[c]); }
      if c in m' { BalancesLookup(bs', c, m'[c]); BalancesLookup(bs, c, m'[c]); }
    }
  }

  method BuildTree(k: Keccak, balances: seq<ClusterBalance>) returns (t: Tree)
    ensures IsTree(k, BalancesOf(balances), t) && t.root == RootOfMap(k, BalancesOf(balances))
  {
    var clusters: Balances := map[];
    for i := 0 to |balances|
      invariant clusters == BalancesOf(balances[..i])
    {
      assert balances[..i+1][..i] == balances[..i];
      clusters := clusters[balances[i].clusterID := balances[i].effectiveBalance];
    }
    assert balances[..|balances|] == balances;
    t := NewTree(k, clusters);
  }

  /** The balance map of a set of active validators. */
  ghost function ActiveBalances(active: set<Validator>, beacon: Beacon): Balances {
    map c | c in (set v | v in active :: v.0) :: EffectiveBalance(Enumerate(active), beacon, c)
  }

  /** The root to commit: a function of the active validators and the beacon alone. */
  ghost function CommittedRoot(k: Keccak, active: set<Validator>, beacon: Beacon): Hash {
    RootOfMap(k, ActiveBalances(active, beacon))
  }

  lemma ShareMoves(vs: seq<Validator>, beacon: Beacon, c: Hash, i: nat)
    requires i < |vs|
    ensures ClusterTotal(vs, beacon, c) == ClusterTotal(vs[..i] + vs[i+1..], beacon, c) + Share(beacon, vs[i], c)
  {
    TotalConcat(vs[..i] + [vs[i]], vs[i+1..], beacon, c);
    TotalConcat(vs[..i], [vs[i]], beacon, c);
    TotalConcat(vs[..i], vs[i+1..], beacon, c);
    assert vs == (vs[..i] + [vs[i]]) + vs[i+1..];
    var one: seq<Validator> := [vs[i]];
    assert one[..0] == [];
  }

  lemma {:induction false} TotalConcat(a: seq<Validator>, b: seq<Validator>, beacon: Beacon, c: Hash)
    ensures ClusterTotal(a + b, beacon, c) == ClusterTotal(a, beacon, c) + ClusterTotal(b, beacon, c)
  {
    if b == [] {
      assert a + b == a;
    } else {
      assert (a + b)[..|a + b|-1] == a + b[..|b|-1];
      TotalConcat(a, b[..|b|-1], beacon, c);
    }
  }

  /** A total does not depend on the order of the validators. */
  lemma {:induction false} TotalAnyOrder(a: seq<Validator>, b: seq<Validator>, beacon: Beacon, c: Hash)
    requires multiset(a) == multiset(b)
    ensures ClusterTotal(a, beacon, c) == ClusterTotal(b, beacon, c)
  {
    assert |a| == |multiset(a)| == |b|;
    if a != [] {
      assert a[0] in multiset(b);
      var j :| 0 <= j < |b| && b[j] == a[0];
      RemoveAt(a, b, j);
      TotalAnyOrder(a[1..], b[..j] + b[j+1..], beacon, c);
      ShareMoves(a, beacon, c, 0);
      assert a[..0] + a[1..] == a[1..];
      ShareMoves(b, beacon, c, j);
    }
  }

  /** Whatever order the validators come in and whatever order the aggregation lists the
      clusters in, the map, and so the root, is the one the active set determines. */
  lemma RootIsDetermined(k: Keccak, active: set<Validator>, beacon: Beacon, vs: seq<Validator>, bs: seq<ClusterBalance>)
    requires Distinct(vs) && forall v :: v in vs <==> v in active
    requires IsAggregate(vs, beacon, bs)
    ensures BalancesOf(bs) == ActiveBalances(active, beacon)
    ensures RootOfMap(k, BalancesOf(bs)) == CommittedRoot(k, active, beacon)
  {
    var m, m', e := BalancesOf(bs), ActiveBalances(active, beacon), Enumerate(active);
    DistinctMultiset(vs, e);
    forall c ensures (c in m <==> c in m') && (c in m' ==> m[c] == m'[c]) {
      TotalAnyOrder(vs, e, beacon, c);
      ListedExactly(vs, beacon, bs, c);
      if c in m' {
        var v :| v in active && v.0 == c;
        var j :| 0 <= j < |vs| && vs[j] == v;
        assert HasValidator(vs, c);
      }
      if HasValidator(vs, c) {
        var j :| 0 <= j < |vs| && vs[j].0 == c;
        assert vs[j] in active;
      }
    }
  }

  lemma ListedExactly(vs: seq<Validator>, beacon: Beacon, bs: seq<ClusterBalance>, c: Hash)
    requires IsAggregate(vs, beacon, bs)
    ensures c in BalancesOf(bs) <==> HasValidator(vs, c)
    ensures c in BalancesOf(bs) ==> BalancesOf(bs)[c] == EffectiveBalance(vs, beacon, c)
  {
    var ids, m := MapSeq(bs, IDOf), BalancesOf(bs);
    if c in m {
      BalancesLookup(bs, c, m[c]);
      var i :| 0 <= i < |bs| && bs[i] == ClusterBalance(c, m[c]);
      assert ids[i] == c;
    }
    if c in ids {
      var i :| 0 <= i < |ids| && ids[i] == c;
      assert bs[i] == ClusterBalance(c, EffectiveBalance(vs, beacon, c));
      BalancesLookup(bs, c, bs[i].effectiveBalance);
    }
  }

  /** Asking the beacon for the listed keys only changes nothing. */
  lemma {:induction false} SameTotal(vs: seq<Validator>, beacon: Beacon, part: Beacon, c: Hash)
    requires forall i | 0 <= i < |vs| :: Contribution(part, vs[i].1) == Contribution(beacon, vs[i].1)
    ensures ClusterTotal(vs, beacon, c) == ClusterTotal(vs, part, c)
  {
    if vs != [] {
      var n := |vs| - 1;
      forall i | 0 <= i < n ensures Contribution(part, vs[..n][i].1) == Contribution(beacon, vs[..n][i].1) {
        assert vs[..n][i] == vs[i];
      }
      SameTotal(vs[..n], beacon, part, c);
    }
  }

  // ----- The beacon node -----

  /** A request to the beacon node and its answer. */
  datatype BeaconRequest =
    | Verify(blockRoot: Hash, ok: bool)
    | Balances(pubkeys: seq<Bytes>, answer: Result<Beacon>)

  predicate WentWell(r: BeaconRequest) {
    if r.Verify? then r.ok else r.answer.Ok?
  }

  /** Some request was not answered well. */
  predicate Declined(asked: seq<BeaconRequest>) {
    exists r :: r in asked && !WentWell(r)
  }

  /** A request for the keys of the validators, each once. */
  ghost predicate AsksFor(r: BeaconRequest, active: set<Validator>) {
    r.Balances? && Distinct(r.pubkeys) && forall pk :: pk in r.pubkeys <==> exists v :: v in active && v.1 == pk
  }

  /** First the block root; only if it was verified the balances, and these exactly if there
      is an active validator. */
  ghost predicate AsksInOrder(asked: seq<BeaconRequest>, blockRoot: Hash, active: set<Validator>) {
    && asked != [] && asked[0].Verify? && asked[0].blockRoot == blockRoot
    && if asked[0].ok && active != {} then |asked| == 2 && AsksFor(asked[1], active) else |asked| == 1
  }

  /** The balances received; none if none were asked for. */
  function BeaconOf(asked: seq<BeaconRequest>): Beacon {
    if |asked| == 2 && asked[1].Balances? && asked[1].answer.Ok? then asked[1].answer.value else map[]
  }

  /** Asking for the active validators' keys only changes nothing: if the answer agrees with
      a beacon state on the keys asked for, the root is that of the whole state. */
  lemma KeysSuffice(k: Keccak, active: set<Validator>, r: BeaconRequest, beacon: Beacon)
    requires AsksFor(r, active) && r.answer.Ok?
    requires forall pk | pk in r.pubkeys ::
      (pk in r.answer.value <==> pk in beacon) && (pk in beacon ==> r.answer.value[pk] == beacon[pk])
    ensures CommittedRoot(k, active, r.answer.value) == CommittedRoot(k, active, beacon)
  {
    var part, vs := r.answer.value, Enumerate(active);
    forall i | 0 <= i < |vs| ensures Contribution(part, vs[i].1) == Contribution(beacon, vs[i].1) {
      assert vs[i] in active;
      assert vs[i].1 in r.pubkeys;
    }
    forall c ensures ClusterTotal(vs, beacon, c) == ClusterTotal(vs, part, c) { SameTotal(vs, beacon, part, c); }
    assert ActiveBalances(active, part) == ActiveBalances(active, beacon);
  }

  class BeaconNode {
    ghost var requests: seq<BeaconRequest>

    constructor ()
      ensures requests == []
    {
      requests := [];
    }

    /** Whether the node's finalized block is the expected one. */
    method VerifyFinalizedBlockRoot(expected: Hash) returns (ok: bool)
      modifies this
      ensures requests == old(requests) + [Verify(expected, ok)]
    {
      ok := *;
      requests := requests + [Verify(expected, ok)];
    }

    /** The effective balances of some keys at the finalized state, whatever the node says. */
    method GetValidatorBalances(pubkeys: seq<Bytes>) returns (r: Result<Beacon>)
      modifies this
      ensures requests == old(requests) + [Balances(pubkeys, r)]
    {
      r := *;
      requests := requests + [Balances(pubkeys, r)];
    }
  }

  /** Without validators the node is not asked; otherwise it is asked once, for every key
      once, and the balances are aggregated from its answer. */
  method FetchBalances(node: BeaconNode, validators: seq<Validator>)
    returns (r: Result<seq<ClusterBalance>>, ghost asked: seq<BeaconRequest>)
    modifies node
    ensures node.requests == old(node.requests) + asked
    ensures if validators == [] then asked == [] else |asked| == 1 && AsksFor(asked[0], set v | v in validators)
    ensures r.Ok? <==> asked == [] || asked[0].answer.Ok?
    ensures r.Ok? ==> IsAggregate(validators, if asked == [] then map[] else asked[0].answer.value, r.value)
    ensures r.Ok? ==> HasFigures(validators, if asked == [] then map[] else asked[0].answer.value, r.value)
  {
    if |validators| == 0 {
      return Ok([]), [];
    }
    var keys := DeduplicatePubkeys(validators);
    var fetched := node.GetValidatorBalances(keys);
    asked := [Balances(keys, fetched)];
    KeysOf(validators, keys, fetched);
    if fetched.Err? { return Err, asked; }
    var balances := AggregateByCluster(validators, fetched.value);
    r := Ok(balances);
  }

  lemma KeysOf(vs: seq<Validator>, keys: seq<Bytes>, answer: Result<Beacon>)
    requires Distinct(keys) && forall pk :: pk in keys <==> exists i :: 0 <= i < |vs| && vs[i].1 == pk
    ensures AsksFor(Balances(keys, answer), set v | v in vs)
  {
    forall pk ensures pk in keys <==> exists v :: v in vs && v.1 == pk {
      if pk in keys {
        var i :| 0 <= i < |vs| && vs[i].1 == pk;
        assert vs[i] in vs;
      }
    }
  }
}
