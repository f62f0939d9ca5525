/** What an updater does with the leaves of a committed tree, visit by visit, and how it
    counts (updater/updater.go:219-411). */
module Visits {
  import opened Bytes
  import opened Order
  import opened Merkle
  import opened MerkleProofs
  import opened ClusterId
  import opened Events
  import opened Storage
  import opened Chain
  import opened Execution
  import opened Syncer
  import opened Aggregate
  import opened Settlement

  datatype Reason = IncorrectClusterState | ClusterIsLiquidated | MustUseLatestRoot | RootNotFound | OtherReason

  datatype Answer<T> = Answered(value: T) | Reverts(reason: Reason) | Fails

  // ----- Submissions -----

  /** One updateClusterBalance call; the row carries the owner, the operators and the
      cluster snapshot. */
  datatype Submission = Submission(blockNum: nat, cluster: ClusterRow, effectiveBalance: u32, proof: seq<Hash>)

  function SubmittedID(k: Keccak, s: Submission): Hash {
    ClusterIDOf(k, s.cluster.owner, s.cluster.operatorIDs)
  }

  /** The proof leads from the leaf of the submitted cluster and balance to the root. */
  predicate LeadsTo(k: Keccak, root: Hash, block: nat, s: Submission) {
    s.blockNum == block && Fold(k, HashLeaf(k, SubmittedID(k, s), s.effectiveBalance), s.proof) == root
  }

  predicate CarriesEntry(k: Keccak, m: Balances, root: Hash, block: nat, s: Submission) {
    && SubmittedID(k, s) in m && s.effectiveBalance == m[SubmittedID(k, s)]
    && |s.proof| == Depth(|m|) && LeadsTo(k, root, block, s)
  }

  /** Whatever leads to a committed root is an entry of the balances committed to, or the
      hash has been broken in plain view. */
  lemma SubmissionIsCommitted(k: Keccak, m: Balances, block: nat, s: Submission)
    requires LeadsTo(k, RootOfMap(k, m), block, s)
    ensures (SubmittedID(k, s) in m && m[SubmittedID(k, s)] == s.effectiveBalance)
      || Collide(k, TreeQueries(k, m), ProofQueries(k, SubmittedID(k, s), s.effectiveBalance, s.proof))
  {
    ProofSound(k, m, SubmittedID(k, s), s.effectiveBalance, s.proof);
  }

  // ----- Visits -----

  function RowIn(rows: map<Hash, ClusterRow>, id: Hash): Option<ClusterRow> {
    if id in rows then Some(rows[id]) else None
  }

  /** A request to the contract and its answer. */
  datatype ContractCall =
    | Read(cluster: ClusterRow, balance: Answer<u32>)
    | Write(submission: Submission, reply: Answer<()>)

  /** What processing one cluster reports: true, false, a revert, or another error. */
  datatype ClusterResult = Updated | NotUpdated | RevertedWith(reason: Reason) | Errored

  /** The processing of one leaf: the row found, the requests made, the result. */
  datatype Visit = Visit(leaf: Leaf, found: Result<Option<ClusterRow>>, calls: seq<ContractCall>, result: ClusterResult)

  function FailureOf<T>(a: Answer<T>): ClusterResult
    requires !a.Answered?
  {
    match a case Reverts(reason) => RevertedWith(reason) case Fails => Errored
  }

  /** The leaf was submitted: its own entry, for the row found, and the answer is the result. */
  predicate Submits(k: Keccak, m: Balances, root: Hash, block: nat, v: Visit, row: ClusterRow) {
    && |v.calls| == 2 && v.calls[1].Write?
    && v.calls[1].submission.cluster == row && SubmittedID(k, v.calls[1].submission) == v.leaf.clusterID
    && v.calls[1].submission.effectiveBalance == v.leaf.effectiveBalance
    && CarriesEntry(k, m, root, block, v.calls[1].submission)
    && v.result == if v.calls[1].reply.Answered? then Updated else FailureOf(v.calls[1].reply)
  }

  /** The contract was asked for the row's balance, and the leaf submitted if it differs. */
  predicate Compares(k: Keccak, m: Balances, root: Hash, block: nat, v: Visit, row: ClusterRow) {
    && RowKeyed(k, v.leaf.clusterID, row)
    && |v.calls| >= 1 && v.calls[0].Read? && v.calls[0].cluster == row
    && if !v.calls[0].balance.Answered? then |v.calls| == 1 && v.result == FailureOf(v.calls[0].balance)
       else if v.calls[0].balance.value == v.leaf.effectiveBalance then |v.calls| == 1 && v.result == NotUpdated
       else Submits(k, m, root, block, v, row)
  }

  /** A visit goes by the book: nothing is asked without a row, and the rest as compared. */
  predicate IsVisit(k: Keccak, m: Balances, root: Hash, block: nat, v: Visit) {
    && v.leaf.clusterID in m && v.leaf.effectiveBalance == m[v.leaf.clusterID]
    && if v.found.Err? then v.calls == [] && v.result == Errored
       else if v.found.value.None? then v.calls == [] && v.result == NotUpdated
       else Compares(k, m, root, block, v, v.found.value.value)
  }

  function CallsOfAll(vs: seq<Visit>): seq<ContractCall> {
    if vs == [] then [] else CallsOfAll(vs[..|vs|-1]) + vs[|vs|-1].calls
  }

  function ReadsOfAll(vs: seq<Visit>): seq<ClusterRead> {
    MapSeq(vs, (v: Visit) => ClusterRead(v.leaf.clusterID, v.found))
  }

  /** One visit for each of the leaves, in order, as far as the pass got. */
  ghost predicate IsPass(k: Keccak, m: Balances, root: Hash, block: nat, leaves: seq<Leaf>, vs: seq<Visit>) {
    |vs| <= |leaves| && forall i | 0 <= i < |vs| :: vs[i].leaf == leaves[i] && IsVisit(k, m, root, block, vs[i])
  }

  /** Every update call carries an entry of the balances with a proof to the root. */
  ghost predicate AllCarry(k: Keccak, m: Balances, root: Hash, block: nat, calls: seq<ContractCall>) {
    forall c | c in calls && c.Write? :: CarriesEntry(k, m, root, block, c.submission)
  }

  lemma VisitCarries(k: Keccak, m: Balances, root: Hash, block: nat, v: Visit)
    requires IsVisit(k, m, root, block, v)
    ensures AllCarry(k, m, root, block, v.calls)
  {
    hide CarriesEntry;
  }

  lemma {:induction false} PassCarries(k: Keccak, m: Balances, root: Hash, block: nat, leaves: seq<Leaf>,
                                       vs: seq<Visit>)
    requires IsPass(k, m, root, block, leaves, vs)
    ensures AllCarry(k, m, root, block, CallsOfAll(vs))
  {
    hide CarriesEntry, IsVisit;
    if vs != [] {
      var n := |vs| - 1;
      PassCarries(k, m, root, block, leaves, vs[..n]);
      VisitCarries(k, m, root, block, vs[n]);
    }
  }

  // ----- Accounting -----

  datatype Outcome = CountUpdated | CountSkipped | CountFailed | SetAside | Aborts

  datatype Stats = Stats(updated: nat, skipped: nat, failed: nat) {
    function Sum(): nat { updated + skipped + failed }
  }

  /** The row was not the contract's current one. */
  predicate Stale(reason: Reason) {
    reason.IncorrectClusterState? || reason.ClusterIsLiquidated?
  }

  /** The root is no longer, or not yet, the contract's latest. */
  predicate Outdated(reason: Reason) {
    reason.MustUseLatestRoot? || reason.RootNotFound?
  }

  function FirstPass(v: Visit): Outcome {
    match v.result
    case Updated => CountUpdated
    case NotUpdated => CountSkipped
    case Errored => CountFailed
    case RevertedWith(reason) =>
      if Stale(reason) then SetAside
      else if Outdated(reason) then Aborts
      else CountSkipped
  }

  function SecondPass(v: Visit): Outcome {
    match v.result
    case Updated => CountUpdated
    case NotUpdated => CountSkipped
    case _ => CountFailed
  }

  function Add(s: Stats, o: Outcome): Stats {
    match o
    case CountUpdated => s.(updated := s.updated + 1)
    case CountFailed => s.(failed := s.failed + 1)
    case SetAside => s
    case _ => s.(skipped := s.skipped + 1)
  }

  /** Counters after a first pass. */
  function Tally(vs: seq<Visit>): Stats {
    if vs == [] then Stats(0, 0, 0) else Add(Tally(vs[..|vs|-1]), FirstPass(vs[|vs|-1]))
  }

  /** Counters after a second pass that started from others. */
  function TallyOn(s: Stats, vs: seq<Visit>): Stats {
    if vs == [] then s else Add(TallyOn(s, vs[..|vs|-1]), SecondPass(vs[|vs|-1]))
  }

  /** The leaves set aside for a second pass. */
  function SetAsideBy(vs: seq<Visit>): seq<Leaf> {
    if vs == [] then []
    else SetAsideBy(vs[..|vs|-1]) + if FirstPass(vs[|vs|-1]).SetAside? then [vs[|vs|-1].leaf] else []
  }

  /** Every visited leaf lands in exactly one of updated, skipped, failed and set aside. */
  lemma {:induction false} EachCountedOnce(vs: seq<Visit>)
    ensures Tally(vs).Sum() + |SetAsideBy(vs)| == |vs|
  {
    if vs != [] { EachCountedOnce(vs[..|vs|-1]); }
  }

  lemma {:induction false} EachRetryCounted(s: Stats, vs: seq<Visit>)
    ensures TallyOn(s, vs).Sum() == s.Sum() + |vs|
  {
    if vs != [] { EachRetryCounted(s, vs[..|vs|-1]); }
  }

  predicate Aborted(vs: seq<Visit>) {
    vs != [] && FirstPass(vs[|vs|-1]).Aborts?
  }

  /** A first pass stops at the first abort. */
  predicate StopsAtAbort(vs: seq<Visit>) {
    forall i | 0 <= i < |vs| - 1 :: !FirstPass(vs[i]).Aborts?
  }

  /** The second pass: not needed, or an overlay was asked for. */
  datatype Retry = NoRetry | Asked(overlay: Result<Overlay>, cursor: nat, last: nat)

  /** The two passes of one commit over the tree's leaves. */
  datatype Passes = Passes(leaves: seq<Leaf>, first: seq<Visit>, retry: Retry, second: seq<Visit>)

  /** An abort drops what was set aside; otherwise an overlay is asked for if anything was,
      and the second pass finds its rows there and nowhere else. */
  predicate IsPasses(p: Passes) {
    && |p.first| <= |p.leaves| && StopsAtAbort(p.first)
    && (p.retry.Asked? <==> !Aborted(p.first) && SetAsideBy(p.first) != [])
    && |p.second| <= |SetAsideBy(p.first)|
    && (p.second != [] ==> p.retry.Asked? && p.retry.overlay.Ok?)
    && forall i | 0 <= i < |p.second| ::
         p.second[i].found == Ok(RowIn(p.retry.overlay.value, p.second[i].leaf.clusterID))
  }

  predicate NoOverlay(p: Passes) {
    p.retry.Asked? && p.retry.overlay.Err?
  }

  /** Nothing was cut short by a context that ended. */
  predicate Complete(p: Passes) {
    || Aborted(p.first)
    || (|p.first| == |p.leaves| && (p.retry.NoRetry? || NoOverlay(p) || |p.second| == |SetAsideBy(p.first)|))
  }

  /** The stats of the two passes: a failed overlay fails every leaf set aside. */
  function StatsOf(p: Passes): Stats {
    var s := TallyOn(Tally(p.first), p.second);
    if NoOverlay(p) then s.(failed := s.failed + |SetAsideBy(p.first)|) else s
  }

  /** The counters never exceed the number of leaves, and they reach it exactly when every
      leaf was visited and none that was set aside was dropped by an abort or left over by a
      cancelled second pass. */
  lemma CountersExactly(p: Passes)
    requires IsPasses(p)
    ensures StatsOf(p).Sum() <= |p.leaves|
    ensures StatsOf(p).Sum() == |p.leaves| <==>
      |p.first| == |p.leaves| && (NoOverlay(p) || |p.second| == |SetAsideBy(p.first)|)
  {
    EachCountedOnce(p.first);
    EachRetryCounted(Tally(p.first), p.second);
  }

  /** For a row the oracle wrote, one leaf for every stored balance. */
  lemma {:induction false} OneLeafPerBalance(bs: seq<ClusterBalance>)
    requires Distinct(MapSeq(bs, IDOf))
    ensures |BalancesOf(bs)| == |bs|
  {
    if bs != [] {
      var n := |bs| - 1;
      var m, c := BalancesOf(bs[..n]), bs[n].clusterID;
      assert MapSeq(bs[..n], IDOf) == MapSeq(bs, IDOf)[..n];
      OneLeafPerBalance(bs[..n]);
      if c in m {
        BalancesLookup(bs[..n], c, m[c]);
      }
    }
  }

  // ----- What becomes of every entry -----

  /** All requests of the two passes. */
  function RequestsOf(p: Passes): seq<ContractCall> {
    CallsOfAll(p.first) + CallsOfAll(p.second)
  }

  function IDsOf(leaves: seq<Leaf>): seq<Hash> {
    MapSeq(leaves, (l: Leaf) => l.clusterID)
  }

  /** The passes of a commit over its stored balances. */
  ghost predicate IsProcessed(k: Keccak, row: CommitRow, p: Passes) {
    && (if row.balances == [] then p.leaves == [] else LeavesFor(k, BalancesOf(row.balances), p.leaves))
    && IsPass(k, BalancesOf(row.balances), row.merkleRoot, row.referenceBlock, p.leaves, p.first)
    && IsPass(k, BalancesOf(row.balances), row.merkleRoot, row.referenceBlock, SetAsideBy(p.first), p.second)
    && IsPasses(p)
  }

  /** The last visit of its leaf. */
  predicate IsFinal(p: Passes, v: Visit) {
    (v in p.first && (!FirstPass(v).SetAside? || NoOverlay(p))) || v in p.second
  }

  /** The entry was submitted with a proof and the transaction succeeded. */
  predicate WasUpdated(k: Keccak, m: Balances, root: Hash, block: nat, v: Visit) {
    |v.calls| == 2 && v.calls[1].Write? && v.calls[1].reply.Answered?
      && CarriesEntry(k, m, root, block, v.calls[1].submission)
      && SubmittedID(k, v.calls[1].submission) == v.leaf.clusterID
  }

  /** The contract said that it already has the entry's balance. */
  predicate WasEqual(m: Balances, v: Visit) {
    |v.calls| == 1 && v.calls[0].Read? && v.leaf.clusterID in m && v.calls[0].balance == Answered(m[v.leaf.clusterID])
  }

  /** A request was reverted, for the reason reported. */
  predicate WasReverted(v: Visit) {
    v.calls != [] && v.result.RevertedWith? &&
      match v.calls[|v.calls|-1]
      case Read(_, balance) => balance == Reverts(v.result.reason)
      case Write(_, reply) => reply == Reverts(v.result.reason)
  }

  /** The look-up or a request failed. */
  predicate HadFailure(v: Visit) {
    v.result.Errored? && (v.found.Err? || (v.calls != [] &&
      match v.calls[|v.calls|-1]
      case Read(_, balance) => balance.Fails?
      case Write(_, reply) => reply.Fails?))
  }

  lemma VisitExplained(k: Keccak, m: Balances, root: Hash, block: nat, v: Visit)
    requires IsVisit(k, m, root, block, v)
    ensures WasUpdated(k, m, root, block, v) || WasEqual(m, v) || v.found == Ok(None) || WasReverted(v) || HadFailure(v)
    ensures v.result.Updated? <==> WasUpdated(k, m, root, block, v)
  {
    hide CarriesEntry, RowKeyed, SubmittedID;
  }

  /** What the two passes are for: unless they are aborted or cancelled, every entry of the
      committed balances has a final visit, in which it was submitted with a proof, found
      equal, found without a row, reverted for a reason the contract gave, or met a failure. */
  lemma EveryEntryHandled(k: Keccak, row: CommitRow, p: Passes, id: Hash) returns (v: Visit)
    requires IsProcessed(k, row, p) && Complete(p) && !Aborted(p.first)
    requires id in BalancesOf(row.balances)
    ensures IsFinal(p, v) && v.leaf.clusterID == id && v.leaf.effectiveBalance == BalancesOf(row.balances)[id]
    ensures var m := BalancesOf(row.balances);
      || WasUpdated(k, m, row.merkleRoot, row.referenceBlock, v) || WasEqual(m, v) || v.found == Ok(None)
      || WasReverted(v) || HadFailure(v)
  {
    hide IsVisit, CarriesEntry, WasUpdated, WasEqual, WasReverted, HadFailure, FirstPass;
    var m := BalancesOf(row.balances);
    var leaf := Leaf(id, m[id], HashLeaf(k, id, m[id]));
    assert IsLeafOf(k, m, leaf);
    var i :| 0 <= i < |p.leaves| && p.leaves[i] == leaf;
    v := p.first[i];
    assert IsVisit(k, m, row.merkleRoot, row.referenceBlock, v);
    if FirstPass(v).SetAside? && !NoOverlay(p) {
      var j := SetAsideHas(p.first, i);
      v := p.second[j];
      assert IsVisit(k, m, row.merkleRoot, row.referenceBlock, v);
    }
    VisitExplained(k, m, row.merkleRoot, row.referenceBlock, v);
  }

  lemma {:induction false} SetAsideHas(vs: seq<Visit>, i: nat) returns (j: nat)
    requires i < |vs| && FirstPass(vs[i]).SetAside?
    ensures j < |SetAsideBy(vs)| && SetAsideBy(vs)[j] == vs[i].leaf
  {
    var n := |vs| - 1;
    if i < n {
      j := SetAsideHas(vs[..n], i);
    } else {
      j := |SetAsideBy(vs)| - 1;
    }
  }

  // ----- Who is retried, and what the counters count -----

  /** The first visit ended in a revert that says the row was not the contract's. */
  predicate EndsStale(v: Visit) {
    v.result == RevertedWith(IncorrectClusterState) || v.result == RevertedWith(ClusterIsLiquidated)
  }

  /** It ended in a revert that says the root is not, or no longer, the contract's latest. */
  predicate EndsOutdated(v: Visit) {
    v.result == RevertedWith(MustUseLatestRoot) || v.result == RevertedWith(RootNotFound)
  }

  lemma EndsExactly(v: Visit)
    ensures FirstPass(v).SetAside? <==> EndsStale(v)
    ensures FirstPass(v).Aborts? <==> EndsOutdated(v)
  {
  }

  /** Which reverts lead to a second visit. One that outdates the root is the end: it is the
      last first visit, no overlay is asked for and nothing is visited again. Otherwise an
      overlay is asked for exactly if some visit ended stale, and second visits go to leaves
      whose first one did, on the overlay's rows. */
  lemma RetriesExactly(p: Passes)
    requires IsPasses(p)
    ensures forall i | 0 <= i < |p.first| && EndsOutdated(p.first[i]) ::
      i == |p.first| - 1 && p.retry.NoRetry? && p.second == []
    ensures p.retry.Asked? <==>
      (exists v :: v in p.first && EndsStale(v)) && !(exists v :: v in p.first && EndsOutdated(v))
    ensures forall w | w in p.second ::
      && p.retry.Asked? && p.retry.overlay.Ok?
      && w.found == Ok(RowIn(p.retry.overlay.value, w.leaf.clusterID))
  {
    hide FirstPass, EndsStale, EndsOutdated;
    forall v: Visit ensures (FirstPass(v).SetAside? <==> EndsStale(v)) && (FirstPass(v).Aborts? <==> EndsOutdated(v)) {
      EndsExactly(v);
    }
    NoneSetAside(p.first);
  }

  lemma {:induction false} NoneSetAside(vs: seq<Visit>)
    ensures SetAsideBy(vs) == [] <==> forall v | v in vs :: !FirstPass(v).SetAside?
  {
    if vs != [] {
      var n := |vs| - 1;
      NoneSetAside(vs[..n]);
      assert vs == vs[..n] + [vs[n]];
    }
  }

  /** A leaf whose first visit ended stale, the pass not being aborted, has exactly one second
      visit if an overlay came and nothing was cut short; no other leaf has one. */
  lemma RetriedOnce(k: Keccak, row: CommitRow, p: Passes, v: Visit)
    requires IsProcessed(k, row, p) && v in p.first
    ensures !EndsStale(v) ==> forall w | w in p.second :: w.leaf != v.leaf
    ensures forall i, j | 0 <= i < j < |p.second| :: p.second[i].leaf != p.second[j].leaf
    ensures EndsStale(v) && !(exists u :: u in p.first && EndsOutdated(u)) ==>
      p.retry.Asked? && (p.retry.overlay.Ok? && Complete(p) ==> exists w :: w in p.second && w.leaf == v.leaf)
  {
    hide EndsStale, EndsOutdated, FirstPass, IsVisit, Complete;
    forall u: Visit ensures (FirstPass(u).SetAside? <==> EndsStale(u)) && (FirstPass(u).Aborts? <==> EndsOutdated(u)) {
      EndsExactly(u);
    }
    RetriesExactly(p);
    FirstAreDistinct(k, row, p);
    SetAsideDistinct(p.first);
    var i :| 0 <= i < |p.first| && p.first[i] == v;
    if EndsStale(v) {
      var j := SetAsideHas(p.first, i);
      if Complete(p) { CompleteSecond(p); }
      if j < |p.second| { assert p.second[j].leaf == v.leaf; }
    } else {
      forall w | w in p.second ensures w.leaf != v.leaf {
        var j :| 0 <= j < |p.second| && p.second[j] == w;
        var m := SetAsideFrom(p.first, j);
      }
    }
  }

  lemma CompleteSecond(p: Passes)
    requires Complete(p)
    ensures Aborted(p.first) || p.retry.NoRetry? || NoOverlay(p) || |p.second| == |SetAsideBy(p.first)|
  {
  }

  lemma FirstAreDistinct(k: Keccak, row: CommitRow, p: Passes)
    requires IsProcessed(k, row, p)
    ensures forall i, j | 0 <= i < j < |p.first| :: p.first[i].leaf != p.first[j].leaf
  {
    hide IsVisit, IsPasses;
  }

  /** Each leaf set aside is that of a visit that ended so. */
  lemma {:induction false} SetAsideFrom(vs: seq<Visit>, j: nat) returns (i: nat)
    requires j < |SetAsideBy(vs)|
    ensures i < |vs| && FirstPass(vs[i]).SetAside? && vs[i].leaf == SetAsideBy(vs)[j]
  {
    var n := |vs| - 1;
    if j < |SetAsideBy(vs[..n])| {
      i := SetAsideFrom(vs[..n], j);
    } else {
      i := n;
    }
  }

  lemma {:induction false} SetAsideDistinct(vs: seq<Visit>)
    requires forall i, j | 0 <= i < j < |vs| :: vs[i].leaf != vs[j].leaf
    ensures Distinct(SetAsideBy(vs))
  {
    hide FirstPass;
    if vs != [] {
      var n := |vs| - 1;
      SetAsideDistinct(vs[..n]);
      forall j | 0 <= j < |SetAsideBy(vs[..n])| ensures SetAsideBy(vs[..n])[j] != vs[n].leaf {
        var i := SetAsideFrom(vs[..n], j);
      }
    }
  }

  /** The visits that ended in some way. */
  function Which(vs: seq<Visit>, ends: Visit -> bool): set<nat> {
    set i: nat | i < |vs| && ends(vs[i])
  }

  lemma OneMoreWhich(vs: seq<Visit>, v: Visit, ends: Visit -> bool)
    ensures |Which(vs + [v], ends)| == |Which(vs, ends)| + if ends(v) then 1 else 0
  {
    assert Which(vs + [v], ends) == Which(vs, ends) + if ends(v) then {|vs|} else {};
  }

  predicate WasUpdate(v: Visit) { v.result.Updated? }

  predicate WasNone(v: Visit) { v.result.NotUpdated? }

  /** Skipped in the first pass: nothing to do, or a revert that is not for a stale row. */
  predicate WasPassedOver(v: Visit) {
    || v.result.NotUpdated?
    || (v.result.RevertedWith? && v.result.reason in {MustUseLatestRoot, RootNotFound, OtherReason})
  }

  predicate WasError(v: Visit) { v.result.Errored? }

  predicate WasErrorOrRevert(v: Visit) { v.result.Errored? || v.result.RevertedWith? }

  lemma {:induction false} TallyExactly(vs: seq<Visit>)
    ensures Tally(vs) == Stats(|Which(vs, WasUpdate)|, |Which(vs, WasPassedOver)|, |Which(vs, WasError)|)
    ensures |SetAsideBy(vs)| == |Which(vs, EndsStale)|
  {
    if vs != [] {
      var n := |vs| - 1;
      TallyExactly(vs[..n]);
      assert vs == vs[..n] + [vs[n]];
      OneMoreWhich(vs[..n], vs[n], WasUpdate);
      OneMoreWhich(vs[..n], vs[n], WasPassedOver);
      OneMoreWhich(vs[..n], vs[n], WasError);
      OneMoreWhich(vs[..n], vs[n], EndsStale);
    }
  }

  lemma {:induction false} SecondTallyExactly(s: Stats, vs: seq<Visit>)
    ensures TallyOn(s, vs) == Stats(s.updated + |Which(vs, WasUpdate)|, s.skipped + |Which(vs, WasNone)|,
                                    s.failed + |Which(vs, WasErrorOrRevert)|)
  {
    if vs != [] {
      var n := |vs| - 1;
      SecondTallyExactly(s, vs[..n]);
      assert vs == vs[..n] + [vs[n]];
      OneMoreWhich(vs[..n], vs[n], WasUpdate);
      OneMoreWhich(vs[..n], vs[n], WasNone);
      OneMoreWhich(vs[..n], vs[n], WasErrorOrRevert);
    }
  }

  /** What the counters count: updated the visits of either pass whose update went through;
      skipped the first visits with nothing to do or a revert that is not for a stale row, and
      the second ones with nothing to do; failed the first visits that met an error, the second
      ones that met one or were reverted, and all the stale ones if no overlay came. */
  lemma StatsExactly(p: Passes)
    ensures StatsOf(p).updated == |Which(p.first, WasUpdate)| + |Which(p.second, WasUpdate)|
    ensures StatsOf(p).skipped == |Which(p.first, WasPassedOver)| + |Which(p.second, WasNone)|
    ensures StatsOf(p).failed == |Which(p.first, WasError)| + |Which(p.second, WasErrorOrRevert)|
      + if p.retry.Asked? && p.retry.overlay.Err? then |Which(p.first, EndsStale)| else 0
  {
    TallyExactly(p.first);
    SecondTallyExactly(Tally(p.first), p.second);
  }

  // ----- Where the submitted rows come from -----

  /** Every row found is that of its cluster's last event up to a block in the range. */
  ghost predicate AllFromLast(k: Keccak, chain: seq<Log>, start: nat, lo: nat, hi: nat, vs: seq<Visit>) {
    forall v | v in vs && v.found.Ok? && v.found.value.Some? ::
      LastWithin(k, chain, start, lo, hi, v.leaf.clusterID, v.found.value.value)
  }

  ghost predicate LastWithin(k: Keccak, chain: seq<Log>, start: nat, lo: nat, hi: nat, id: Hash, row: ClusterRow) {
    exists at: nat :: lo <= at <= hi && RowFromLast(k, chain, start, at, id, row)
  }

  /** One more visit, the database having moved on. */
  lemma FromLastStep(k: Keccak, chain: seq<Log>, start: nat, lo: nat, hi: nat, hi': nat, vs: seq<Visit>, v: Visit)
    requires AllFromLast(k, chain, start, lo, hi, vs) && hi <= hi'
    ensures AllFromLast(k, chain, start, lo, hi', vs)
    ensures (v.found.Ok? && v.found.value.Some? ==>
      LastWithin(k, chain, start, lo, hi', v.leaf.clusterID, v.found.value.value)) ==>
      AllFromLast(k, chain, start, lo, hi', vs + [v])
  {
    hide RowFromLast;
  }

  /** So the cluster snapshot of every update call of a pass carries, field by field, the last
      event of its cluster up to some block of the range. */
  lemma {:induction false} SubmittedFromLast(k: Keccak, chain: seq<Log>, start: nat, lo: nat, hi: nat, m: Balances,
                                             root: Hash, block: nat, leaves: seq<Leaf>, vs: seq<Visit>)
    requires IsPass(k, m, root, block, leaves, vs) && AllFromLast(k, chain, start, lo, hi, vs)
    ensures forall c | c in CallsOfAll(vs) && c.Write? ::
      LastWithin(k, chain, start, lo, hi, SubmittedID(k, c.submission), c.submission.cluster)
  {
    hide LastWithin, IsVisit, SubmittedID;
    if vs != [] {
      var n := |vs| - 1;
      SubmittedFromLast(k, chain, start, lo, hi, m, root, block, leaves, vs[..n]);
      assert vs[n] in vs;
      VisitFromLast(k, chain, start, lo, hi, m, root, block, vs[n]);
    }
  }

  lemma VisitFromLast(k: Keccak, chain: seq<Log>, start: nat, lo: nat, hi: nat, m: Balances, root: Hash, block: nat,
                      v: Visit)
    requires IsVisit(k, m, root, block, v)
    requires v.found.Ok? && v.found.value.Some? ==>
      LastWithin(k, chain, start, lo, hi, v.leaf.clusterID, v.found.value.value)
    ensures forall c | c in v.calls && c.Write? ::
      LastWithin(k, chain, start, lo, hi, SubmittedID(k, c.submission), c.submission.cluster)
  {
    hide LastWithin, CarriesEntry, SubmittedID;
  }

  // ----- Where the submitted figures come from -----

  /** The figure is that of the cluster's validators that are active by the events up to a
      block, by the balances a beacon node told; the cluster has such a validator. */
  ghost predicate IsFigure(k: Keccak, chain: seq<Log>, start: nat, last: nat, beacon: Beacon, id: Hash, figure: u32) {
    forall active: set<Validator> | forall v :: v in active <==> ActiveIn(k, Slice(chain, start + 1, last), v) ::
      (exists v :: v in active && v.0 == id) && figure == EffectiveBalance(Enumerate(active), beacon, id)
  }

  /** Every update call for a row from events carries its block and the figure of the cluster's
      validators active by these events. */
  lemma UpdateFromEvents(k: Keccak, chain: seq<Log>, start: nat, last: nat, beacon: Beacon, row: CommitRow, p: Passes,
                         c: ContractCall)
    requires FromEvents(k, chain, start, row, last, beacon) && IsProcessed(k, row, p)
    requires c in RequestsOf(p) && c.Write?
    ensures c.submission.blockNum == row.referenceBlock
    ensures IsFigure(k, chain, start, last, beacon, SubmittedID(k, c.submission), c.submission.effectiveBalance)
  {
    hide IsFigure, SubmittedID, IsProcessed, CarriesEntry, BalancesOf, FromEvents, RequestsOf;
    BothCarry(k, row, p);
    assert CarriesEntry(k, BalancesOf(row.balances), row.merkleRoot, row.referenceBlock, c.submission);
    EntryIsFigure(k, chain, start, last, beacon, row, c.submission);
  }

  lemma BothCarry(k: Keccak, row: CommitRow, p: Passes)
    requires IsProcessed(k, row, p)
    ensures AllCarry(k, BalancesOf(row.balances), row.merkleRoot, row.referenceBlock, RequestsOf(p))
  {
    hide CarriesEntry, IsPass, BalancesOf, SetAsideBy, CallsOfAll, LeavesFor, IsPasses;
    PassCarries(k, BalancesOf(row.balances), row.merkleRoot, row.referenceBlock, p.leaves, p.first);
    PassCarries(k, BalancesOf(row.balances), row.merkleRoot, row.referenceBlock, SetAsideBy(p.first), p.second);
  }

  lemma EntryIsFigure(k: Keccak, chain: seq<Log>, start: nat, last: nat, beacon: Beacon, row: CommitRow, s: Submission)
    requires FromEvents(k, chain, start, row, last, beacon)
    requires CarriesEntry(k, BalancesOf(row.balances), row.merkleRoot, row.referenceBlock, s)
    ensures s.blockNum == row.referenceBlock
    ensures IsFigure(k, chain, start, last, beacon, SubmittedID(k, s), s.effectiveBalance)
  {
    hide BalancesOf, ActiveIn, RowRebuilds, Fold, HashLeaf, Depth, ClusterIDOf, EffectiveBalance, Slice;
    forall active: set<Validator> | forall v :: v in active <==> ActiveIn(k, Slice(chain, start + 1, last), v)
      ensures (exists v :: v in active && v.0 == SubmittedID(k, s))
      ensures s.effectiveBalance == EffectiveBalance(Enumerate(active), beacon, SubmittedID(k, s)) {
      assert BalancesOf(row.balances) == ActiveBalances(active, beacon);
      assert SubmittedID(k, s) in ActiveBalances(active, beacon);
    }
  }
}
