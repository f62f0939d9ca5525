/** The difference between two commits' balance lists (api/handlers.go:239-279). */
module Diff {
  import opened Bytes
  import opened Order
  import opened Merkle
  import opened Storage
  import opened Aggregate

  datatype Change = Change(clusterID: Hash, oldBalance: u32, newBalance: u32)

  datatype CommitDiff = CommitDiff(previousEpoch: nat, changed: seq<Change>, added: seq<ClusterBalance>,
    removed: seq<ClusterBalance>)

  // ----- What a difference is -----

  predicate Changes(o: Balances, c: Balances, x: Change) {
    && x.clusterID in o && o[x.clusterID] == x.oldBalance
    && x.clusterID in c && c[x.clusterID] == x.newBalance
    && x.oldBalance != x.newBalance
  }

  /** b is an entry of m for a cluster that other lacks. */
  predicate OnlyIn(m: Balances, other: Balances, b: ClusterBalance) {
    b.clusterID in m && m[b.clusterID] == b.effectiveBalance && b.clusterID !in other
  }

  ghost predicate IsChanged(o: Balances, c: Balances, xs: seq<Change>) {
    Distinct(xs) && forall x :: x in xs <==> Changes(o, c, x)
  }

  ghost predicate IsOnly(m: Balances, other: Balances, bs: seq<ClusterBalance>) {
    Distinct(bs) && forall b :: b in bs <==> OnlyIn(m, other, b)
  }

  /** Exactly the entries that changed, came and went, each once. */
  ghost predicate IsDiff(o: Balances, c: Balances, d: CommitDiff) {
    IsChanged(o, c, d.changed) && IsOnly(c, o, d.added) && IsOnly(o, c, d.removed)
  }

  // ----- Applying one -----

  function Ids(bs: seq<ClusterBalance>): set<Hash> {
    set b | b in bs :: b.clusterID
  }

  function ChangedIds(xs: seq<Change>): set<Hash> {
    set x | x in xs :: x.clusterID
  }

  function WithAll(m: Balances, bs: seq<ClusterBalance>): Balances {
    if bs == [] then m else WithAll(m, bs[..|bs|-1])[bs[|bs|-1].clusterID := bs[|bs|-1].effectiveBalance]
  }

  function WithChanges(m: Balances, xs: seq<Change>): Balances {
    if xs == [] then m else WithChanges(m, xs[..|xs|-1])[xs[|xs|-1].clusterID := xs[|xs|-1].newBalance]
  }

  /** Drop what was removed, then write what changed and what was added. */
  function Patch(m: Balances, d: CommitDiff): Balances {
    WithAll(WithChanges(m - Ids(d.removed), d.changed), d.added)
  }

  function Touched(d: CommitDiff): set<Hash> {
    ChangedIds(d.changed) + Ids(d.added) + Ids(d.removed)
  }

  lemma WithAllStep(m: Balances, bs: seq<ClusterBalance>, b: ClusterBalance)
    ensures WithAll(m, bs + [b]) == WithAll(m, bs)[b.clusterID := b.effectiveBalance]
  {
    assert (bs + [b])[..|bs|] == bs;
  }

  lemma WithChangesStep(m: Balances, xs: seq<Change>, x: Change)
    ensures WithChanges(m, xs + [x]) == WithChanges(m, xs)[x.clusterID := x.newBalance]
  {
    assert (xs + [x])[..|xs|] == xs;
  }

  lemma {:induction false} WithAllElsewhere(m: Balances, bs: seq<ClusterBalance>, id: Hash)
    requires id !in Ids(bs)
    ensures id in WithAll(m, bs) <==> id in m
    ensures id in m ==> WithAll(m, bs)[id] == m[id]
  {
    if bs != [] {
      assert bs[|bs|-1] in bs;
      WithAllElsewhere(m, bs[..|bs|-1], id);
    }
  }

  lemma {:induction false} WithChangesElsewhere(m: Balances, xs: seq<Change>, id: Hash)
    requires id !in ChangedIds(xs)
    ensures id in WithChanges(m, xs) <==> id in m
    ensures id in m ==> WithChanges(m, xs)[id] == m[id]
  {
    if xs != [] {
      assert xs[|xs|-1] in xs;
      WithChangesElsewhere(m, xs[..|xs|-1], id);
    }
  }

  lemma {:induction false} WithAllThere(m: Balances, bs: seq<ClusterBalance>, c: Balances, id: Hash)
    requires forall b | b in bs :: b.clusterID in c && c[b.clusterID] == b.effectiveBalance
    requires id in Ids(bs)
    ensures id in WithAll(m, bs) && WithAll(m, bs)[id] == c[id]
  {
    var n := |bs| - 1;
    assert bs == bs[..n] + [bs[n]];
    if bs[n].clusterID != id { WithAllThere(m, bs[..n], c, id); }
  }

  lemma {:induction false} WithChangesThere(m: Balances, xs: seq<Change>, c: Balances, id: Hash)
    requires forall x | x in xs :: x.clusterID in c && c[x.clusterID] == x.newBalance
    requires id in ChangedIds(xs)
    ensures id in WithChanges(m, xs) && WithChanges(m, xs)[id] == c[id]
  {
    var n := |xs| - 1;
    assert xs == xs[..n] + [xs[n]];
    if xs[n].clusterID != id { WithChangesThere(m, xs[..n], c, id); }
  }

  lemma IdOnlyIn(m: Balances, other: Balances, bs: seq<ClusterBalance>, id: Hash)
    requires IsOnly(m, other, bs)
    ensures id in Ids(bs) <==> id in m && id !in other
  {
    if id in m { assert ClusterBalance(id, m[id]) in bs <==> OnlyIn(m, other, ClusterBalance(id, m[id])); }
  }

  lemma IdChanged(o: Balances, c: Balances, xs: seq<Change>, id: Hash)
    requires IsChanged(o, c, xs)
    ensures id in ChangedIds(xs) <==> id in o && id in c && o[id] != c[id]
  {
    if id in o && id in c { assert Change(id, o[id], c[id]) in xs <==> Changes(o, c, Change(id, o[id], c[id])); }
  }

  /** A difference turns the old balances into the current ones. */
  lemma PatchIsExact(o: Balances, c: Balances, d: CommitDiff)
    requires IsDiff(o, c, d)
    ensures Patch(o, d) == c
  {
    var kept := o - Ids(d.removed);
    var changed := WithChanges(kept, d.changed);
    forall id ensures (id in Patch(o, d) <==> id in c) && (id in c ==> Patch(o, d)[id] == c[id]) {
      IdOnlyIn(o, c, d.removed, id);
      IdOnlyIn(c, o, d.added, id);
      IdChanged(o, c, d.changed, id);
      if id in Ids(d.added) {
        WithAllThere(changed, d.added, c, id);
      } else {
        WithAllElsewhere(changed, d.added, id);
        if id in ChangedIds(d.changed) {
          WithChangesThere(kept, d.changed, c, id);
        } else {
          WithChangesElsewhere(kept, d.changed, id);
        }
      }
    }
  }

  /** No cluster is listed under two headings, and any other list of changes with the same
      effect mentions every cluster this one does. */
  lemma DiffIsMinimal(o: Balances, c: Balances, d: CommitDiff, e: CommitDiff)
    requires IsDiff(o, c, d)
    ensures ChangedIds(d.changed) !! Ids(d.added) !! Ids(d.removed)
    ensures Patch(o, e) == c ==> Touched(d) <= Touched(e)
  {
    forall id ensures id in Touched(d) <==> !(id in o && id in c && o[id] == c[id]) && (id in o || id in c) {
      IdOnlyIn(o, c, d.removed, id);
      IdOnlyIn(c, o, d.added, id);
      IdChanged(o, c, d.changed, id);
    }
    forall id ensures id !in ChangedIds(d.changed) || id !in Ids(d.added) + Ids(d.removed) {
      IdOnlyIn(o, c, d.removed, id);
      IdOnlyIn(c, o, d.added, id);
      IdChanged(o, c, d.changed, id);
    }
    forall id ensures id !in Ids(d.added) || id !in Ids(d.removed) {
      IdOnlyIn(o, c, d.removed, id);
      IdOnlyIn(c, o, d.added, id);
    }
    if Patch(o, e) == c {
      forall id | id in Touched(d) ensures id in Touched(e) {
        if id !in Touched(e) {
          WithAllElsewhere(WithChanges(o - Ids(e.removed), e.changed), e.added, id);
          WithChangesElsewhere(o - Ids(e.removed), e.changed, id);
        }
      }
    }
  }

  function Swap(x: Change): Change {
    Change(x.clusterID, x.newBalance, x.oldBalance)
  }

  function Undo(d: CommitDiff): CommitDiff {
    d.(changed := MapSeq(d.changed, Swap), added := d.removed, removed := d.added)
  }

  /** Read backwards, a difference leads back. */
  lemma UndoIsDiff(o: Balances, c: Balances, d: CommitDiff)
    requires IsDiff(o, c, d)
    ensures IsDiff(c, o, Undo(d)) && Patch(Patch(o, d), Undo(d)) == o
  {
    var xs := Undo(d).changed;
    forall x: Change ensures x in xs <==> Changes(c, o, x) {
      var y := Swap(x);
      if y in d.changed {
        var i :| 0 <= i < |d.changed| && d.changed[i] == y;
        assert xs[i] == x;
      }
      assert Changes(o, c, y) <==> Changes(c, o, x);
    }
    PatchIsExact(o, c, d);
    PatchIsExact(c, o, Undo(d));
  }

  // ----- Computing it -----

  function ChangedOf(o: Balances, cur: seq<ClusterBalance>): seq<Change> {
    if cur == [] then []
    else
      var b := cur[|cur|-1];
      ChangedOf(o, cur[..|cur|-1]) +
      if b.clusterID in o && o[b.clusterID] != b.effectiveBalance then
        [Change(b.clusterID, o[b.clusterID], b.effectiveBalance)]
      else []
  }

  /** The entries of a list for clusters that are not among the given ones, in order. */
  function Others(bs: seq<ClusterBalance>, ids: set<Hash>): seq<ClusterBalance> {
    if bs == [] then []
    else Others(bs[..|bs|-1], ids) + if bs[|bs|-1].clusterID !in ids then [bs[|bs|-1]] else []
  }

  /** The lists follow the order of the entries they come from. */
  lemma {:induction false} ListsInOrder(o: Balances, a: seq<ClusterBalance>, b: seq<ClusterBalance>, ids: set<Hash>)
    ensures Others(a + b, ids) == Others(a, ids) + Others(b, ids)
    ensures ChangedOf(o, a + b) == ChangedOf(o, a) + ChangedOf(o, b)
  {
    if b == [] {
      assert a + b == a;
    } else {
      var n := |b| - 1;
      ListsInOrder(o, a, b[..n], ids);
      assert (a + b)[..|a + b|-1] == a + b[..n];
    }
  }

  /** The three lists, in the order of the current and the previous balances. */
  function DiffOf(prevEpoch: nat, previous: seq<ClusterBalance>, cur: seq<ClusterBalance>): CommitDiff {
    var o, c := BalancesOf(previous), BalancesOf(cur);
    CommitDiff(prevEpoch, ChangedOf(o, cur), Others(cur, o.Keys), Others(previous, c.Keys))
  }

  predicate IsEmpty(d: CommitDiff) {
    d.changed == [] && d.added == [] && d.removed == []
  }

  /** For any two lists, whatever they name twice. */
  method ComputeDiff(prevEpoch: nat, previous: seq<ClusterBalance>, cur: seq<ClusterBalance>)
    returns (r: Option<CommitDiff>)
    ensures r == if IsEmpty(DiffOf(prevEpoch, previous, cur)) then None else Some(DiffOf(prevEpoch, previous, cur))
    ensures r.Some? ==> r.value.previousEpoch == prevEpoch
  {
    var oldMap: Balances := map[];
    for i := 0 to |previous|
      invariant oldMap == BalancesOf(previous[..i])
    {
      assert previous[..i+1][..i] == previous[..i];
      oldMap := oldMap[previous[i].clusterID := previous[i].effectiveBalance];
    }
    assert previous[..|previous|] == previous && cur[..|cur|] == cur;
    var diff := CommitDiff(prevEpoch, [], [], []);
    var curSet: set<Hash> := {};
    for i := 0 to |cur|
      invariant curSet == BalancesOf(cur[..i]).Keys
      invariant diff == CommitDiff(prevEpoch, ChangedOf(oldMap, cur[..i]), Others(cur[..i], oldMap.Keys), [])
    {
      assert cur[..i+1][..i] == cur[..i];
      var b := cur[i];
      curSet := curSet + {b.clusterID};
      if b.clusterID in oldMap {
        if oldMap[b.clusterID] != b.effectiveBalance {
          diff := diff.(changed := diff.changed + [Change(b.clusterID, oldMap[b.clusterID], b.effectiveBalance)]);
        }
      } else {
        diff := diff.(added := diff.added + [b]);
      }
    }
    for i := 0 to |previous|
      invariant diff ==
        CommitDiff(prevEpoch, ChangedOf(oldMap, cur), Others(cur, oldMap.Keys), Others(previous[..i], curSet))
    {
      assert previous[..i+1][..i] == previous[..i];
      if previous[i].clusterID !in curSet {
        diff := diff.(removed := diff.removed + [previous[i]]);
      }
    }
    r := if |diff.changed| == 0 && |diff.added| == 0 && |diff.removed| == 0 then None else Some(diff);
  }

  // ----- Lists that name every cluster once -----

  lemma NewId(bs: seq<ClusterBalance>)
    requires bs != [] && Distinct(MapSeq(bs, IDOf))
    ensures Distinct(MapSeq(bs[..|bs|-1], IDOf)) && bs[|bs|-1].clusterID !in BalancesOf(bs[..|bs|-1])
  {
    var n := |bs| - 1;
    var m, c := BalancesOf(bs[..n]), bs[n].clusterID;
    assert MapSeq(bs[..n], IDOf) == MapSeq(bs, IDOf)[..n];
    if c in m { BalancesLookup(bs[..n], c, m[c]); }
  }

  lemma {:induction false} OthersAreOnly(bs: seq<ClusterBalance>, other: Balances)
    requires Distinct(MapSeq(bs, IDOf))
    ensures IsOnly(BalancesOf(bs), other, Others(bs, other.Keys))
  {
    if bs != [] {
      var n := |bs| - 1;
      NewId(bs);
      OthersAreOnly(bs[..n], other);
      OnlyStep(BalancesOf(bs[..n]), other, Others(bs[..n], other.Keys), bs[n]);
    }
  }

  lemma {:induction false} ChangedIsChanged(o: Balances, cur: seq<ClusterBalance>)
    requires Distinct(MapSeq(cur, IDOf))
    ensures IsChanged(o, BalancesOf(cur), ChangedOf(o, cur))
  {
    if cur != [] {
      var n := |cur| - 1;
      NewId(cur);
      ChangedIsChanged(o, cur[..n]);
      ChangedStep(o, BalancesOf(cur[..n]), ChangedOf(o, cur[..n]), cur[n]);
    }
  }

  /** If neither list names a cluster twice, the result is the difference. */
  lemma ListsGiveDiff(prevEpoch: nat, previous: seq<ClusterBalance>, cur: seq<ClusterBalance>)
    requires Distinct(MapSeq(previous, IDOf)) && Distinct(MapSeq(cur, IDOf))
    ensures IsDiff(BalancesOf(previous), BalancesOf(cur), DiffOf(prevEpoch, previous, cur))
    ensures NoReversal(BalancesOf(previous), cur)
  {
    ChangedIsChanged(BalancesOf(previous), cur);
    OthersAreOnly(cur, BalancesOf(previous));
    OthersAreOnly(previous, BalancesOf(cur));
    forall i | 0 <= i < |cur| ensures !Reverses(BalancesOf(previous), BalancesOf(cur), cur[i]) {
      BalancesLookup(cur, cur[i].clusterID, cur[i].effectiveBalance);
    }
  }

  // ----- Any lists -----

  /** The list names b's cluster with a new balance here and ends with its old one. */
  predicate Reverses(o: Balances, c: Balances, b: ClusterBalance) {
    && b.clusterID in o && b.clusterID in c
    && b.effectiveBalance != o[b.clusterID] && c[b.clusterID] == o[b.clusterID]
  }

  predicate NoReversal(o: Balances, cur: seq<ClusterBalance>) {
    forall i | 0 <= i < |cur| :: !Reverses(o, BalancesOf(cur), cur[i])
  }

  lemma {:induction false} OtherIds(bs: seq<ClusterBalance>, ids: set<Hash>, id: Hash)
    ensures id in Ids(Others(bs, ids)) <==> id in BalancesOf(bs) && id !in ids
  {
    if bs != [] {
      var n := |bs| - 1;
      OtherIds(bs[..n], ids, id);
      assert Ids(Others(bs, ids))
        == Ids(Others(bs[..n], ids)) + if bs[n].clusterID !in ids then {bs[n].clusterID} else {};
    }
  }

  lemma {:induction false} AddedEndsRight(m: Balances, cur: seq<ClusterBalance>, ids: set<Hash>, id: Hash)
    requires id in BalancesOf(cur) && id !in ids
    ensures id in WithAll(m, Others(cur, ids)) && WithAll(m, Others(cur, ids))[id] == BalancesOf(cur)[id]
  {
    var n := |cur| - 1;
    var rest := Others(cur[..n], ids);
    assert Others(cur, ids) == if cur[n].clusterID !in ids then rest + [cur[n]] else rest;
    WithAllStep(m, rest, cur[n]);
    hide WithAll;
    if cur[n].clusterID != id { AddedEndsRight(m, cur[..n], ids, id); }
  }

  lemma ChangedStepOf(m: Balances, o: Balances, cur: seq<ClusterBalance>)
    requires cur != []
    ensures var n := |cur| - 1; var b := cur[n];
      WithChanges(m, ChangedOf(o, cur)) ==
        if b.clusterID in o && o[b.clusterID] != b.effectiveBalance then
          WithChanges(m, ChangedOf(o, cur[..n]))[b.clusterID := b.effectiveBalance]
        else WithChanges(m, ChangedOf(o, cur[..n]))
  {
    var n := |cur| - 1;
    var b, rest := cur[n], ChangedOf(o, cur[..n]);
    assert rest + [] == rest;
    if b.clusterID in o {
      WithChangesStep(m, rest, Change(b.clusterID, o[b.clusterID], b.effectiveBalance));
    }
  }

  /** Every entry for the cluster has its old balance. */
  predicate KeepsOld(cur: seq<ClusterBalance>, id: Hash, old': u32) {
    cur == [] || (
      var n := |cur| - 1;
      KeepsOld(cur[..n], id, old') && (cur[n].clusterID == id ==> cur[n].effectiveBalance == old'))
  }

  lemma {:induction false} KeepsOldAll(cur: seq<ClusterBalance>, id: Hash, old': u32)
    ensures KeepsOld(cur, id, old') <==>
      forall i | 0 <= i < |cur| && cur[i].clusterID == id :: cur[i].effectiveBalance == old'
  {
    if cur != [] {
      var n := |cur| - 1;
      KeepsOldAll(cur[..n], id, old');
      assert forall i | 0 <= i < n :: cur[..n][i] == cur[i];
    }
  }

  /** What the changes leave for a cluster of both maps: the current balance if that differs
      from the old one; if not, the old one exactly when no entry differed on the way. */
  lemma {:induction false} ChangesEnd(m: Balances, o: Balances, cur: seq<ClusterBalance>, id: Hash)
    requires id in o && id in m && m[id] == o[id]
    ensures var w, c := WithChanges(m, ChangedOf(o, cur)), BalancesOf(cur);
      && id in w
      && (id in c && c[id] != o[id] ==> w[id] == c[id])
      && (w[id] == o[id] <==> KeepsOld(cur, id, o[id]))
  {
    if cur != [] {
      var n := |cur| - 1;
      var b, w, c := cur[n], WithChanges(m, ChangedOf(o, cur[..n])), BalancesOf(cur[..n]);
      ChangedStepOf(m, o, cur);
      ChangesEnd(m, o, cur[..n], id);
      assert BalancesOf(cur) == c[b.clusterID := b.effectiveBalance];
      assert KeepsOld(cur, id, o[id]) <==>
        KeepsOld(cur[..n], id, o[id]) && (b.clusterID == id ==> b.effectiveBalance == o[id]);
      hide WithChanges, ChangedOf, BalancesOf, KeepsOld;
      if b.clusterID == id {
        assert WithChanges(m, ChangedOf(o, cur))
          == if o[id] != b.effectiveBalance then w[id := b.effectiveBalance] else w;
      }
    }
  }

  lemma {:induction false} ChangesElsewhere(m: Balances, o: Balances, cur: seq<ClusterBalance>, id: Hash)
    requires id !in BalancesOf(cur)
    ensures id in WithChanges(m, ChangedOf(o, cur)) <==> id in m
    ensures id in m ==> WithChanges(m, ChangedOf(o, cur))[id] == m[id]
  {
    if cur != [] {
      ChangedStepOf(m, o, cur);
      ChangesElsewhere(m, o, cur[..|cur|-1], id);
    }
  }

  /** For one cluster, patched and current agree exactly if no entry of it is reversed. */
  lemma PatchedAt(prevEpoch: nat, previous: seq<ClusterBalance>, cur: seq<ClusterBalance>, id: Hash)
    ensures var o, c := BalancesOf(previous), BalancesOf(cur);
      var p := Patch(o, DiffOf(prevEpoch, previous, cur));
      && (id in p <==> id in c)
      && (id in c ==>
            (p[id] == c[id] <==> forall i | 0 <= i < |cur| && cur[i].clusterID == id :: !Reverses(o, c, cur[i])))
  {
    var o, c, d := BalancesOf(previous), BalancesOf(cur), DiffOf(prevEpoch, previous, cur);
    var kept := o - Ids(d.removed);
    var changed := WithChanges(kept, d.changed);
    OtherIds(previous, c.Keys, id);
    OtherIds(cur, o.Keys, id);
    if id in c && id !in o {
      AddedEndsRight(changed, cur, o.Keys, id);
    } else {
      WithAllElsewhere(changed, d.added, id);
      if id in c {
        ChangesEnd(kept, o, cur, id);
        KeepsOldAll(cur, id, o[id]);
      } else {
        ChangesElsewhere(kept, o, cur, id);
      }
    }
  }

  /** For any lists, applying the result turns the old balances into the current ones exactly
      if the current list does not name a cluster with a new balance and later with its old
      one. */
  lemma PatchExactly(prevEpoch: nat, previous: seq<ClusterBalance>, cur: seq<ClusterBalance>)
    ensures Patch(BalancesOf(previous), DiffOf(prevEpoch, previous, cur)) == BalancesOf(cur)
      <==> NoReversal(BalancesOf(previous), cur)
  {
    hide DiffOf, Patch, BalancesOf;
    var o, c, p := BalancesOf(previous), BalancesOf(cur), Patch(BalancesOf(previous), DiffOf(prevEpoch, previous, cur));
    forall id ensures (id in p <==> id in c)
      && (id in c ==>
            (p[id] == c[id] <==> forall i | 0 <= i < |cur| && cur[i].clusterID == id :: !Reverses(o, c, cur[i]))) {
      PatchedAt(prevEpoch, previous, cur, id);
    }
    if i :| 0 <= i < |cur| && Reverses(o, c, cur[i]) {
      assert p[cur[i].clusterID] != c[cur[i].clusterID];
    }
  }

  /** Nothing is listed exactly if the maps are equal and the list goes straight there. */
  lemma NothingListedExactly(prevEpoch: nat, previous: seq<ClusterBalance>, cur: seq<ClusterBalance>)
    ensures IsEmpty(DiffOf(prevEpoch, previous, cur)) <==>
      BalancesOf(previous) == BalancesOf(cur) && NoReversal(BalancesOf(previous), cur)
  {
    var o, c, d := BalancesOf(previous), BalancesOf(cur), DiffOf(prevEpoch, previous, cur);
    PatchExactly(prevEpoch, previous, cur);
    if IsEmpty(d) {
      assert Patch(o, d) == o by { assert o - {} == o; }
      forall i | 0 <= i < |cur| ensures !Reverses(o, c, cur[i]) { NoChangeNoReversal(o, cur, i); }
    } else if o == c && NoReversal(o, cur) {
      NothingChanged(o, cur);
      NothingOther(cur, o.Keys);
      NothingOther(previous, c.Keys);
    }
  }

  lemma {:induction false} NoChangeNoReversal(o: Balances, cur: seq<ClusterBalance>, i: nat)
    requires i < |cur| && ChangedOf(o, cur) == []
    ensures cur[i].clusterID in o ==> o[cur[i].clusterID] == cur[i].effectiveBalance
  {
    var n := |cur| - 1;
    if i < n { NoChangeNoReversal(o, cur[..n], i); }
  }

  lemma {:induction false} NothingChanged(o: Balances, cur: seq<ClusterBalance>)
    requires forall i | 0 <= i < |cur| :: cur[i].clusterID in o ==> o[cur[i].clusterID] == cur[i].effectiveBalance
    ensures ChangedOf(o, cur) == []
  {
    if cur != [] {
      assert forall i | 0 <= i < |cur|-1 :: cur[..|cur|-1][i] == cur[i];
      NothingChanged(o, cur[..|cur|-1]);
    }
  }

  lemma {:induction false} NothingOther(bs: seq<ClusterBalance>, ids: set<Hash>)
    requires BalancesOf(bs).Keys <= ids
    ensures Others(bs, ids) == []
  {
    if bs != [] { NothingOther(bs[..|bs|-1], ids); }
  }

  lemma OnlyStep(m: Balances, other: Balances, bs: seq<ClusterBalance>, b: ClusterBalance)
    requires IsOnly(m, other, bs) && b.clusterID !in m
    ensures IsOnly(m[b.clusterID := b.effectiveBalance], other, bs + if b.clusterID !in other then [b] else [])
  {
    assert bs + [] == bs;
    assert b !in bs by { assert !OnlyIn(m, other, b); }
  }

  lemma ChangedStep(o: Balances, c: Balances, changed: seq<Change>, b: ClusterBalance)
    requires IsChanged(o, c, changed) && b.clusterID !in c
    ensures IsChanged(o, c[b.clusterID := b.effectiveBalance],
      changed + if b.clusterID in o && o[b.clusterID] != b.effectiveBalance
                then [Change(b.clusterID, o[b.clusterID], b.effectiveBalance)] else [])
  {
    if b.clusterID in o {
      var x := Change(b.clusterID, o[b.clusterID], b.effectiveBalance);
      assert x !in changed by { assert !Changes(o, c, x); }
    }
    assert changed + [] == changed;
  }
}
