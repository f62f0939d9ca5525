/** Submitting the balances behind a committed root (updater/updater.go). */
module Updater {
  import opened Bytes
  import opened Order
  import opened Merkle
  import opened MerkleProofs
  import opened ClusterId
  import opened Events
  import opened Storage
  import opened Chain
  import opened Execution
  import opened Syncer
  import opened Aggregate
  import opened Settlement
  import opened Visits

  datatype RootCommitted = RootCommitted(blockNum: u64, merkleRoot: Hash)

  // ----- The updater's surroundings -----

  /** A context: once done it stays done. */
  class Context {
    var done: bool

    method Err() returns (r: bool)
      modifies this
      ensures r == done && (old(done) ==> done)
    {
      var now: bool := *;
      done := done || now;
      r := done;
    }
  }

  /** The contract: the effective balance it holds for each cluster, and the requests made
      of it. */
  class Contract {
    const keccak: Keccak
    var effective: map<Hash, u32>
    ghost var log: seq<ContractCall>

    constructor (keccak: Keccak)
      ensures this.keccak == keccak && log == []
    {
      this.keccak, effective, log := keccak, map[], [];
    }

    function Effective(id: Hash): u32
      reads this
    {
      if id in effective then effective[id] else 0
    }

    /** Others may have updated balances since. */
    method GetClusterEffectiveBalance(cluster: ClusterRow) returns (r: Answer<u32>)
      modifies this
      ensures r.Answered? ==> r.value == Effective(ClusterIDOf(keccak, cluster.owner, cluster.operatorIDs))
      ensures log == old(log) + [Read(cluster, r)]
    {
      effective := *;
      r := *;
      if r.Answered? {
        var id := ComputeClusterID(keccak, cluster.owner, cluster.operatorIDs);
        r := Answered(Effective(id));
      }
      log := log + [Read(cluster, r)];
    }

    method UpdateClusterBalance(s: Submission) returns (r: Answer<()>)
      modifies this
      ensures r.Answered? ==> Effective(SubmittedID(keccak, s)) == s.effectiveBalance
      ensures log == old(log) + [Write(s, r)]
    {
      r := *;
      if r.Answered? {
        var id := ComputeClusterID(keccak, s.cluster.owner, s.cluster.operatorIDs);
        effective := effective[id := s.effectiveBalance];
      }
      log := log + [Write(s, r)];
    }
  }

  /** Where the rows come from: finalized state in the database, or a head overlay. */
  datatype Lookup = FromStorage | FromOverlay(overlay: Overlay)

  ghost predicate OverlayRowsKeyed(k: Keccak, overlay: Overlay) {
    forall c | c in overlay :: RowKeyed(k, c, overlay[c])
  }

  // ----- Handling events -----

  /** How the handling of one event ends. */
  datatype Handling =
    | Duplicate | LookupFailed | Stopped | NotFound | RootDiffers
    | Mismatch(row: CommitRow)
    | Completed(row: CommitRow, stats: Stats)

  predicate Found(read: CommitRead) {
    read.answer.Ok? && read.answer.value.Some?
  }

  predicate Missing(read: CommitRead) {
    read.answer == Ok(None)
  }

  /** Some row of the event's block has another root. */
  ghost predicate HasOtherRoot(c: Commits, event: RootCommitted) {
    exists e :: e in c && c[e].referenceBlock == event.blockNum && c[e].merkleRoot != event.merkleRoot
  }

  /** The row's balances give its root, or there are none. */
  ghost predicate GivesRoot(k: Keccak, row: CommitRow) {
    row.balances == [] || RootOfMap(k, BalancesOf(row.balances)) == row.merkleRoot
  }

  /** The ending that the event, the last completed block and the answers of the database
      call for. */
  ghost predicate Ends(k: Keccak, event: RootCommitted, last: nat, lookups: seq<CommitRead>, h: Handling) {
    && (forall r | r in lookups :: r.block == event.blockNum)
    && match h
       case Duplicate => event.blockNum <= last && lookups == []
       case Stopped => event.blockNum > last && |lookups| == 1 && Missing(lookups[0])
       case NotFound => event.blockNum > last && |lookups| == 2 && Missing(lookups[0]) && Missing(lookups[1])
       case LookupFailed => event.blockNum > last && Looked(lookups) && lookups[|lookups|-1].answer.Err?
       case RootDiffers => event.blockNum > last && Looked(lookups) && Found(lookups[|lookups|-1]) &&
         lookups[|lookups|-1].answer.value.value.merkleRoot != event.merkleRoot
       case Mismatch(row) =>
         event.blockNum > last && Looked(lookups) && IsRowFor(event, lookups, row) && !GivesRoot(k, row)
       case Completed(row, _) =>
         event.blockNum > last && Looked(lookups) && IsRowFor(event, lookups, row) && GivesRoot(k, row)
  }

  /** One look-up, or a second one after a first that found nothing. */
  predicate Looked(lookups: seq<CommitRead>) {
    |lookups| == 1 || (|lookups| == 2 && Missing(lookups[0]))
  }

  predicate IsRowFor(event: RootCommitted, lookups: seq<CommitRead>, row: CommitRow)
    requires lookups != []
  {
    && lookups[|lookups|-1].answer == Ok(Some(row))
    && row.merkleRoot == event.merkleRoot && row.referenceBlock == event.blockNum
  }

  /** The ending is no choice: event, last block and answers leave one, its stats apart. */
  lemma OneEnding(k: Keccak, event: RootCommitted, last: nat, lookups: seq<CommitRead>, h: Handling, h': Handling)
    requires Ends(k, event, last, lookups, h) && Ends(k, event, last, lookups, h')
    ensures h == h' || (h.Completed? && h'.Completed? && h.row == h'.row)
  {
    hide GivesRoot;
    if event.blockNum > last {
      assert lookups != [];
      var final := lookups[|lookups|-1].answer;
      assert h.LookupFailed? <==> final.Err?;
      assert h'.LookupFailed? <==> final.Err?;
    }
  }

  /** What each ending says, the other way round: of the block and of the final answer. A look-up
      is repeated exactly after a first one that found nothing, unless the handling stops. */
  lemma EndingExactly(k: Keccak, event: RootCommitted, last: nat, lookups: seq<CommitRead>, h: Handling)
    requires Ends(k, event, last, lookups, h)
    ensures h.Duplicate? <==> event.blockNum <= last
    ensures event.blockNum <= last <==> lookups == []
    ensures forall r | r in lookups :: r.block == event.blockNum
    ensures |lookups| <= 2 && (|lookups| == 2 ==> lookups[0].answer == Ok(None))
    ensures event.blockNum > last ==>
      var final := lookups[|lookups|-1].answer;
      && (h.LookupFailed? <==> final.Err?)
      && (h.Stopped? <==> final == Ok(None) && |lookups| == 1)
      && (h.NotFound? <==> final == Ok(None) && |lookups| == 2)
      && (h.RootDiffers? <==> final.Ok? && final.value.Some? && final.value.value.merkleRoot != event.merkleRoot)
      && (h.Completed? <==>
            && final.Ok? && final.value.Some? && final.value.value.merkleRoot == event.merkleRoot
            && (final.value.value.balances == []
                || RootOfMap(k, BalancesOf(final.value.value.balances)) == event.merkleRoot))
      && (h.Completed? || h.Mismatch? ==> final == Ok(Some(h.row)) && h.row.referenceBlock == event.blockNum)
  {
    hide RootOfMap, BalancesOf;
  }

  /** One event, how its handling ended, and what was read and requested for it. */
  datatype Record = Record(event: RootCommitted, handling: Handling, lookups: seq<CommitRead>,
    calls: seq<ContractCall>, passes: Passes)

  /** A completed event has had its passes, complete unless the context was done; any other
      requests nothing. */
  ghost predicate IsRecord(k: Keccak, last: nat, r: Record, done: bool) {
    && Ends(k, r.event, last, r.lookups, r.handling)
    && if r.handling.Completed? then
         && IsProcessed(k, r.handling.row, r.passes)
         && r.calls == RequestsOf(r.passes) && r.handling.stats == StatsOf(r.passes)
         && (done || Complete(r.passes))
       else r.calls == []
  }

  /** The last completed block after some events. */
  function LastBlock(last: nat, rs: seq<Record>): nat {
    if rs == [] then last
    else if rs[|rs|-1].handling.Completed? then rs[|rs|-1].event.blockNum
    else LastBlock(last, rs[..|rs|-1])
  }

  /** The handling of the first events, one after the other. */
  ghost predicate IsStream(k: Keccak, last: nat, events: seq<RootCommitted>, rs: seq<Record>, done: bool) {
    rs == [] || (
      var n := |rs| - 1;
      && n < |events| && rs[n].event == events[n]
      && IsStream(k, last, events, rs[..n], done) && IsRecord(k, LastBlock(last, rs[..n]), rs[n], done))
  }

  function CallsOfStream(rs: seq<Record>): seq<ContractCall> {
    if rs == [] then [] else CallsOfStream(rs[..|rs|-1]) + rs[|rs|-1].calls
  }

  function ReadsOfStream(rs: seq<Record>): seq<CommitRead> {
    if rs == [] then [] else ReadsOfStream(rs[..|rs|-1]) + rs[|rs|-1].lookups
  }

  /** Every update call leads to the root of a completed event of the stream, for its block. */
  ghost predicate AllBelong(k: Keccak, rs: seq<Record>, calls: seq<ContractCall>) {
    forall c | c in calls && c.Write? :: Belongs(k, rs, c.submission)
  }

  ghost predicate Belongs(k: Keccak, rs: seq<Record>, s: Submission) {
    exists r :: r in rs && r.handling.Completed? && LeadsTo(k, r.event.merkleRoot, r.event.blockNum, s)
  }

  lemma CompletedAbove(k: Keccak, last: nat, r: Record, done: bool)
    requires IsRecord(k, last, r, done) && r.handling.Completed?
    ensures r.event.blockNum > last
  {
  }

  lemma {:induction false} LastBlockRises(k: Keccak, last: nat, events: seq<RootCommitted>, rs: seq<Record>, done: bool)
    requires IsStream(k, last, events, rs, done)
    ensures last <= LastBlock(last, rs)
    ensures rs != [] ==> LastBlock(last, rs[..|rs|-1]) <= LastBlock(last, rs)
  {
    hide IsRecord;
    if rs != [] {
      var n := |rs| - 1;
      LastBlockRises(k, last, events, rs[..n], done);
      if rs[n].handling.Completed? { CompletedAbove(k, LastBlock(last, rs[..n]), rs[n], done); }
    }
  }

  lemma {:induction false} LastBlockAbove(k: Keccak, last: nat, events: seq<RootCommitted>, rs: seq<Record>,
                                          done: bool, i: nat)
    requires IsStream(k, last, events, rs, done) && i < |rs| && rs[i].handling.Completed?
    ensures last < rs[i].event.blockNum <= LastBlock(last, rs)
    decreases |rs|
  {
    hide IsRecord;
    var n := |rs| - 1;
    LastBlockRises(k, last, events, rs, done);
    if i < n {
      LastBlockAbove(k, last, events, rs[..n], done, i);
    } else {
      LastBlockRises(k, last, events, rs[..n], done);
      CompletedAbove(k, LastBlock(last, rs[..n]), rs[n], done);
    }
  }

  /** Blocks are completed in strictly rising order, so none twice. */
  lemma {:induction false} CompletedRise(k: Keccak, last: nat, events: seq<RootCommitted>, rs: seq<Record>,
                                         done: bool, i: nat, j: nat)
    requires IsStream(k, last, events, rs, done) && i < j < |rs|
    requires rs[i].handling.Completed? && rs[j].handling.Completed?
    ensures last < rs[i].event.blockNum < rs[j].event.blockNum
    decreases |rs|
  {
    hide IsRecord;
    var n := |rs| - 1;
    if j < n {
      CompletedRise(k, last, events, rs[..n], done, i, j);
    } else {
      LastBlockAbove(k, last, events, rs[..n], done, i);
      CompletedAbove(k, LastBlock(last, rs[..n]), rs[n], done);
    }
  }

  /** Whatever a stream submits belongs to one of its completed events. */
  lemma {:induction false} StreamBelongs(k: Keccak, last: nat, events: seq<RootCommitted>, rs: seq<Record>, done: bool)
    requires IsStream(k, last, events, rs, done)
    ensures AllBelong(k, rs, CallsOfStream(rs))
  {
    hide LeadsTo, Complete, Ends, IsProcessed;
    if rs != [] {
      var n := |rs| - 1;
      var r := rs[n];
      StreamBelongs(k, last, events, rs[..n], done);
      if r.handling.Completed? { RecordLeads(k, LastBlock(last, rs[..n]), r, done); }
      forall c | c in CallsOfStream(rs) && c.Write? ensures Belongs(k, rs, c.submission) {
        if c in CallsOfStream(rs[..n]) {
          var x :| x in rs[..n] && x.handling.Completed?
            && LeadsTo(k, x.event.merkleRoot, x.event.blockNum, c.submission);
          assert x in rs;
        } else {
          assert c in r.calls && r in rs;
        }
      }
    }
  }

  lemma RecordLeads(k: Keccak, last: nat, r: Record, done: bool)
    requires IsRecord(k, last, r, done) && r.handling.Completed?
    ensures forall c | c in r.calls && c.Write? :: LeadsTo(k, r.event.merkleRoot, r.event.blockNum, c.submission)
  {
    CompletedIs(k, last, r, done);
    BothCarry(k, r.handling.row, r.passes);
    hide LeadsTo, IsRecord, BalancesOf, RequestsOf, IsProcessed;
  }

  lemma CompletedIs(k: Keccak, last: nat, r: Record, done: bool)
    requires IsRecord(k, last, r, done) && r.handling.Completed?
    ensures IsProcessed(k, r.handling.row, r.passes) && r.calls == RequestsOf(r.passes)
    ensures r.handling.row.merkleRoot == r.event.merkleRoot && r.handling.row.referenceBlock == r.event.blockNum
  {
    hide IsProcessed, RequestsOf, Complete, StatsOf, GivesRoot;
  }

  /** The whole way: what is submitted for a row that a run of the oracle added is, for the
      cluster it names and the block of its call, the figure of the validators active by the
      events up to the call's last block and of the balances the beacon node told this call. */
  lemma EventsToUpdates(k: Keccak, chain: seq<Log>, start: nat, w: World, attempts: seq<Attempt>, e: nat,
                        last: nat, r: Record, done: bool) returns (a: Attempt)
    requires AllSound(k, chain, start, attempts) && e in After(w, attempts).commits && e !in w.commits
    requires IsRecord(k, last, r, done) && r.handling.Completed? && r.handling.row == After(w, attempts).commits[e]
    ensures a in attempts && a.target == e && IsRowOf(r.handling.row, a)
    ensures a.cp.blockNum == r.event.blockNum && a.computed.root == r.event.merkleRoot
    ensures forall c | c in r.calls && c.Write? ::
      && c.submission.blockNum == a.cp.blockNum
      && IsFigure(k, chain, start, a.last, BeaconOf(a.asked), SubmittedID(k, c.submission),
                  c.submission.effectiveBalance)
  {
    CompletedIs(k, last, r, done);
    hide After, AllSound, FromEvents, IsFigure, IsRecord, IsProcessed, RequestsOf, SubmittedID, BeaconOf;
    a := RowFromEvents(k, chain, start, w, attempts, e);
    forall c | c in r.calls && c.Write? ensures c.submission.blockNum == a.cp.blockNum
      && IsFigure(k, chain, start, a.last, BeaconOf(a.asked), SubmittedID(k, c.submission),
                  c.submission.effectiveBalance) {
      UpdateFromEvents(k, chain, start, a.last, BeaconOf(a.asked), r.handling.row, r.passes, c);
    }
  }

  class Updater {
    const keccak: Keccak
    const storage: Storage
    const syncer: EventSyncer
    const contract: Contract
    var lastProcessedBlock: nat

    ghost predicate Wired(start: nat)
      reads storage, syncer.client.batchSize
    {
      && syncer.storage == storage && syncer.keccak == keccak && contract.keccak == keccak
      && syncer.client.Valid()
      && Synced(keccak, syncer.client.chain, start, storage.tables)
    }

    /** How many statements and requests have failed. */
    ghost function Faults(): nat
      reads storage, syncer.client
    {
      storage.faults + syncer.client.faults
    }

    constructor (keccak: Keccak, storage: Storage, syncer: EventSyncer, contract: Contract)
      ensures this.keccak == keccak && this.storage == storage && this.syncer == syncer && this.contract == contract
      ensures lastProcessedBlock == 0
    {
      this.keccak, this.storage, this.syncer, this.contract := keccak, storage, syncer, contract;
      lastProcessedBlock := 0;
    }

    /** A row found for an id is that cluster's own: its owner and operators hash to the id. */
    method LookUp(lookup: Lookup, id: Hash, ghost start: nat) returns (r: Result<Option<ClusterRow>>)
      requires Wired(start) && (lookup.FromOverlay? ==> OverlayRowsKeyed(keccak, lookup.overlay))
      modifies storage`tables, storage`faults, storage`clusterReads
      ensures Wired(start) && storage.tables.lastSynced >= old(storage.tables.lastSynced)
      ensures storage.faults >= old(storage.faults)
      ensures r.Ok? ==> r.value == RowIn(Rows(lookup), id)
      ensures r.Ok? && r.value.Some? ==> RowKeyed(keccak, id, r.value.value)
      ensures lookup.FromStorage? && r.Ok? && r.value.Some? ==>
        RowFromLast(keccak, syncer.client.chain, start, storage.tables.lastSynced, id, r.value.value)
      ensures lookup.FromOverlay? ==> r.Ok?
      ensures storage.clusterReads == old(storage.clusterReads)
        + if lookup.FromOverlay? then [] else [ClusterRead(id, r)]
    {
      hide Synced, IsChain, RowFromLast;
      match lookup {
        case FromStorage =>
          syncer.OtherCommits(start);
          r := storage.GetCluster(id);
          SyncedKeys(keccak, syncer.client.chain, start, storage.tables);
          SyncedFromLast(keccak, syncer.client.chain, start, storage.tables, id);
        case FromOverlay(overlay) =>
          r := Ok(RowIn(overlay, id));
      }
    }

    function Rows(lookup: Lookup): map<Hash, ClusterRow>
      reads storage
    {
      if lookup.FromOverlay? then lookup.overlay else storage.tables.clusters
    }

    /** One cluster: look it up, compare the contract's balance, submit if it differs. The
        requests and the result are those of a visit; a success leaves the contract with the
        leaf's balance, and so does every leaf found unchanged. */
    method ProcessCluster(blockNum: nat, leaf: Leaf, tree: Tree, lookup: Lookup, ghost m: Balances, ghost start: nat)
      returns (result: ClusterResult, ghost v: Visit)
      requires Wired(start) && (lookup.FromOverlay? ==> OverlayRowsKeyed(keccak, lookup.overlay))
      requires IsTree(keccak, m, tree) && leaf in tree.leaves
      modifies storage`tables, storage`faults, storage`clusterReads, contract
      ensures Wired(start) && storage.tables.lastSynced >= old(storage.tables.lastSynced)
      ensures storage.faults >= old(storage.faults)
      ensures v.leaf == leaf && v.result == result && IsVisit(keccak, m, tree.root, blockNum, v)
      ensures contract.log == old(contract.log) + v.calls
      ensures v.found.Ok? ==> v.found.value == RowIn(Rows(lookup), leaf.clusterID)
      ensures lookup.FromStorage? && v.found.Ok? && v.found.value.Some? ==>
        RowFromLast(keccak, syncer.client.chain, start, storage.tables.lastSynced, leaf.clusterID, v.found.value.value)
      ensures lookup.FromOverlay? ==> v.found.Ok?
      ensures storage.clusterReads == old(storage.clusterReads)
        + if lookup.FromOverlay? then [] else [ClusterRead(leaf.clusterID, v.found)]
      ensures result.Updated? || (result.NotUpdated? && leaf.clusterID in Rows(lookup)) ==>
        contract.Effective(leaf.clusterID) == leaf.effectiveBalance
    {
      ghost var root := tree.root;
      LeafIsEntry(keccak, m, tree, leaf);
      hide *;
      var found := LookUp(lookup, leaf.clusterID, start);
      if found.Err? || found.value.None? {
        result := if found.Err? then Errored else NotUpdated;
        v := Visit(leaf, found, [], result);
        VisitWithoutRow(keccak, m, root, blockNum, v);
        NoRow(Rows(lookup), leaf.clusterID);
        return;
      }
      var cluster := found.value.value;
      var proof := GetProof(keccak, m, tree, leaf.clusterID);
      var current := contract.GetClusterEffectiveBalance(cluster);
      KeyedRow(keccak, leaf.clusterID, cluster);
      if !current.Answered? || current.value == leaf.effectiveBalance {
        result := if current.Answered? then NotUpdated else FailureOf(current);
        v := Visit(leaf, found, [Read(cluster, current)], result);
        VisitUnsubmitted(keccak, m, root, blockNum, v);
        return;
      }
      var s := Submission(blockNum, cluster, leaf.effectiveBalance, proof.value);
      ghost var asked := contract.log;
      var reply := contract.UpdateClusterBalance(s);
      result := if reply.Answered? then Updated else FailureOf(reply);
      v := Visit(leaf, found, [Read(cluster, current), Write(s, reply)], result);
      VisitSubmitted(keccak, m, root, blockNum, v);
    }

    /** The first pass, over the finalized rows: one visit for each leaf until an abort or
        the end of the context, with the counters and the leaves set aside that the visits
        call for. */
    method ProcessAllClusters(ctx: Context, blockNum: nat, tree: Tree, ghost m: Balances, ghost start: nat)
      returns (stats: Stats, staleLeaves: seq<Leaf>, ghost visits: seq<Visit>)
      requires Wired(start) && IsTree(keccak, m, tree)
      modifies ctx, storage`tables, storage`faults, storage`clusterReads, contract
      ensures Wired(start) && storage.tables.lastSynced >= old(storage.tables.lastSynced)
      ensures storage.faults >= old(storage.faults)
      ensures IsPass(keccak, m, tree.root, blockNum, tree.leaves, visits) && StopsAtAbort(visits)
      ensures contract.log == old(contract.log) + CallsOfAll(visits)
      ensures storage.clusterReads == old(storage.clusterReads) + ReadsOfAll(visits)
      ensures AllFromLast(keccak, syncer.client.chain, start, old(storage.tables.lastSynced), storage.tables.lastSynced,
                          visits)
      ensures stats == Tally(visits) && staleLeaves == if Aborted(visits) then [] else SetAsideBy(visits)
      ensures |visits| < |tree.leaves| ==> Aborted(visits) || ctx.done
      ensures old(ctx.done) ==> ctx.done
    {
      stats, staleLeaves, visits := Stats(0, 0, 0), [], [];
      ghost var log, had := contract.log, storage.clusterReads;
      ghost var cursor, faults := storage.tables.lastSynced, storage.faults;
      hide Synced, IsChain, Wired, IsTree, IsVisit, FirstPass, LastWithin, RowFromLast, Rows, RowIn, LeavesFor;
      for i := 0 to |tree.leaves|
        invariant Wired(start) && storage.tables.lastSynced >= cursor && storage.faults >= faults
        invariant (old(ctx.done) ==> ctx.done)
        invariant |visits| == i && IsPass(keccak, m, tree.root, blockNum, tree.leaves, visits)
        invariant contract.log == log + CallsOfAll(visits) && storage.clusterReads == had + ReadsOfAll(visits)
        invariant AllFromLast(keccak, syncer.client.chain, start, cursor, storage.tables.lastSynced, visits)
        invariant StopsAtAbort(visits) && !Aborted(visits)
        invariant stats == Tally(visits) && staleLeaves == SetAsideBy(visits)
      {
        hide *;
        var done := ctx.Err();
        if done { break; }
        var leaf := tree.leaves[i];
        var result;
        ghost var v;
        ghost var at := storage.tables.lastSynced;
        result, v := ProcessCluster(blockNum, leaf, tree, FromStorage, m, start);
        StoredStep(start, cursor, at, visits, v);
        PassStep(keccak, m, tree.root, blockNum, tree.leaves, visits, log, had, v);
        FirstStep(visits, v);
        visits := visits + [v];
        match result {
          case Updated => stats := stats.(updated := stats.updated + 1);
          case NotUpdated => stats := stats.(skipped := stats.skipped + 1);
          case Errored => stats := stats.(failed := stats.failed + 1);
          case RevertedWith(reason) =>
            if Stale(reason) {
              staleLeaves := staleLeaves + [leaf];
            } else if Outdated(reason) {
              stats := stats.(skipped := stats.skipped + 1);
              return stats, [], visits;
            } else {
              stats := stats.(skipped := stats.skipped + 1);
            }
        }
      }
    }

    lemma StoredStep(start: nat, lo: nat, hi: nat, vs: seq<Visit>, v: Visit)
      requires AllFromLast(keccak, syncer.client.chain, start, lo, hi, vs) && lo <= hi <= storage.tables.lastSynced
      requires v.found.Ok? && v.found.value.Some? ==>
        RowFromLast(keccak, syncer.client.chain, start, storage.tables.lastSynced, v.leaf.clusterID,
                    v.found.value.value)
      ensures AllFromLast(keccak, syncer.client.chain, start, lo, storage.tables.lastSynced, vs + [v])
    {
      hide RowFromLast, AllFromLast;
      FromLastStep(keccak, syncer.client.chain, start, lo, hi, storage.tables.lastSynced, vs, v);
    }

    /** The second pass: the leaves set aside, over the head overlay. */
    method RetryStale(ctx: Context, blockNum: nat, staleLeaves: seq<Leaf>, tree: Tree, overlay: Overlay, before: Stats,
                      ghost m: Balances, ghost start: nat)
      returns (stats: Stats, ghost visits: seq<Visit>)
      requires Wired(start) && IsTree(keccak, m, tree) && OverlayRowsKeyed(keccak, overlay)
      requires forall leaf | leaf in staleLeaves :: leaf in tree.leaves
      modifies ctx, storage`tables, storage`faults, storage`clusterReads, contract
      ensures Wired(start) && storage.tables.lastSynced >= old(storage.tables.lastSynced)
      ensures storage.faults >= old(storage.faults)
      ensures IsPass(keccak, m, tree.root, blockNum, staleLeaves, visits) && FoundIn(overlay, visits)
      ensures contract.log == old(contract.log) + CallsOfAll(visits)
      ensures storage.clusterReads == old(storage.clusterReads)
      ensures stats == TallyOn(before, visits)
      ensures (|visits| < |staleLeaves| || old(ctx.done)) ==> ctx.done
    {
      stats, visits := before, [];
      ghost var log := contract.log;
      hide Synced, IsChain, Wired, IsTree, OverlayRowsKeyed;
      for i := 0 to |staleLeaves|
        invariant Wired(start) && storage.tables.lastSynced >= old(storage.tables.lastSynced)
        invariant storage.faults >= old(storage.faults)
        invariant storage.clusterReads == old(storage.clusterReads) && (old(ctx.done) ==> ctx.done)
        invariant |visits| == i && IsPass(keccak, m, tree.root, blockNum, staleLeaves, visits)
        invariant contract.log == log + CallsOfAll(visits)
        invariant FoundIn(overlay, visits) && stats == TallyOn(before, visits)
      {
        hide *;
        var done := ctx.Err();
        if done { break; }
        var result;
        ghost var v;
        result, v := ProcessCluster(blockNum, staleLeaves[i], tree, FromOverlay(overlay), m, start);
        PassStep(keccak, m, tree.root, blockNum, staleLeaves, visits, log, [], v);
        SecondStep(before, overlay, visits, v);
        visits := visits + [v];
        match result {
          case Updated => stats := stats.(updated := stats.updated + 1);
          case NotUpdated => stats := stats.(skipped := stats.skipped + 1);
          case _ => stats := stats.(failed := stats.failed + 1);
        }
      }
    }

    /** The head overlay for the leaves set aside. */
    method AskOverlay(staleLeaves: seq<Leaf>, ghost start: nat) returns (overlay: Result<Overlay>, ghost retry: Retry)
      requires Wired(start)
      modifies storage`tables, storage`faults, syncer.client.batchSize`current, syncer.client`heads
      modifies syncer.client`faults
      ensures Wired(start) && storage.tables.lastSynced >= old(storage.tables.lastSynced)
      ensures storage.faults >= old(storage.faults) && syncer.client.faults >= old(syncer.client.faults)
      ensures retry.Asked? && retry.overlay == overlay && (overlay.Ok? ==> OverlayRowsKeyed(keccak, overlay.value))
      ensures overlay.Ok? || Faults() == old(Faults()) ==>
        IsAsked(old(syncer.client.heads), old(storage.tables.lastSynced), storage.tables.lastSynced, retry,
                IDsOf(staleLeaves), start)
    {
      hide Synced, IsChain, HeadState, RowKeyed;
      ghost var cursor, last;
      overlay, cursor, last := syncer.BuildHeadStateSnapshot(IDsOf(staleLeaves), start);
      retry := Asked(overlay, cursor, last);
    }

    /** One head block was asked for, and the overlay is the state of the clusters at the
        later of it and a cursor between the two given ones. */
    ghost predicate IsAsked(heads: seq<u64>, before: nat, after: nat, retry: Retry, ids: seq<Hash>, start: nat)
      reads syncer.client, syncer.client.batchSize
    {
      && retry.Asked? && |syncer.client.heads| == |heads| + 1 && syncer.client.heads[..|heads|] == heads
      && syncer.IsHeadState(before, retry.cursor, after, syncer.client.heads[|heads|], retry.last, ids, start,
                            retry.overlay)
    }

    lemma AskedWiden(heads: seq<u64>, before': nat, before: nat, after: nat, after': nat, retry: Retry,
                     ids: seq<Hash>, start: nat)
      requires before' <= before && after <= after'
      ensures IsAsked(heads, before, after, retry, ids, start) ==> IsAsked(heads, before', after', retry, ids, start)
    {
    }

    lemma StoredLater(start: nat, lo: nat, hi: nat, hi': nat, vs: seq<Visit>)
      requires AllFromLast(keccak, syncer.client.chain, start, lo, hi, vs) && hi <= hi'
      ensures AllFromLast(keccak, syncer.client.chain, start, lo, hi', vs)
    {
      hide RowFromLast;
    }

    /** A second pass finds rows for exactly those of its clusters that have events up to the
        later of the cursor and the head asked for, and they are those of the last of these
        events, if ranges run forward to the head. */
    lemma RetryFromLast(heads: seq<u64>, before: nat, after: nat, row: CommitRow, p: Passes, start: nat)
      requires IsProcessed(keccak, row, p) && p.retry.Asked? && p.retry.overlay.Ok? && syncer.keccak == keccak
      requires IsAsked(heads, before, after, p.retry, IDsOf(SetAsideBy(p.first)), start)
      requires RunsForward(syncer.client.heads[|heads|], syncer.client.batchSize.max)
        || p.retry.cursor >= syncer.client.heads[|heads|]
      ensures AllFromLast(keccak, syncer.client.chain, start, p.retry.last, p.retry.last, p.second)
      ensures forall v | v in p.second ::
        && v.found.Ok?
        && (v.found.value.Some? <==>
              HasEvent(keccak, Slice(syncer.client.chain, start + 1, p.retry.last), v.leaf.clusterID))
    {
      var ids, overlay, head := IDsOf(SetAsideBy(p.first)), p.retry.overlay.value, syncer.client.heads[|heads|];
      var chain, last := syncer.client.chain, p.retry.last;
      assert syncer.IsHeadState(before, p.retry.cursor, after, head, last, ids, start, p.retry.overlay);
      RetriesExactly(p);
      SecondAsked(row, p);
      hide EventSyncer.IsHeadState, RowFromLast, IsPasses, IsAsked, IsProcessed, HasEvent, Slice, IDsOf;
      forall v | v in p.second
        ensures v.found == Ok(RowIn(overlay, v.leaf.clusterID))
        ensures v.leaf.clusterID in overlay <==> HasEvent(keccak, Slice(chain, start + 1, last), v.leaf.clusterID)
        ensures v.leaf.clusterID in overlay ==>
          LastWithin(keccak, chain, start, last, last, v.leaf.clusterID, overlay[v.leaf.clusterID]) {
        var id, retry := v.leaf.clusterID, p.retry;
        syncer.SnapshotExactly(before, retry.cursor, after, head, last, ids, start, retry.overlay, id);
      }
    }

    /** The overlay is asked for the clusters of all leaves visited again. */
    lemma SecondAsked(row: CommitRow, p: Passes)
      requires IsProcessed(keccak, row, p)
      ensures forall v | v in p.second :: v.leaf.clusterID in IDsOf(SetAsideBy(p.first))
    {
      hide IsVisit, IsPasses, LeavesFor;
      var ids := IDsOf(SetAsideBy(p.first));
      forall v | v in p.second ensures v.leaf.clusterID in ids {
        var i :| 0 <= i < |p.second| && p.second[i] == v;
        assert ids[i] == v.leaf.clusterID;
      }
    }

    /** Whether a commit's first pass has left leaves to retry. */
    ghost predicate LeftStale(commit: CommitRow, tree: Tree, staleLeaves: seq<Leaf>, stats: Stats, first: seq<Visit>) {
      && IsTree(keccak, BalancesOf(commit.balances), tree) && commit.balances != []
      && LeavesFor(keccak, BalancesOf(commit.balances), tree.leaves) && tree.root == commit.merkleRoot
      && IsPass(keccak, BalancesOf(commit.balances), tree.root, commit.referenceBlock, tree.leaves, first)
      && StopsAtAbort(first) && !Aborted(first)
      && staleLeaves == SetAsideBy(first) && staleLeaves != [] && stats == Tally(first)
    }

    /** The second half of ProcessCommit: ask for the overlay and retry what was set aside. */
    method Retry(ctx: Context, commit: CommitRow, tree: Tree, staleLeaves: seq<Leaf>, before: Stats,
                 ghost first: seq<Visit>,
                 ghost start: nat)
      returns (stats: Stats, ghost p: Passes)
      requires Wired(start) && LeftStale(commit, tree, staleLeaves, before, first)
      requires (|first| < |tree.leaves| ==> ctx.done)
      modifies ctx, storage`tables, storage`faults, storage`clusterReads, contract
      modifies syncer.client.batchSize`current, syncer.client`heads, syncer.client`faults
      ensures Wired(start) && storage.tables.lastSynced >= old(storage.tables.lastSynced)
      ensures storage.faults >= old(storage.faults) && syncer.client.faults >= old(syncer.client.faults)
      ensures p.first == first && p.retry.Asked? && IsProcessed(keccak, commit, p) && stats == StatsOf(p)
      ensures (old(ctx.done) ==> ctx.done) && (ctx.done || Complete(p))
      ensures contract.log == old(contract.log) + CallsOfAll(p.second)
      ensures RequestsOf(p) == CallsOfAll(first) + CallsOfAll(p.second)
      ensures storage.clusterReads == old(storage.clusterReads)
      ensures p.retry.overlay.Ok? || Faults() == old(Faults()) ==>
        IsAsked(old(syncer.client.heads), old(storage.tables.lastSynced), storage.tables.lastSynced, p.retry,
                IDsOf(staleLeaves), start)
    {
      StaleRetry(commit, tree, staleLeaves, before, first);
      hide *;
      ghost var cursor, heads := storage.tables.lastSynced, syncer.client.heads;
      var overlay;
      ghost var retry;
      overlay, retry := AskOverlay(staleLeaves, start);
      ghost var after := storage.tables.lastSynced;
      if overlay.Err? {
        p := Passes(tree.leaves, first, retry, []);
        FailedRetry(keccak, commit, p, ctx.done);
        stats := before.(failed := before.failed + |staleLeaves|);
        return;
      }
      ghost var second;
      ghost var m := BalancesOf(commit.balances);
      stats, second := RetryStale(ctx, commit.referenceBlock, staleLeaves, tree, overlay.value, before, m, start);
      p := Passes(tree.leaves, first, retry, second);
      TwoPasses(keccak, commit, p, ctx.done);
      AskedWiden(heads, cursor, cursor, after, storage.tables.lastSynced, retry, IDsOf(staleLeaves), start);
    }

    lemma StaleRetry(commit: CommitRow, tree: Tree, staleLeaves: seq<Leaf>, stats: Stats, first: seq<Visit>)
      requires LeftStale(commit, tree, staleLeaves, stats, first)
      ensures IsTree(keccak, BalancesOf(commit.balances), tree) && commit.balances != []
      ensures LeavesFor(keccak, BalancesOf(commit.balances), tree.leaves) && tree.root == commit.merkleRoot
      ensures IsPass(keccak, BalancesOf(commit.balances), commit.merkleRoot, commit.referenceBlock, tree.leaves, first)
      ensures StopsAtAbort(first) && !Aborted(first) && staleLeaves == SetAsideBy(first) && staleLeaves != []
      ensures stats == Tally(first)
      ensures forall leaf | leaf in staleLeaves :: leaf in tree.leaves
      ensures CallsOfAll([]) == []
    {
      hide IsTree, LeavesFor, IsPass, StopsAtAbort, Aborted, Tally, SetAsideBy, BalancesOf;
      var m := BalancesOf(commit.balances);
      SetAsideAreLeaves(keccak, m, commit.merkleRoot, commit.referenceBlock, tree.leaves, first);
    }

    lemma StaleLeft(commit: CommitRow, tree: Tree, staleLeaves: seq<Leaf>, stats: Stats, first: seq<Visit>)
      requires IsTree(keccak, BalancesOf(commit.balances), tree) && commit.balances != []
      requires LeavesFor(keccak, BalancesOf(commit.balances), tree.leaves) && tree.root == commit.merkleRoot
      requires IsPass(keccak, BalancesOf(commit.balances), tree.root, commit.referenceBlock, tree.leaves, first)
      requires StopsAtAbort(first) && !Aborted(first) && staleLeaves == SetAsideBy(first) && staleLeaves != []
      requires stats == Tally(first)
      ensures LeftStale(commit, tree, staleLeaves, stats, first)
    {
    }

    /** One commit. It fails exactly when the stored balances do not give the stored root.
        Otherwise the requests are those of two passes over the leaves of their tree, cut
        short only if the context is done, and the counters those of the passes. The second
        pass, if there is one, uses the rows of the clusters set aside as they are at the
        later of a cursor and the head block asked for meanwhile. */
    method ProcessCommit(ctx: Context, commit: CommitRow, ghost start: nat)
      returns (r: Result<Stats>, ghost p: Passes)
      requires Wired(start)
      modifies ctx, storage`tables, storage`faults, storage`clusterReads, contract
      modifies syncer.client.batchSize`current, syncer.client`heads, syncer.client`faults
      ensures Wired(start) && storage.tables.lastSynced >= old(storage.tables.lastSynced)
      ensures storage.faults >= old(storage.faults) && syncer.client.faults >= old(syncer.client.faults)
      ensures r.Ok? <==> GivesRoot(keccak, commit)
      ensures contract.log == old(contract.log) + if r.Ok? then RequestsOf(p) else []
      ensures storage.clusterReads == old(storage.clusterReads) + if r.Ok? then ReadsOfAll(p.first) else []
      ensures r.Ok? ==> IsProcessed(keccak, commit, p) && r.value == StatsOf(p) && (ctx.done || Complete(p))
      ensures r.Ok? ==> AllFromLast(keccak, syncer.client.chain, start, old(storage.tables.lastSynced),
                                    storage.tables.lastSynced, p.first)
      ensures old(ctx.done) ==> ctx.done
      ensures r.Ok? && p.retry.Asked? ==>
        p.retry.overlay.Ok? || Faults() == old(Faults()) ==>
        IsAsked(old(syncer.client.heads), old(storage.tables.lastSynced), storage.tables.lastSynced, p.retry,
                IDsOf(SetAsideBy(p.first)), start)
    {
      p := Passes([], [], NoRetry, []);
      EmptyPasses(keccak, commit);
      assert AllFromLast(keccak, syncer.client.chain, start, storage.tables.lastSynced, storage.tables.lastSynced, []);
      ghost var cursor, heads, log := storage.tables.lastSynced, syncer.client.heads, contract.log;
      hide *;
      if |commit.balances| == 0 {
        return Ok(Stats(0, 0, 0)), p;
      }
      ghost var m := BalancesOf(commit.balances);
      var tree := BuildTree(keccak, commit.balances);
      TreeLeaves(keccak, commit, tree);
      if tree.root != commit.merkleRoot { return Err, p; }
      var stats, staleLeaves;
      ghost var first;
      stats, staleLeaves, first := ProcessAllClusters(ctx, commit.referenceBlock, tree, m, start);
      p := Passes(tree.leaves, first, NoRetry, []);
      if |staleLeaves| == 0 {
        OnePass(keccak, commit, p, ctx.done);
        return Ok(stats), p;
      }
      ghost var before := storage.tables.lastSynced;
      StaleLeft(commit, tree, staleLeaves, stats, first);
      stats, p := Retry(ctx, commit, tree, staleLeaves, stats, first, start);
      LogTwice(log, CallsOfAll(first), CallsOfAll(p.second));
      ghost var after := storage.tables.lastSynced;
      AskedWiden(heads, cursor, before, after, after, p.retry, IDsOf(staleLeaves), start);
      StoredLater(start, cursor, before, after, first);
      r := Ok(stats);
    }

    /** The oracle's thread may store commits and settle them while the updater waits. */
    method WaitForCommit(ctx: Context)
      modifies ctx, storage`commits, storage`statusWrites, storage`faults
      ensures old(ctx.done) ==> ctx.done
      ensures old(Rebuildable(keccak, storage.commits)) ==> Rebuildable(keccak, storage.commits)
    {
      hide IsAggregate, RowRebuilds, RootOfMap;
      var rounds: int := *;
      while rounds > 0
        invariant old(ctx.done) ==> ctx.done
        invariant old(Rebuildable(keccak, storage.commits)) ==> Rebuildable(keccak, storage.commits)
      {
        var validators: seq<Validator>, beacon: Beacon, epoch: int, block: int, status: CommitStatus := *, *, *, *, *;
        var balances := AggregateByCluster(validators, beacon);
        var tree := BuildTree(keccak, balances);
        if epoch >= 0 && block >= 0 {
          WritesRebuild(keccak, storage.commits, validators, beacon, balances, tree.root, epoch, block);
          var inserted := storage.InsertPendingCommit(epoch, tree.root, block, balances);
          WritesRebuild(keccak, storage.commits, validators, beacon, balances, tree.root, epoch, block);
          var updated := storage.UpdateCommitStatus(epoch, status, None);
        }
        rounds := rounds - 1;
      }
      var done := ctx.Err();
    }

    /** The commit of a block: looked up once, and again after a wait if it is missing. */
    method FindCommit(ctx: Context, block: nat)
      returns (read: Result<Option<CommitRow>>, stopped: bool, ghost lookups: seq<CommitRead>)
      modifies ctx, storage`commits, storage`statusWrites, storage`commitReads, storage`faults
      ensures storage.commitReads == old(storage.commitReads) + lookups && (old(ctx.done) ==> ctx.done)
      ensures forall l | l in lookups :: l.block == block
      ensures stopped ==> ctx.done && |lookups| == 1 && Missing(lookups[0])
      ensures !stopped ==> Looked(lookups) && lookups[|lookups|-1].answer == read
      ensures !stopped && read == Ok(None) ==> |lookups| == 2 && !BlockTaken(storage.commits, block)
      ensures read.Ok? && read.value.Some? ==>
        read.value.value in storage.commits.Values && read.value.value.referenceBlock == block
      ensures old(Rebuildable(keccak, storage.commits)) ==> Rebuildable(keccak, storage.commits)
    {
      hide Rebuildable;
      stopped := false;
      read := storage.GetCommitByBlock(block);
      lookups := [CommitRead(block, read)];
      if read.Ok? && read.value.None? {
        WaitForCommit(ctx);
        if ctx.done {
          stopped := true;
          return;
        }
        read := storage.GetCommitByBlock(block);
        lookups := lookups + [CommitRead(block, read)];
      }
    }

    /** One event. Its ending is the one that its block, the last completed block and the
        answers of the database call for; a completed event has had its passes, and then
        its block becomes the last; no other makes a request. For rows the oracle wrote the
        stored root is never disputed. */
    method HandleEvent(ctx: Context, event: RootCommitted, ghost start: nat) returns (h: Handling, ghost rec: Record)
      requires Wired(start)
      modifies this, ctx, storage, contract, syncer.client.batchSize`current, syncer.client`heads, syncer.client`faults
      ensures Wired(start) && (old(ctx.done) ==> ctx.done)
      ensures rec.event == event && rec.handling == h && IsRecord(keccak, old(lastProcessedBlock), rec, ctx.done)
      ensures contract.log == old(contract.log) + rec.calls
      ensures storage.commitReads == old(storage.commitReads) + rec.lookups
      ensures lastProcessedBlock == if h.Completed? then event.blockNum else old(lastProcessedBlock)
      ensures h.Stopped? ==> ctx.done
      ensures h.NotFound? ==> !BlockTaken(storage.commits, event.blockNum)
      ensures h.RootDiffers? ==> HasOtherRoot(storage.commits, event)
      ensures h.Completed? ==> h.row in storage.commits.Values
      ensures old(Rebuildable(keccak, storage.commits)) ==> Rebuildable(keccak, storage.commits) && !h.Mismatch?
    {
      hide Synced, IsChain, GivesRoot, IsRecord, IsProcessed, StatsOf, Complete, RequestsOf, Rebuildable, HasOtherRoot,
        BlockTaken, AllFromLast, IsAsked, ReadsOfAll, SetAsideBy, IDsOf;
      ghost var none, last := Passes([], [], NoRetry, []), lastProcessedBlock;
      if event.blockNum <= lastProcessedBlock {
        NoRequests(keccak, event, last, [], Duplicate, ctx.done);
        return Duplicate, Record(event, Duplicate, [], [], none);
      }
      var read, stopped;
      ghost var lookups;
      read, stopped, lookups := FindCommit(ctx, event.blockNum);
      if stopped || read.Err? || read.value.None? {
        h := if stopped then Stopped else if read.Err? then LookupFailed else NotFound;
        NoRequests(keccak, event, last, lookups, h, ctx.done);
        return h, Record(event, h, lookups, [], none);
      }
      var commit := read.value.value;
      if commit.merkleRoot != event.merkleRoot {
        NoRequests(keccak, event, last, lookups, RootDiffers, ctx.done);
        OtherRoot(storage.commits, commit, event);
        return RootDiffers, Record(event, RootDiffers, lookups, [], none);
      }
      var processed;
      ghost var passes;
      processed, passes := ProcessCommit(ctx, commit, start);
      if processed.Err? {
        h := Mismatch(commit);
        NoRequests(keccak, event, last, lookups, h, ctx.done);
        DisputedRow(keccak, storage.commits, commit);
        return h, Record(event, h, lookups, [], none);
      }
      lastProcessedBlock := event.blockNum;
      h := Handling.Completed(commit, processed.value);
      rec := Record(event, h, lookups, RequestsOf(passes), passes);
      CompletedRecord(keccak, last, rec, ctx.done);
    }

    /** A subscription, over the events received before it ends. Every event is handled, in
        order, until the context is done, and all look-ups and requests are those of the
        handlings; what is submitted belongs to a completed event. Calling it again continues
        from the last completed block. */
    method SubscribeAndProcess(ctx: Context, events: seq<RootCommitted>, ghost start: nat)
      returns (ghost rs: seq<Record>)
      requires Wired(start)
      modifies this, ctx, storage, contract, syncer.client.batchSize`current, syncer.client`heads, syncer.client`faults
      ensures Wired(start) && IsStream(keccak, old(lastProcessedBlock), events, rs, ctx.done)
      ensures |rs| < |events| ==> ctx.done
      ensures lastProcessedBlock == LastBlock(old(lastProcessedBlock), rs)
      ensures contract.log == old(contract.log) + CallsOfStream(rs)
      ensures storage.commitReads == old(storage.commitReads) + ReadsOfStream(rs)
      ensures AllBelong(keccak, rs, CallsOfStream(rs))
      ensures old(Rebuildable(keccak, storage.commits)) ==> Rebuildable(keccak, storage.commits) && NoMismatch(rs)
    {
      rs := [];
      ghost var last, log, had := lastProcessedBlock, contract.log, storage.commitReads;
      ghost var sound := Rebuildable(keccak, storage.commits);
      hide Synced, IsChain, Wired, Rebuildable, IsRecord, HasOtherRoot, BlockTaken;
      for i := 0 to |events|
        invariant Wired(start) && |rs| == i && IsStream(keccak, last, events, rs, ctx.done)
        invariant contract.log == log + CallsOfStream(rs) && storage.commitReads == had + ReadsOfStream(rs)
        invariant lastProcessedBlock == LastBlock(last, rs)
        invariant sound ==> Rebuildable(keccak, storage.commits) && NoMismatch(rs)
      {
        ghost var was := ctx.done;
        var done := ctx.Err();
        StreamGoesOn(keccak, last, events, rs, was, ctx.done);
        if done { break; }
        was := ctx.done;
        ghost var logged, looked := contract.log, storage.commitReads;
        var h;
        ghost var rec;
        hide IsStream, CallsOfStream, ReadsOfStream, LastBlock, NoMismatch;
        h, rec := HandleEvent(ctx, events[i], start);
        StreamGoesOn(keccak, last, events, rs, was, ctx.done);
        StreamStep(keccak, last, events, rs, ctx.done, log, had, rec);
        rs := rs + [rec];
      }
      StreamBelongs(keccak, last, events, rs, ctx.done);
    }
  }

  lemma NoRequests(k: Keccak, event: RootCommitted, last: nat, lookups: seq<CommitRead>, h: Handling, done: bool)
    requires Ends(k, event, last, lookups, h) && !h.Completed?
    ensures IsRecord(k, last, Record(event, h, lookups, [], Passes([], [], NoRetry, [])), done)
  {
    hide Ends;
  }

  lemma CompletedRecord(k: Keccak, last: nat, r: Record, done: bool)
    requires r.handling.Completed? && Ends(k, r.event, last, r.lookups, r.handling)
    requires IsProcessed(k, r.handling.row, r.passes) && r.calls == RequestsOf(r.passes)
    requires r.handling.stats == StatsOf(r.passes)
    requires done || Complete(r.passes)
    ensures IsRecord(k, last, r, done)
  {
    hide Ends, IsProcessed, Complete, RequestsOf, StatsOf;
  }

  lemma OtherRoot(c: Commits, row: CommitRow, event: RootCommitted)
    requires row in c.Values && row.referenceBlock == event.blockNum && row.merkleRoot != event.merkleRoot
    ensures HasOtherRoot(c, event)
  {
  }

  lemma DisputedRow(k: Keccak, c: Commits, row: CommitRow)
    requires row in c.Values && !GivesRoot(k, row)
    ensures !Rebuildable(k, c)
  {
    hide RootOfMap, BalancesOf;
  }

  predicate NoMismatch(rs: seq<Record>) {
    forall r | r in rs :: !r.handling.Mismatch?
  }

  lemma {:induction false} StreamGoesOn(k: Keccak, last: nat, events: seq<RootCommitted>, rs: seq<Record>, done: bool,
                                        done': bool)
    requires IsStream(k, last, events, rs, done) && (done ==> done')
    ensures IsStream(k, last, events, rs, done')
  {
    hide IsProcessed, Complete, Ends;
    if rs != [] { StreamGoesOn(k, last, events, rs[..|rs|-1], done, done'); }
  }

  lemma StreamStep(k: Keccak, last: nat, events: seq<RootCommitted>, rs: seq<Record>, done: bool,
                   log: seq<ContractCall>, had: seq<CommitRead>, r: Record)
    requires IsStream(k, last, events, rs, done)
    requires |rs| < |events| && r.event == events[|rs|] && IsRecord(k, LastBlock(last, rs), r, done)
    ensures IsStream(k, last, events, rs + [r], done)
    ensures log + CallsOfStream(rs) + r.calls == log + CallsOfStream(rs + [r])
    ensures had + ReadsOfStream(rs) + r.lookups == had + ReadsOfStream(rs + [r])
    ensures LastBlock(last, rs + [r]) == if r.handling.Completed? then r.event.blockNum else LastBlock(last, rs)
    ensures NoMismatch(rs) && !r.handling.Mismatch? ==> NoMismatch(rs + [r])
  {
    hide IsRecord;
    assert (rs + [r])[..|rs|] == rs;
  }

  /** Writes of the oracle leave rows that rebuild. */
  lemma WritesRebuild(k: Keccak, c: Commits, vs: seq<Validator>, beacon: Beacon, bs: seq<ClusterBalance>, root: Hash,
                      epoch: nat, block: nat)
    requires IsAggregate(vs, beacon, bs) && root == RootOfMap(k, BalancesOf(bs))
    ensures Rebuildable(k, c) && InsertCommit(c, epoch, root, block, bs).Ok? ==>
      Rebuildable(k, InsertCommit(c, epoch, root, block, bs).value)
    ensures Rebuildable(k, c) ==> forall status, hash :: Rebuildable(k, UpdateStatus(c, epoch, status, hash))
  {
    hide RootOfMap;
  }

  lemma LogTwice(log: seq<ContractCall>, a: seq<ContractCall>, b: seq<ContractCall>)
    ensures (log + a) + b == log + (a + b)
  {
  }

  lemma EmptyPasses(k: Keccak, row: CommitRow)
    ensures row.balances == [] ==> IsProcessed(k, row, Passes([], [], NoRetry, [])) && GivesRoot(k, row)
    ensures StatsOf(Passes([], [], NoRetry, [])) == Stats(0, 0, 0) && Complete(Passes([], [], NoRetry, []))
    ensures RequestsOf(Passes([], [], NoRetry, [])) == [] && ReadsOfAll([]) == []
  {
  }

  lemma TreeLeaves(k: Keccak, row: CommitRow, t: Tree)
    requires IsTree(k, BalancesOf(row.balances), t) && t.root == RootOfMap(k, BalancesOf(row.balances))
    requires row.balances != []
    ensures LeavesFor(k, BalancesOf(row.balances), t.leaves)
    ensures GivesRoot(k, row) <==> t.root == row.merkleRoot
  {
    var bs := row.balances;
    assert bs[|bs|-1].clusterID in BalancesOf(bs);
  }

  /** The first pass with nothing to retry. */
  lemma OnePass(k: Keccak, row: CommitRow, p: Passes, done: bool)
    requires LeavesFor(k, BalancesOf(row.balances), p.leaves) && row.balances != []
    requires IsPass(k, BalancesOf(row.balances), row.merkleRoot, row.referenceBlock, p.leaves, p.first)
    requires StopsAtAbort(p.first)
    requires Aborted(p.first) || SetAsideBy(p.first) == []
    requires p.retry.NoRetry? && p.second == [] && (|p.first| < |p.leaves| ==> Aborted(p.first) || done)
    ensures IsProcessed(k, row, p) && (done || Complete(p)) && StatsOf(p) == Tally(p.first)
    ensures RequestsOf(p) == CallsOfAll(p.first)
  {
    hide LeavesFor, BalancesOf, IsVisit, StopsAtAbort, Aborted, Tally, SetAsideBy;
    assert CallsOfAll([]) == [];
  }

  lemma FailedRetry(k: Keccak, row: CommitRow, p: Passes, done: bool)
    requires LeavesFor(k, BalancesOf(row.balances), p.leaves) && row.balances != []
    requires IsPass(k, BalancesOf(row.balances), row.merkleRoot, row.referenceBlock, p.leaves, p.first)
    requires StopsAtAbort(p.first)
    requires !Aborted(p.first) && SetAsideBy(p.first) != []
    requires p.retry.Asked? && p.retry.overlay.Err? && p.second == [] && (|p.first| < |p.leaves| ==> done)
    ensures IsProcessed(k, row, p) && (done || Complete(p))
    ensures StatsOf(p) == var s := Tally(p.first); s.(failed := s.failed + |SetAsideBy(p.first)|)
    ensures RequestsOf(p) == CallsOfAll(p.first)
  {
    hide LeavesFor, BalancesOf, IsVisit, StopsAtAbort, Aborted, Tally, SetAsideBy;
    assert CallsOfAll([]) == [];
  }

  lemma TwoPasses(k: Keccak, row: CommitRow, p: Passes, done: bool)
    requires LeavesFor(k, BalancesOf(row.balances), p.leaves) && row.balances != []
    requires IsPass(k, BalancesOf(row.balances), row.merkleRoot, row.referenceBlock, p.leaves, p.first)
    requires StopsAtAbort(p.first)
    requires !Aborted(p.first) && SetAsideBy(p.first) != []
    requires p.retry.Asked? && p.retry.overlay.Ok?
    requires IsPass(k, BalancesOf(row.balances), row.merkleRoot, row.referenceBlock, SetAsideBy(p.first), p.second)
    requires FoundIn(p.retry.overlay.value, p.second)
    requires |p.first| < |p.leaves| || |p.second| < |SetAsideBy(p.first)| ==> done
    ensures IsProcessed(k, row, p) && (done || Complete(p)) && StatsOf(p) == TallyOn(Tally(p.first), p.second)
    ensures RequestsOf(p) == CallsOfAll(p.first) + CallsOfAll(p.second)
  {
    hide LeavesFor, BalancesOf, IsVisit, StopsAtAbort, Aborted, Tally, TallyOn, SetAsideBy, CallsOfAll;
  }

  lemma {:induction false} SetAsideAreLeaves(k: Keccak, m: Balances, root: Hash, block: nat, leaves: seq<Leaf>,
                                             vs: seq<Visit>)
    requires IsPass(k, m, root, block, leaves, vs)
    ensures forall leaf | leaf in SetAsideBy(vs) :: leaf in leaves
  {
    hide IsVisit;
    if vs != [] { SetAsideAreLeaves(k, m, root, block, leaves, vs[..|vs|-1]); }
  }

  ghost predicate FoundIn(overlay: Overlay, vs: seq<Visit>) {
    forall i | 0 <= i < |vs| :: vs[i].found == Ok(RowIn(overlay, vs[i].leaf.clusterID))
  }

  lemma ReadsStep(had: seq<ClusterRead>, vs: seq<Visit>, v: Visit)
    ensures had + ReadsOfAll(vs) + [ClusterRead(v.leaf.clusterID, v.found)] == had + ReadsOfAll(vs + [v])
  {
    assert ReadsOfAll(vs + [v]) == ReadsOfAll(vs) + [ClusterRead(v.leaf.clusterID, v.found)];
  }

  /** One more visit of a pass, with the requests and the look-up it makes. */
  lemma PassStep(k: Keccak, m: Balances, root: Hash, block: nat, leaves: seq<Leaf>, vs: seq<Visit>,
                 log: seq<ContractCall>, had: seq<ClusterRead>, v: Visit)
    requires IsPass(k, m, root, block, leaves, vs)
    requires |vs| < |leaves| && v.leaf == leaves[|vs|] && IsVisit(k, m, root, block, v)
    ensures IsPass(k, m, root, block, leaves, vs + [v])
    ensures log + CallsOfAll(vs) + v.calls == log + CallsOfAll(vs + [v])
    ensures had + ReadsOfAll(vs) + [ClusterRead(v.leaf.clusterID, v.found)] == had + ReadsOfAll(vs + [v])
  {
    hide IsVisit;
    ReadsStep(had, vs, v);
    hide ReadsOfAll;
    assert (vs + [v])[..|vs|] == vs;
  }

  /** What one more visit of a first pass does to counters and set-aside leaves. */
  lemma FirstStep(vs: seq<Visit>, v: Visit)
    requires StopsAtAbort(vs) && !Aborted(vs)
    ensures StopsAtAbort(vs + [v])
    ensures var s, stale := Tally(vs), SetAsideBy(vs);
      var t, stale', aborted := Tally(vs + [v]), SetAsideBy(vs + [v]), Aborted(vs + [v]);
      match v.result
      case Updated => t == s.(updated := s.updated + 1) && stale' == stale && !aborted
      case NotUpdated => t == s.(skipped := s.skipped + 1) && stale' == stale && !aborted
      case Errored => t == s.(failed := s.failed + 1) && stale' == stale && !aborted
      case RevertedWith(reason) =>
        if Stale(reason) then t == s && stale' == stale + [v.leaf] && !aborted
        else t == s.(skipped := s.skipped + 1) && stale' == stale && (aborted <==> Outdated(reason))
  {
    assert (vs + [v])[..|vs|] == vs;
  }

  lemma SecondStep(before: Stats, overlay: Overlay, vs: seq<Visit>, v: Visit)
    requires FoundIn(overlay, vs) && v.found == Ok(RowIn(overlay, v.leaf.clusterID))
    ensures FoundIn(overlay, vs + [v])
    ensures var s, t := TallyOn(before, vs), TallyOn(before, vs + [v]);
      match v.result
      case Updated => t == s.(updated := s.updated + 1)
      case NotUpdated => t == s.(skipped := s.skipped + 1)
      case _ => t == s.(failed := s.failed + 1)
  {
    assert (vs + [v])[..|vs|] == vs;
  }

  lemma NoRow(rows: map<Hash, ClusterRow>, id: Hash)
    ensures RowIn(rows, id).None? <==> id !in rows
  {
  }

  lemma KeyedRow(k: Keccak, id: Hash, row: ClusterRow)
    requires RowKeyed(k, id, row)
    ensures ClusterIDOf(k, row.owner, row.operatorIDs) == id
    ensures forall s: Submission | s.cluster == row :: SubmittedID(k, s) == id
  {
  }

  lemma VisitWithoutRow(k: Keccak, m: Balances, root: Hash, block: nat, v: Visit)
    requires v.leaf.clusterID in m && v.leaf.effectiveBalance == m[v.leaf.clusterID] && v.calls == []
    requires if v.found.Err? then v.result == Errored else v.found.value.None? && v.result == NotUpdated
    ensures IsVisit(k, m, root, block, v) && !v.result.Updated?
  {
  }

  lemma VisitUnsubmitted(k: Keccak, m: Balances, root: Hash, block: nat, v: Visit)
    requires v.leaf.clusterID in m && v.leaf.effectiveBalance == m[v.leaf.clusterID]
    requires v.found.Ok? && v.found.value.Some? && RowKeyed(k, v.leaf.clusterID, v.found.value.value)
    requires |v.calls| == 1 && v.calls[0].Read? && v.calls[0].cluster == v.found.value.value
    requires var b := v.calls[0].balance;
      if b.Answered? then b.value == v.leaf.effectiveBalance && v.result == NotUpdated else v.result == FailureOf(b)
    ensures IsVisit(k, m, root, block, v)
    ensures v.result.NotUpdated? || v.result.Updated? ==> v.calls[0].balance.Answered?
  {
    hide RowKeyed;
  }

  lemma VisitSubmitted(k: Keccak, m: Balances, root: Hash, block: nat, v: Visit)
    requires v.leaf.clusterID in m && v.leaf.effectiveBalance == m[v.leaf.clusterID]
    requires v.found.Ok? && v.found.value.Some? && RowKeyed(k, v.leaf.clusterID, v.found.value.value)
    requires |v.calls| == 2 && v.calls[0].Read? && v.calls[0].cluster == v.found.value.value && v.calls[1].Write?
    requires v.calls[0].balance.Answered? && v.calls[0].balance.value != v.leaf.effectiveBalance
    requires var s := v.calls[1].submission;
      && s == Submission(block, v.found.value.value, v.leaf.effectiveBalance, s.proof) && |s.proof| == Depth(|m|)
      && Fold(k, HashLeaf(k, v.leaf.clusterID, v.leaf.effectiveBalance), s.proof) == root
    requires v.result == if v.calls[1].reply.Answered? then Updated else FailureOf(v.calls[1].reply)
    ensures IsVisit(k, m, root, block, v)
    ensures v.result.NotUpdated? || v.result.Updated? ==> v.calls[1].reply.Answered?
  {
    hide Fold, HashLeaf, Depth, ClusterIDOf;
  }

  lemma LeafIsEntry(k: Keccak, m: Balances, t: Tree, leaf: Leaf)
    requires IsTree(k, m, t) && leaf in t.leaves
    ensures leaf.clusterID in m && leaf.effectiveBalance == m[leaf.clusterID]
  {
    assert IsLeafOf(k, m, leaf);
  }
}
