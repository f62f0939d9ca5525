/** Applying fetched batches to the database, and the in-memory head overlay
    (eth/syncer/syncer.go:201-385, eth/syncer/headstate.go). */
module Syncer {
  import opened Bytes
  import opened Events
  import opened ClusterId
  import opened Chain
  import opened Execution
  import opened Storage

  // ----- The overlay, as a function of the logs -----

  type Overlay = map<Hash, ClusterRow>

  function ApplyToOverlay(k: Keccak, overlay: Overlay, requested: set<Hash>, e: ClusterEvent): Overlay {
    if EventID(k, e) in requested then overlay[EventID(k, e) := RowOf(k, e)] else overlay
  }

  function OverlayLog(k: Keccak, overlay: Overlay, requested: set<Hash>, l: Log): Result<Overlay> {
    match l.payload
    case Handled(e) => Ok(ApplyToOverlay(k, overlay, requested, e))
    case UnknownSignature => Ok(overlay)
    case Malformed => Err
  }

  function OverlayReplay(k: Keccak, overlay: Overlay, requested: set<Hash>, logs: seq<Log>): Result<Overlay> {
    if logs == [] then Ok(overlay)
    else match OverlayReplay(k, overlay, requested, logs[..|logs|-1])
      case Ok(o) => OverlayLog(k, o, requested, logs[|logs|-1])
      case Err => Err
  }

  function IdSet(ids: seq<Hash>): set<Hash> {
    set id | id in ids
  }

  function Restrict(m: map<Hash, ClusterRow>, ids: set<Hash>): Overlay {
    map c | c in m && c in ids :: m[c]
  }

  lemma OverlayOne(k: Keccak, o: Overlay, ids: set<Hash>, logs: seq<Log>, l: Log)
    ensures OverlayReplay(k, o, ids, logs + [l]) ==
      match OverlayReplay(k, o, ids, logs) case Ok(p) => OverlayLog(k, p, ids, l) case Err => Err
  {
    assert (logs + [l])[..|logs|] == logs;
  }

  lemma {:induction false} OverlayConcat(k: Keccak, o: Overlay, ids: set<Hash>, a: seq<Log>, b: seq<Log>)
    ensures OverlayReplay(k, o, ids, a + b) ==
      match OverlayReplay(k, o, ids, a) case Ok(p) => OverlayReplay(k, p, ids, b) case Err => Err
  {
    if b == [] {
      assert a + b == a;
    } else {
      var n := |b| - 1;
      assert (a + b)[..|a + b| - 1] == a + b[..n];
      OverlayConcat(k, o, ids, a, b[..n]);
    }
  }

  lemma OverlayLogAgrees(k: Keccak, t: Tables, ids: set<Hash>, l: Log)
    requires ApplyLog(k, t, l).Ok?
    ensures OverlayLog(k, Restrict(t.clusters, ids), ids, l) == Ok(Restrict(ApplyLog(k, t, l).value.clusters, ids))
  {
    if l.payload.Handled? {
      var row := RowOf(k, l.payload.event);
      var c := row.clusterID;
      assert ApplyLog(k, t, l).value.clusters == t.clusters[c := row];
      assert Restrict(t.clusters[c := row], ids) ==
        if c in ids then Restrict(t.clusters, ids)[c := row] else Restrict(t.clusters, ids);
    }
  }

  /** Replaying on the restricted table is restricting the replayed table. */
  lemma {:induction false} OverlayAgrees(k: Keccak, t: Tables, ids: set<Hash>, logs: seq<Log>)
    requires Replay(k, t, logs).Ok?
    ensures OverlayReplay(k, Restrict(t.clusters, ids), ids, logs)
      == Ok(Restrict(Replay(k, t, logs).value.clusters, ids))
  {
    if logs != [] {
      var n := |logs| - 1;
      OverlayAgrees(k, t, ids, logs[..n]);
      OverlayLogAgrees(k, Replay(k, t, logs[..n]).value, ids, logs[n]);
    }
  }

  /** The overlay is more tolerant than the sync by exactly one thing: it accepts an added
      key of the wrong length, on which the sync stops. */
  lemma {:induction false} OverlayFailsExactly(k: Keccak, o: Overlay, ids: set<Hash>, logs: seq<Log>)
    ensures OverlayReplay(k, o, ids, logs).Ok? <==> forall i | 0 <= i < |logs| :: !logs[i].payload.Malformed?
  {
    if logs != [] {
      var n := |logs| - 1;
      OverlayFailsExactly(k, o, ids, logs[..n]);
      if OverlayReplay(k, o, ids, logs[..n]).Err? {
        var i :| 0 <= i < n && logs[..n][i].payload.Malformed?;
        assert logs[i].payload.Malformed?;
      }
    }
  }

  // ----- The synced prefix -----

  function Later(a: nat, b: nat): (r: nat)
    ensures r >= a && r >= b && (r == a || r == b)
  {
    if a >= b then a else b
  }

  /** The tables a database started at block start has once it is synced to block last. */
  function SyncedTo(k: Keccak, chain: seq<Log>, start: nat, last: int): Result<Tables> {
    Replay(k, EmptyTables(start), Slice(chain, start + 1, last))
  }

  /** The tables are the chain's replay from above start up to the cursor, no more, no less. */
  ghost predicate Synced(k: Keccak, chain: seq<Log>, start: nat, t: Tables) {
    && t.lastSynced >= start
    && SyncedTo(k, chain, start, t.lastSynced) == Ok(t.(lastSynced := start))
  }

  /** Applying the next slice moves a synced database to its end. */
  lemma SyncAdvances(k: Keccak, chain: seq<Log>, start: nat, t: Tables, last: nat)
    requires IsChain(chain) && Synced(k, chain, start, t) && t.lastSynced <= last
    ensures var r := Replay(k, t, Slice(chain, t.lastSynced + 1, last));
      && (r.Ok? ==> Synced(k, chain, start, r.value.(lastSynced := last)))
      && (r.Ok? <==> SyncedTo(k, chain, start, last).Ok?)
  {
    var a, b := Slice(chain, start + 1, t.lastSynced), Slice(chain, t.lastSynced + 1, last);
    SliceConcat(chain, start + 1, t.lastSynced, last);
    ReplayConcat(k, EmptyTables(start), a, b);
    ReplayCursor(k, t, b, start);
  }

  /** What a sync cannot get past it cannot get past later either. */
  lemma SyncedToFails(k: Keccak, chain: seq<Log>, start: nat, mid: nat, last: int)
    requires IsChain(chain) && start <= mid <= last && SyncedTo(k, chain, start, mid).Err?
    ensures SyncedTo(k, chain, start, last).Err?
  {
    SliceConcat(chain, start + 1, mid, last);
    ReplayConcat(k, EmptyTables(start), Slice(chain, start + 1, mid), Slice(chain, mid + 1, last));
  }

  /** The state of the requested clusters at block last, from their events alone. */
  function HeadState(k: Keccak, chain: seq<Log>, start: nat, last: int, ids: set<Hash>): Result<Overlay> {
    OverlayReplay(k, map[], ids, Slice(chain, start + 1, last))
  }

  /** It is what a full sync to that block leaves in the clusters table, restricted to the
      ids, whenever that sync succeeds. */
  lemma HeadStateIsFullSync(k: Keccak, chain: seq<Log>, start: nat, last: int, ids: set<Hash>)
    requires SyncedTo(k, chain, start, last).Ok?
    ensures HeadState(k, chain, start, last, ids) == Ok(Restrict(SyncedTo(k, chain, start, last).value.clusters, ids))
  {
    OverlayAgrees(k, EmptyTables(start), ids, Slice(chain, start + 1, last));
    assert Restrict(map[], ids) == map[];
  }

  /** The head state of a later block is the head state of an earlier one plus the events between. */
  lemma HeadExtends(k: Keccak, chain: seq<Log>, start: nat, mid: nat, last: int, ids: set<Hash>, overlay: Overlay)
    requires IsChain(chain) && start <= mid <= last && HeadState(k, chain, start, mid, ids) == Ok(overlay)
    ensures HeadState(k, chain, start, last, ids) == OverlayReplay(k, overlay, ids, Slice(chain, mid + 1, last))
  {
    SliceConcat(chain, start + 1, mid, last);
    OverlayConcat(k, map[], ids, Slice(chain, start + 1, mid), Slice(chain, mid + 1, last));
  }

  ghost predicate OverlayKeyed(k: Keccak, ids: set<Hash>, overlay: Overlay) {
    forall c | c in overlay :: c in ids && RowKeyed(k, c, overlay[c])
  }

  lemma {:induction false} OverlayKeepsKeys(k: Keccak, o: Overlay, ids: set<Hash>, logs: seq<Log>)
    requires OverlayKeyed(k, ids, o) && OverlayReplay(k, o, ids, logs).Ok?
    ensures OverlayKeyed(k, ids, OverlayReplay(k, o, ids, logs).value)
  {
    if logs != [] { OverlayKeepsKeys(k, o, ids, logs[..|logs|-1]); }
  }

  lemma SyncedKeys(k: Keccak, chain: seq<Log>, start: nat, t: Tables)
    requires Synced(k, chain, start, t)
    ensures WellKeyed(k, t)
  {
    ReplayKeepsKeys(k, EmptyTables(start), Slice(chain, start + 1, t.lastSynced));
  }

  /** A synced database's rows are the head state at its cursor. */
  lemma SyncedRows(k: Keccak, chain: seq<Log>, start: nat, t: Tables, ids: set<Hash>)
    requires Synced(k, chain, start, t)
    ensures t.lastSynced >= start && HeadState(k, chain, start, t.lastSynced, ids) == Ok(Restrict(t.clusters, ids))
  {
    hide Slice, Replay, OverlayReplay;
    HeadStateIsFullSync(k, chain, start, t.lastSynced, ids);
  }

  /** The row is that of the cluster's last event up to a block, field by field. */
  ghost predicate RowFromLast(k: Keccak, chain: seq<Log>, start: nat, last: int, c: Hash, row: ClusterRow) {
    exists e :: LastEvent(k, Slice(chain, start + 1, last), c, e) && Carries(row, e)
  }

  /** A synced database has rows for exactly the clusters with events up to its cursor, each
      that of the cluster's last event. */
  lemma SyncedFromLast(k: Keccak, chain: seq<Log>, start: nat, t: Tables, c: Hash)
    requires Synced(k, chain, start, t)
    ensures c in t.clusters <==> HasEvent(k, Slice(chain, start + 1, t.lastSynced), c)
    ensures c in t.clusters ==> RowFromLast(k, chain, start, t.lastSynced, c, t.clusters[c])
  {
    hide Slice, Replay, Carries, LastEvent;
    StoredClusters(k, Slice(chain, start + 1, t.lastSynced), start, c);
  }

  lemma {:induction false} OverlayFromLast(k: Keccak, ids: set<Hash>, logs: seq<Log>, c: Hash)
    requires OverlayReplay(k, map[], ids, logs).Ok?
    ensures var o := OverlayReplay(k, map[], ids, logs).value;
      && (c in o ==> c in ids && exists e :: LastEvent(k, logs, c, e))
      && (forall e :: LastEvent(k, logs, c, e) && c in ids ==> c in o && Carries(o[c], e))
  {
    if logs != [] {
      var n := |logs| - 1;
      OverlayFromLast(k, ids, logs[..n], c);
      assert logs == logs[..n] + [logs[n]];
      var o := OverlayReplay(k, map[], ids, logs[..n]).value;
      OverlayLogAt(k, o, ids, logs[n], c);
      hide LastEvent, Touches, Carries, OverlayLog;
      forall e ensures LastEvent(k, logs, c, e) <==>
          if Touches(k, logs[n], c) then e == logs[n].payload.event else LastEvent(k, logs[..n], c, e) {
        LastEventStep(k, logs[..n], logs[n], c, e);
      }
      if Touches(k, logs[n], c) {
        assert LastEvent(k, logs, c, logs[n].payload.event);
      }
    }
  }

  lemma OverlayLogAt(k: Keccak, o: Overlay, ids: set<Hash>, l: Log, c: Hash)
    requires OverlayLog(k, o, ids, l).Ok?
    ensures Touches(k, l, c) ==> l.payload.Handled?
    ensures var p := OverlayLog(k, o, ids, l).value;
      if Touches(k, l, c) && c in ids then c in p && Carries(p[c], l.payload.event)
      else (c in p <==> c in o) && (c in p ==> p[c] == o[c])
  {
    hide ClusterIDOf;
  }

  /** So does the head state, for the requested clusters. */
  lemma HeadFromLast(k: Keccak, chain: seq<Log>, start: nat, last: int, ids: set<Hash>, c: Hash)
    requires HeadState(k, chain, start, last, ids).Ok?
    ensures var o := HeadState(k, chain, start, last, ids).value;
      && (c in o <==> c in ids && HasEvent(k, Slice(chain, start + 1, last), c))
      && (c in o ==> RowFromLast(k, chain, start, last, c, o[c]))
  {
    hide Slice, OverlayReplay, Carries, LastEvent;
    OverlayFromLast(k, ids, Slice(chain, start + 1, last), c);
  }

  // ----- The syncer -----

  class EventSyncer {
    const keccak: Keccak
    const storage: Storage
    const client: Client

    constructor (keccak: Keccak, storage: Storage, client: Client)
      ensures this.keccak == keccak && this.storage == storage && this.client == client
    {
      this.keccak, this.storage, this.client := keccak, storage, client;
    }

    method UpsertClusterFromEvent(tx: Tx, e: ClusterEvent, clusterID: Hash) returns (ok: bool)
      requires clusterID == EventID(keccak, e)
      modifies tx, tx.store`faults
      ensures ok ==> tx.work == Events.UpsertCluster(old(tx.work), RowOf(keccak, e))
      ensures ok ==> clusterID in tx.work.clusters && Carries(tx.work.clusters[clusterID], e)
      ensures tx.store.faults == old(tx.store.faults) + if ok then 0 else 1
    {
      var row := ClusterRow(clusterID, e.owner, e.operatorIDs, e.cluster.validatorCount,
        e.cluster.networkFeeIndex, e.cluster.index, e.cluster.active, e.cluster.balance);
      ok := tx.UpsertCluster(row);
    }

    method HandleValidatorAdded(tx: Tx, e: ClusterEvent, clusterID: Hash) returns (ok: bool)
      requires e.ValidatorAdded? && clusterID == EventID(keccak, e)
      modifies tx, tx.store`faults
      ensures ok ==> ApplyEvent(keccak, old(tx.work), e) == Ok(tx.work)
      ensures tx.store.faults >= old(tx.store.faults)
      ensures ok <==> tx.store.faults == old(tx.store.faults) && ApplyEvent(keccak, old(tx.work), e).Ok?
    {
      ok := UpsertClusterFromEvent(tx, e, clusterID);
      if !ok { return; }
      ok := tx.InsertValidator((clusterID, e.publicKey));
    }

    method HandleValidatorRemoved(tx: Tx, e: ClusterEvent, clusterID: Hash) returns (ok: bool)
      requires e.ValidatorRemoved? && clusterID == EventID(keccak, e)
      modifies tx, tx.store`faults
      ensures ok ==> ApplyEvent(keccak, old(tx.work), e) == Ok(tx.work)
      ensures tx.store.faults == old(tx.store.faults) + if ok then 0 else 1
    {
      ok := tx.DeleteValidator((clusterID, e.publicKey));
      if !ok { return; }
      ok := UpsertClusterFromEvent(tx, e, clusterID);
    }

    /** One log. Unless a statement fails, it succeeds exactly when the replay does. */
    method ProcessLog(tx: Tx, log: Log) returns (ok: bool, known: bool)
      modifies tx, tx.store`faults
      ensures ok ==> ApplyLog(keccak, old(tx.work), log) == Ok(tx.work) && known == log.payload.Handled?
      ensures tx.store.faults >= old(tx.store.faults)
      ensures ok <==> tx.store.faults == old(tx.store.faults) && ApplyLog(keccak, old(tx.work), log).Ok?
    {
      known := false;
      match log.payload {
        case UnknownSignature =>
          ok := tx.InsertEvent();
        case Malformed =>
          ok := false;
        case Handled(e) =>
          known := true;
          var clusterID := ComputeClusterID(keccak, e.owner, e.operatorIDs);
          ok := tx.InsertEvent();
          if !ok { return; }
          if e.ValidatorAdded? {
            ok := HandleValidatorAdded(tx, e, clusterID);
          } else if e.ValidatorRemoved? {
            ok := HandleValidatorRemoved(tx, e, clusterID);
          } else {
            ok := UpsertClusterFromEvent(tx, e, clusterID);
          }
      }
    }

    /** The inner loop of ProcessBatch: the logs of one block. */
    method ProcessBlock(tx: Tx, logs: seq<Log>) returns (ok: bool)
      modifies tx, tx.store`faults
      ensures ok ==> Replay(keccak, old(tx.work), logs) == Ok(tx.work)
      ensures tx.store.faults >= old(tx.store.faults)
      ensures ok <==> tx.store.faults == old(tx.store.faults) && Replay(keccak, old(tx.work), logs).Ok?
    {
      for i := 0 to |logs|
        invariant Replay(keccak, old(tx.work), logs[..i]) == Ok(tx.work) && tx.store.faults == old(tx.store.faults)
      {
        ReplayOne(keccak, old(tx.work), logs[..i], logs[i]);
        assert logs[..i+1] == logs[..i] + [logs[i]];
        var applied, known := ProcessLog(tx, logs[i]);
        if !applied {
          assert logs == logs[..i+1] + logs[i+1..];
          ReplayConcat(keccak, old(tx.work), logs[..i+1], logs[i+1..]);
          return false;
        }
      }
      assert logs[..|logs|] == logs;
      ok := true;
    }

    /** All logs of a batch and the cursor move take effect together or not at all; unless a
        statement fails, they do exactly when the logs can be replayed. */
    method ProcessBatch(batchEnd: nat, groups: seq<BlockLogs>) returns (ok: bool)
      modifies storage`tables, storage`faults
      ensures ok ==> var r := Replay(keccak, old(storage.tables), Flatten(groups));
        r.Ok? && storage.tables == r.value.(lastSynced := batchEnd)
      ensures !ok ==> storage.tables == old(storage.tables)
      ensures storage.faults >= old(storage.faults)
      ensures ok <==> storage.faults == old(storage.faults) && Replay(keccak, old(storage.tables), Flatten(groups)).Ok?
    {
      hide Replay, Flatten;
      FlattenNone(keccak, storage.tables);
      if |groups| == 0 {
        ok := storage.UpdateLastSyncedBlock(batchEnd);
        return;
      }
      var begun := storage.BeginTx();
      if begun.None? { return false; }
      var tx := begun.value;
      for g := 0 to |groups|
        invariant fresh(tx) && tx.store == storage && storage.tables == old(storage.tables)
        invariant storage.faults == old(storage.faults)
        invariant Replay(keccak, old(storage.tables), Flatten(groups[..g])) == Ok(tx.work)
      {
        FlattenStep(keccak, old(storage.tables), groups, g);
        ok := ProcessBlock(tx, groups[g].logs);
        if !ok { return; }
      }
      assert groups[..|groups|] == groups;
      ok := tx.UpdateLastSyncedBlock(batchEnd);
      if !ok { return; }
      ok := tx.Commit();
    }

    /** One uninterrupted call; SyncProtocol covers the interleavings of its two threads. If
        ranges run forward to the target, the tables stay the chain's replay up to the cursor
        however the call ends, the cursor does not pass the target, and unless something
        fails the call succeeds exactly when all logs up to the target can be replayed. */
    method SyncToBlock(targetBlock: u64, ghost start: nat) returns (ok: bool)
      requires client.Valid() && Synced(keccak, client.chain, start, storage.tables)
      modifies storage`tables, storage`faults, client.batchSize`current, client`faults
      ensures client.Valid() && storage.faults >= old(storage.faults) && client.faults >= old(client.faults)
      ensures RunsForward(targetBlock, client.batchSize.max) ==>
        && Synced(keccak, client.chain, start, storage.tables)
        && old(storage.tables.lastSynced) <= storage.tables.lastSynced
        && storage.tables.lastSynced <= Later(old(storage.tables.lastSynced), targetBlock)
        && (ok ==> storage.tables.lastSynced == Later(old(storage.tables.lastSynced), targetBlock))
      ensures RunsForward(targetBlock, client.batchSize.max) ==>
        storage.faults == old(storage.faults) && client.faults == old(client.faults) ==>
        (ok <==> SyncedTo(keccak, client.chain, start, Later(old(storage.tables.lastSynced), targetBlock)).Ok?)
    {
      hide Slice, IsChain, Replay, Covers, IsBatch, SyncedTo;
      ghost var forward := RunsForward(targetBlock, client.batchSize.max);
      var read := storage.GetLastSyncedBlock();
      if read.Err? { return false; }
      var lastSynced := read.value;
      if lastSynced >= targetBlock {
        return true;
      }
      var budget: int := *;
      if budget < 0 { budget := 0; }
      var rounds := targetBlock - lastSynced + budget;
      var batches, outcome, _ := client.FetchLogs(lastSynced + 1, targetBlock, budget, rounds);
      ghost var fetched := client.faults;
      for i := 0 to |batches|
        invariant client.Valid() && storage.faults == old(storage.faults) && client.faults == fetched
        invariant forward ==> Synced(keccak, client.chain, start, storage.tables)
        invariant forward ==> storage.tables.lastSynced + 1 == NextBlock(lastSynced + 1, batches[..i])
        invariant forward ==> lastSynced <= storage.tables.lastSynced <= targetBlock
      {
        if forward { CoversPrefix(client.chain, lastSynced + 1, targetBlock, batches, i); }
        assert batches[..i+1] == batches[..i] + [batches[i]];
        ok := ApplyBatch(batches[i], targetBlock, forward, start);
        if !ok { return; }
      }
      assert batches[..|batches|] == batches;
      ok := outcome.Completed?;
    }

    /** The processor's half of one batch; if it lies ahead of the cursor and holds the
        chain's logs, the tables stay the chain's replay. */
    method ApplyBatch(b: Batch, ghost targetBlock: nat, ghost forward: bool, ghost start: nat) returns (ok: bool)
      requires forward ==> IsChain(client.chain) && Synced(keccak, client.chain, start, storage.tables)
      requires forward ==> storage.tables.lastSynced < b.batchEnd <= targetBlock
      requires forward ==> IsBatch(client.chain, storage.tables.lastSynced + 1, b)
      modifies storage`tables, storage`faults
      ensures storage.faults >= old(storage.faults) && (ok ==> storage.faults == old(storage.faults))
      ensures forward ==> Synced(keccak, client.chain, start, storage.tables)
      ensures forward && ok ==> storage.tables.lastSynced == b.batchEnd
      ensures !ok ==> storage.tables == old(storage.tables)
      ensures forward && !ok && storage.faults == old(storage.faults) ==>
        SyncedTo(keccak, client.chain, start, targetBlock).Err?
    {
      hide Slice, IsChain, Replay, SyncedTo;
      ghost var before := storage.tables;
      ok := ProcessBatch(b.batchEnd, b.groups);
      if forward {
        SyncAdvances(keccak, client.chain, start, before, b.batchEnd);
        if !ok && storage.faults == old(storage.faults) {
          SyncedToFails(keccak, client.chain, start, b.batchEnd, targetBlock);
        }
      }
    }

    /** What the oracle's thread may do meanwhile: commit any number of further batches. */
    method OtherCommits(ghost start: nat)
      requires Synced(keccak, client.chain, start, storage.tables) && IsChain(client.chain)
      modifies storage`tables, storage`faults
      ensures Synced(keccak, client.chain, start, storage.tables)
      ensures storage.tables.lastSynced >= old(storage.tables.lastSynced) && storage.faults >= old(storage.faults)
    {
      var rounds: int := *;
      while rounds > 0
        invariant Synced(keccak, client.chain, start, storage.tables)
        invariant storage.tables.lastSynced >= old(storage.tables.lastSynced) && storage.faults >= old(storage.faults)
      {
        var batchEnd: int := *;
        if batchEnd > storage.tables.lastSynced { SyncOneBatch(batchEnd, start); }
        rounds := rounds - 1;
      }
    }

    /** One fetched batch of the oracle's thread, whichever way it ends. */
    method SyncOneBatch(batchEnd: nat, ghost start: nat)
      requires Synced(keccak, client.chain, start, storage.tables) && IsChain(client.chain)
      requires batchEnd > storage.tables.lastSynced
      modifies storage`tables, storage`faults
      ensures Synced(keccak, client.chain, start, storage.tables) && storage.faults >= old(storage.faults)
      ensures storage.tables.lastSynced == batchEnd || storage.tables == old(storage.tables)
    {
      hide Slice, IsChain, Replay;
      ghost var before := storage.tables;
      var group := BlockLogs(batchEnd, 0, Slice(client.chain, storage.tables.lastSynced + 1, batchEnd));
      FlattenOne(group);
      var ok := ProcessBatch(batchEnd, [group]);
      if ok {
        SyncAdvances(keccak, client.chain, start, before, batchEnd);
      }
    }

    /** The callback of the head fetch: the logs of one block applied to the overlay. */
    method ApplyBlockToOverlay(overlay: Overlay, requested: set<Hash>, logs: seq<Log>) returns (r: Result<Overlay>)
      ensures r == OverlayReplay(keccak, overlay, requested, logs)
    {
      var current: Overlay := overlay;
      for i := 0 to |logs|
        invariant OverlayReplay(keccak, overlay, requested, logs[..i]) == Ok(current)
      {
        OverlayOne(keccak, overlay, requested, logs[..i], logs[i]);
        assert logs[..i+1] == logs[..i] + [logs[i]];
        match logs[i].payload {
          case UnknownSignature =>
          case Malformed =>
            OverlayFailsExactly(keccak, overlay, requested, logs);
            return Err;
          case Handled(e) =>
            var id := ComputeClusterID(keccak, e.owner, e.operatorIDs);
            if id in requested {
              current := current[id := ClusterRow(id, e.owner, e.operatorIDs, e.cluster.validatorCount,
                e.cluster.networkFeeIndex, e.cluster.index, e.cluster.active, e.cluster.balance)];
            }
        }
      }
      assert logs[..|logs|] == logs;
      r := Ok(current);
    }

    method ApplyBatchToOverlay(overlay: Overlay, requested: set<Hash>, groups: seq<BlockLogs>)
      returns (r: Result<Overlay>)
      ensures r == OverlayReplay(keccak, overlay, requested, Flatten(groups))
    {
      var current: Overlay := overlay;
      for g := 0 to |groups|
        invariant OverlayReplay(keccak, overlay, requested, Flatten(groups[..g])) == Ok(current)
      {
        var applied := ApplyBlockToOverlay(current, requested, groups[g].logs);
        assert groups[..g+1][..g] == groups[..g];
        OverlayConcat(keccak, overlay, requested, Flatten(groups[..g]), groups[g].logs);
        if applied.Err? {
          FlattenSplit(groups, g + 1);
          OverlayConcat(keccak, overlay, requested, Flatten(groups[..g+1]), Flatten(groups[g+1..]));
          return Err;
        }
        current := applied.value;
      }
      assert groups[..|groups|] == groups;
      r := Ok(current);
    }

    method ApplyBatchesToOverlay(overlay: Overlay, requested: set<Hash>, batches: seq<Batch>)
      returns (r: Result<Overlay>)
      ensures r == OverlayReplay(keccak, overlay, requested, BatchLogs(batches))
    {
      var current: Overlay := overlay;
      for i := 0 to |batches|
        invariant OverlayReplay(keccak, overlay, requested, BatchLogs(batches[..i])) == Ok(current)
      {
        var applied := ApplyBatchToOverlay(current, requested, batches[i].groups);
        assert batches[..i+1][..i] == batches[..i];
        OverlayConcat(keccak, overlay, requested, BatchLogs(batches[..i]), Flatten(batches[i].groups));
        if applied.Err? {
          BatchLogsSplit(batches, i + 1);
          OverlayConcat(keccak, overlay, requested, BatchLogs(batches[..i+1]), BatchLogs(batches[i+1..]));
          return Err;
        }
        current := applied.value;
      }
      assert batches[..|batches|] == batches;
      r := Ok(current);
    }

    /** The overlay starts as the finalized rows, keyed by their ids. */
    method SeedOverlay(finalized: seq<ClusterRow>, ghost clusters: map<Hash, ClusterRow>, ghost ids: seq<Hash>)
      returns (overlay: Overlay)
      requires forall c | c in clusters :: clusters[c].clusterID == c
      requires RowsOf(finalized, ids, clusters)
      ensures overlay == Restrict(clusters, IdSet(ids))
    {
      overlay := map[];
      for i := 0 to |finalized|
        invariant forall j | 0 <= j < i :: finalized[j].clusterID in overlay
        invariant forall c | c in overlay :: c in clusters && c in ids && overlay[c] == clusters[c]
      {
        assert finalized[i] in finalized;
        overlay := overlay[finalized[i].clusterID := finalized[i]];
      }
      forall c | c in clusters && c in ids ensures c in overlay {
        assert clusters[c] in finalized;
      }
    }

    /** Fetch the events after the cursor up to the head and apply them; unless a request
        fails, the result is the replay of those events, errors included. */
    method ReplayHead(overlay: Overlay, requested: set<Hash>, lastSynced: nat, headNum: u64, ghost start: nat)
      returns (r: Result<Overlay>)
      requires client.Valid() && Synced(keccak, client.chain, start, storage.tables)
      requires lastSynced < headNum && OverlayKeyed(keccak, requested, overlay)
      modifies storage`tables, storage`faults, client.batchSize`current, client`faults
      ensures client.Valid() && Synced(keccak, client.chain, start, storage.tables)
      ensures storage.tables.lastSynced >= old(storage.tables.lastSynced) && storage.faults >= old(storage.faults)
      ensures client.faults >= old(client.faults)
      ensures RunsForward(headNum, client.batchSize.max) && (r.Ok? || client.faults == old(client.faults)) ==>
        r == OverlayReplay(keccak, overlay, requested, Slice(client.chain, lastSynced + 1, headNum))
      ensures r.Ok? ==> OverlayKeyed(keccak, requested, r.value)
    {
      hide Slice, IsChain, Replay, OverlayReplay, OverlayKeyed;
      var budget: int := *;
      if budget < 0 { budget := 0; }
      var batches, outcome, _ := client.FetchLogs(lastSynced + 1, headNum, budget, headNum - lastSynced + budget);
      OtherCommits(start);
      if RunsForward(headNum, client.batchSize.max) {
        BatchesAreSlice(client.chain, lastSynced + 1, headNum, batches);
      }
      r := ApplyBatchesToOverlay(overlay, requested, batches);
      if r.Ok? { OverlayKeepsKeys(keccak, overlay, requested, BatchLogs(batches)); }
      if !outcome.Completed? { return Err; }
    }

    /** The atomic read: the finalized rows together with the cursor they belong to. */
    method ReadFinalized(clusterIDs: seq<Hash>, ghost start: nat) returns (r: Result<(Overlay, nat)>)
      requires Synced(keccak, client.chain, start, storage.tables)
      modifies storage`faults
      ensures r.Ok? ==> r.value.1 == storage.tables.lastSynced >= start
      ensures r.Ok? ==> HeadState(keccak, client.chain, start, r.value.1, IdSet(clusterIDs)) == Ok(r.value.0)
      ensures r.Ok? ==> OverlayKeyed(keccak, IdSet(clusterIDs), r.value.0)
      ensures storage.faults == old(storage.faults) + if r.Err? then 1 else 0
    {
      var read := storage.GetFinalizedClusters(clusterIDs);
      if read.Err? { return Err; }
      SyncedKeys(keccak, client.chain, start, storage.tables);
      var overlay := SeedOverlay(read.value.0, storage.tables.clusters, clusterIDs);
      SyncedRows(keccak, client.chain, start, storage.tables, IdSet(clusterIDs));
      r := Ok((overlay, read.value.1));
    }

    /** The head overlay. It asks for the head block once, after reading rows and cursor
        atomically, and the overlay is the state of the requested clusters at the later of
        that cursor and that head, although the syncer may commit further batches before,
        between and after the reads. Unless something fails, errors are those of the replay
        too. */
    method BuildHeadStateSnapshot(clusterIDs: seq<Hash>, ghost start: nat)
      returns (r: Result<Overlay>, ghost cursor: nat, ghost last: nat)
      requires client.Valid() && Synced(keccak, client.chain, start, storage.tables)
      modifies storage`tables, storage`faults, client.batchSize`current, client`heads, client`faults
      ensures client.Valid() && Synced(keccak, client.chain, start, storage.tables)
      ensures storage.faults >= old(storage.faults) && client.faults >= old(client.faults)
      ensures storage.tables.lastSynced >= old(storage.tables.lastSynced)
      ensures r.Ok? || (storage.faults == old(storage.faults) && client.faults == old(client.faults)) ==>
        && |client.heads| == |old(client.heads)| + 1 && client.heads[..|old(client.heads)|] == old(client.heads)
        && IsHeadState(old(storage.tables.lastSynced), cursor, storage.tables.lastSynced,
                       client.heads[|old(client.heads)|], last, clusterIDs, start, r)
      ensures r.Ok? ==> OverlayKeyed(keccak, IdSet(clusterIDs), r.value)
    {
      hide Slice, IsChain, Replay, OverlayReplay, OverlayKeyed, Synced;
      cursor, last := 0, 0;
      OtherCommits(start);
      var read := ReadFinalized(clusterIDs, start);
      if read.Err? { return Err, cursor, last; }
      var overlay, lastSynced := read.value.0, read.value.1;
      cursor := lastSynced;
      OtherCommits(start);
      var head := client.GetHeadBlock();
      if head.Err? { return Err, cursor, last; }
      last := Later(cursor, head.value);
      if lastSynced >= head.value {
        return Ok(overlay), cursor, last;
      }
      r := ReplayHead(overlay, IdSet(clusterIDs), lastSynced, head.value, start);
      HeadExtends(keccak, client.chain, start, lastSynced, last, IdSet(clusterIDs), overlay);
    }

    /** r is the state at the later of a cursor read meanwhile and the head, provided that
        ranges run forward to the head. */
    ghost predicate IsHeadState(before: nat, cursor: nat, after: nat, head: u64, last: nat, clusterIDs: seq<Hash>,
                                start: nat, r: Result<Overlay>)
      reads client.batchSize
    {
      && before <= cursor <= after && last == Later(cursor, head)
      && (RunsForward(head, client.batchSize.max) || cursor >= head ==>
          r == HeadState(keccak, client.chain, start, last, IdSet(clusterIDs)))
    }

    /** What the overlay holds: of the clusters asked for exactly those with events up to the
        later of cursor and head, each with the fields of its last event. */
    lemma SnapshotExactly(before: nat, cursor: nat, after: nat, head: u64, last: nat, clusterIDs: seq<Hash>, start: nat,
                          r: Result<Overlay>, c: Hash)
      requires IsHeadState(before, cursor, after, head, last, clusterIDs, start, r) && r.Ok?
      requires RunsForward(head, client.batchSize.max) || cursor >= head
      ensures last >= cursor && last >= head && (last == cursor || last == head)
      ensures c in r.value <==> c in clusterIDs && HasEvent(keccak, Slice(client.chain, start + 1, last), c)
      ensures c in r.value ==> RowFromLast(keccak, client.chain, start, last, c, r.value[c])
    {
      hide HeadState, HasEvent, RowFromLast, Slice, RunsForward;
      HeadFromLast(keccak, client.chain, start, last, IdSet(clusterIDs), c);
    }
  }

  lemma FlattenNone(k: Keccak, t: Tables)
    ensures Flatten([]) == [] && Replay(k, t, []) == Ok(t)
  {
  }

  /** One more group: the replay so far with the group's logs, and, if that fails, a replay
      of everything that fails. */
  lemma FlattenStep(k: Keccak, t: Tables, groups: seq<BlockLogs>, g: nat)
    requires g < |groups| && Replay(k, t, Flatten(groups[..g])).Ok?
    ensures var u := Replay(k, t, Flatten(groups[..g])).value;
      && Replay(k, t, Flatten(groups[..g+1])) == Replay(k, u, groups[g].logs)
      && (Replay(k, u, groups[g].logs).Err? ==> Replay(k, t, Flatten(groups)).Err?)
  {
    assert groups[..g+1][..g] == groups[..g];
    ReplayConcat(k, t, Flatten(groups[..g]), groups[g].logs);
    FlattenSplit(groups, g + 1);
    ReplayConcat(k, t, Flatten(groups[..g+1]), Flatten(groups[g+1..]));
  }
}
