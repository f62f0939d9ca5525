/** The database (storage/storage.go, storage/schema.sql). Any statement may fail; a failed
    statement leaves the tables as they were and counts as a fault. */
module Storage {
  import opened Bytes
  import opened Events
  import opened Order

  datatype ClusterBalance = ClusterBalance(clusterID: Hash, effectiveBalance: u32)

  datatype CommitStatus = Pending | Confirmed | Failed

  datatype CommitRow = CommitRow(merkleRoot: Hash, referenceBlock: nat, balances: seq<ClusterBalance>,
    status: CommitStatus, txHash: Option<Hash>)

  type Commits = map<nat, CommitRow>

  datatype ClusterRead = ClusterRead(id: Hash, answer: Result<Option<ClusterRow>>)

  datatype CommitRead = CommitRead(block: nat, answer: Result<Option<CommitRow>>)

  /** One status write and whether it went through. */
  datatype StatusWrite = StatusWrite(epoch: nat, status: CommitStatus, ok: bool)

  const CLUSTER_BATCH_SIZE := 1000

  predicate BlockTaken(commits: Commits, block: nat) {
    exists e :: e in commits && commits[e].referenceBlock == block
  }

  /** A second row for an epoch is ignored; a second epoch for a block is an error. */
  function InsertCommit(commits: Commits, epoch: nat, root: Hash, block: nat,
                        balances: seq<ClusterBalance>): Result<Commits> {
    if epoch in commits then Ok(commits)
    else if BlockTaken(commits, block) then Err
    else Ok(commits[epoch := CommitRow(root, block, balances, Pending, None)])
  }

  /** Only a pending row changes status; a missing hash keeps the stored one. */
  function UpdateStatus(commits: Commits, epoch: nat, status: CommitStatus, txHash: Option<Hash>): Commits {
    if epoch in commits && commits[epoch].status.Pending? then
      var row := commits[epoch];
      commits[epoch := row.(status := status, txHash := if txHash.Some? then txHash else row.txHash)]
    else commits
  }

  /** The rows of those ids that have one, in any order. */
  ghost predicate RowsOf(rows: seq<ClusterRow>, ids: seq<Hash>, clusters: map<Hash, ClusterRow>) {
    forall row :: row in rows <==> exists id :: id in ids && id in clusters && row == clusters[id]
  }

  /** The rows of some ids, in their order, no id twice. */
  ghost predicate ListsOnce(rows: seq<ClusterRow>, ids: seq<Hash>, clusters: map<Hash, ClusterRow>) {
    Distinct(ids) && |rows| == |ids| && forall i | 0 <= i < |ids| :: ids[i] in clusters && rows[i] == clusters[ids[i]]
  }

  lemma RowsAppend(a: seq<ClusterRow>, b: seq<ClusterRow>, ids: seq<Hash>, more: seq<Hash>,
                   clusters: map<Hash, ClusterRow>)
    requires RowsOf(a, ids, clusters) && RowsOf(b, more, clusters)
    ensures RowsOf(a + b, ids + more, clusters)
  {
    forall row ensures row in a + b <==> exists id :: id in ids + more && id in clusters && row == clusters[id] {
      if id :| id in ids + more && id in clusters && row == clusters[id] {
        assert id in ids || id in more;
      }
      if row in a {
        var id :| id in ids && id in clusters && row == clusters[id];
        assert id in ids + more;
      }
    }
  }

  function ValidatorKey(v: Validator): seq<int> { v.0 + v.1 }

  /** Ordered by cluster, within a cluster by key, both byte by byte. */
  ghost predicate InKeyOrder(vs: seq<Validator>) {
    forall i, j | 0 <= i < j < |vs| ::
      NotAbove(vs[i].0, vs[j].0) && (vs[i].0 == vs[j].0 ==> LexLe(vs[i].1, vs[j].1))
  }

  lemma {:induction false} LexAfterPrefix(p: seq<int>, q: seq<int>, x: seq<int>, y: seq<int>)
    requires |p| == |q| && LexLe(p + x, q + y)
    ensures LexLe(p, q) && (p == q ==> LexLe(x, y))
  {
    if p == [] {
      assert p + x == x && q + y == y;
    } else if p[0] == q[0] {
      assert (p + x)[1..] == p[1..] + x && (q + y)[1..] == q[1..] + y;
      LexAfterPrefix(p[1..], q[1..], x, y);
    }
  }

  lemma SortedInKeyOrder(vs: seq<Validator>)
    requires SortedBy(vs, ValidatorKey)
    ensures InKeyOrder(vs)
  {
    hide LexLe;
    forall i, j | 0 <= i < j < |vs|
      ensures NotAbove(vs[i].0, vs[j].0) && (vs[i].0 == vs[j].0 ==> LexLe(vs[i].1, vs[j].1)) {
      LexAfterPrefix(vs[i].0, vs[j].0, vs[i].1, vs[j].1);
      LexByFirstDifference(vs[i].0, vs[j].0);
    }
  }

  class Storage {
    var tables: Tables
    var commits: Commits
    /** Every status write tried so far. */
    ghost var statusWrites: seq<StatusWrite>
    /** Every look-up of a cluster or a commit so far, with its answer. */
    ghost var clusterReads: seq<ClusterRead>
    ghost var commitReads: seq<CommitRead>
    /** How many statements have failed. */
    ghost var faults: nat

    constructor (cursor: nat)
      ensures tables == EmptyTables(cursor) && commits == map[]
      ensures statusWrites == [] && clusterReads == [] && commitReads == [] && faults == 0
    {
      tables, commits := EmptyTables(cursor), map[];
      statusWrites, clusterReads, commitReads, faults := [], [], [], 0;
    }

    /** Whether a statement fails. */
    method Fails() returns (fails: bool)
      modifies this`faults
      ensures faults == old(faults) + if fails then 1 else 0
    {
      fails := *;
      faults := faults + if fails then 1 else 0;
    }

    method GetLastSyncedBlock() returns (r: Result<nat>)
      modifies this`faults
      ensures r.Ok? ==> r.value == tables.lastSynced
      ensures faults == old(faults) + if r.Err? then 1 else 0
    {
      var fails := Fails();
      r := if fails then Err else Ok(tables.lastSynced);
    }

    method UpdateLastSyncedBlock(block: nat) returns (ok: bool)
      modifies this`tables, this`faults
      ensures tables == if ok then old(tables).(lastSynced := block) else old(tables)
      ensures faults == old(faults) + if ok then 0 else 1
    {
      var fails := Fails();
      ok := !fails;
      if ok { tables := tables.(lastSynced := block); }
    }

    method BeginTx() returns (r: Option<Tx>)
      modifies this`faults
      ensures r.Some? ==> fresh(r.value) && r.value.store == this && r.value.work == tables
      ensures faults == old(faults) + if r.None? then 1 else 0
    {
      var fails := Fails();
      if fails { return None; }
      var tx := new Tx(this);
      r := Some(tx);
    }

    method GetCluster(id: Hash) returns (r: Result<Option<ClusterRow>>)
      modifies this`clusterReads, this`faults
      ensures r.Ok? ==> r.value == if id in tables.clusters then Some(tables.clusters[id]) else None
      ensures clusterReads == old(clusterReads) + [ClusterRead(id, r)]
      ensures faults == old(faults) + if r.Err? then 1 else 0
    {
      var fails := Fails();
      r := if fails then Err else Ok(if id in tables.clusters then Some(tables.clusters[id]) else None);
      clusterReads := clusterReads + [ClusterRead(id, r)];
    }

    /** One query for at most CLUSTER_BATCH_SIZE ids: a row for each that exists, in no
        particular order. */
    method QueryClusterRowsBatch(ids: seq<Hash>) returns (r: Result<seq<ClusterRow>>)
      requires 0 < |ids| <= CLUSTER_BATCH_SIZE
      modifies this`faults
      ensures r.Ok? ==> RowsOf(r.value, ids, tables.clusters)
      ensures r.Ok? ==> exists found :: ListsOnce(r.value, found, tables.clusters)
      ensures faults == old(faults) + if r.Err? then 1 else 0
    {
      var fails := Fails();
      if fails { return Err; }
      var rows: seq<ClusterRow> := [];
      ghost var found: seq<Hash> := [];
      var todo := set id | id in ids && id in tables.clusters;
      while todo != {}
        invariant todo <= (set id | id in ids && id in tables.clusters)
        invariant forall row :: row in rows <==>
          exists id :: id in ids && id in tables.clusters && id !in todo && row == tables.clusters[id]
        invariant ListsOnce(rows, found, tables.clusters) && forall id | id in found :: id !in todo
      {
        var id :| id in todo;
        rows, found := rows + [tables.clusters[id]], found + [id];
        todo := todo - {id};
      }
      r := Ok(rows);
    }

    /** The rows of the requested clusters and the cursor, read in one transaction. */
    method GetFinalizedClusters(ids: seq<Hash>) returns (r: Result<(seq<ClusterRow>, nat)>)
      modifies this`faults
      ensures r.Ok? ==> r.value.1 == tables.lastSynced
      ensures r.Ok? ==> RowsOf(r.value.0, ids, tables.clusters)
      ensures faults == old(faults) + if r.Err? then 1 else 0
    {
      var rows: seq<ClusterRow> := [];
      var start := 0;
      while start < |ids|
        invariant 0 <= start <= |ids| && faults == old(faults)
        invariant RowsOf(rows, ids[..start], tables.clusters)
      {
        var end := start + CLUSTER_BATCH_SIZE;
        if end > |ids| {
          end := |ids|;
        }
        var batch := QueryClusterRowsBatch(ids[start..end]);
        if batch.Err? { return Err; }
        assert ids[..end] == ids[..start] + ids[start..end];
        RowsAppend(rows, batch.value, ids[..start], ids[start..end], tables.clusters);
        rows := rows + batch.value;
        start := end;
      }
      assert ids[..|ids|] == ids;
      var last := GetLastSyncedBlock();
      if last.Err? { return Err; }
      r := Ok((rows, last.value));
    }

    /** Every validator of an active cluster once, ordered by cluster and key. */
    method GetActiveValidators() returns (r: Result<seq<Validator>>)
      modifies this`faults
      ensures r.Ok? ==> Distinct(r.value) && (forall v :: v in r.value <==> v in ActiveSet(tables))
      ensures r.Ok? ==> SortedBy(r.value, ValidatorKey) && InKeyOrder(r.value)
      ensures faults == old(faults) + if r.Err? then 1 else 0
    {
      var fails := Fails();
      if fails { return Err; }
      var found: seq<Validator> := [];
      var todo := set v | v in tables.validators && v.0 in tables.clusters && tables.clusters[v.0].isActive;
      while todo != {}
        invariant todo <= ActiveSet(tables) && Distinct(found)
        invariant forall v :: v in found <==> v in ActiveSet(tables) && v !in todo
      {
        var v :| v in todo;
        found := found + [v];
        todo := todo - {v};
      }
      var ordered := Sort(found, ValidatorKey);
      DistinctPermutation(found, ordered);
      MultisetMembers(found, ordered);
      SortedInKeyOrder(ordered);
      r := Ok(ordered);
    }

    method InsertPendingCommit(epoch: nat, root: Hash, block: nat, balances: seq<ClusterBalance>) returns (ok: bool)
      modifies this`commits, this`faults
      ensures ok ==> InsertCommit(old(commits), epoch, root, block, balances) == Ok(commits)
      ensures !ok ==> commits == old(commits)
      ensures faults >= old(faults)
      ensures ok <==> faults == old(faults) && InsertCommit(old(commits), epoch, root, block, balances).Ok?
    {
      var fails := Fails();
      if fails { return false; }
      if epoch in commits {
        return true;
      }
      if BlockTaken(commits, block) { return false; }
      commits := commits[epoch := CommitRow(root, block, balances, Pending, None)];
      ok := true;
    }

    method UpdateCommitStatus(epoch: nat, status: CommitStatus, txHash: Option<Hash>) returns (ok: bool)
      modifies this`commits, this`statusWrites, this`faults
      ensures commits == if ok then UpdateStatus(old(commits), epoch, status, txHash) else old(commits)
      ensures statusWrites == old(statusWrites) + [StatusWrite(epoch, status, ok)]
      ensures faults == old(faults) + if ok then 0 else 1
    {
      var fails := Fails();
      ok := !fails;
      statusWrites := statusWrites + [StatusWrite(epoch, status, ok)];
      if ok && epoch in commits && commits[epoch].status.Pending? {
        var row := commits[epoch];
        commits := commits[epoch := row.(status := status, txHash := if txHash.Some? then txHash else row.txHash)];
      }
    }

    method GetCommitByBlock(block: nat) returns (r: Result<Option<CommitRow>>)
      modifies this`commitReads, this`faults
      ensures r.Ok? && r.value.Some? ==> r.value.value in commits.Values && r.value.value.referenceBlock == block
      ensures r.Ok? && r.value.None? ==> !BlockTaken(commits, block)
      ensures commitReads == old(commitReads) + [CommitRead(block, r)]
      ensures faults == old(faults) + if r.Err? then 1 else 0
    {
      var fails := Fails();
      if fails {
        r := Err;
      } else if e :| e in commits && commits[e].referenceBlock == block {
        r := Ok(Some(commits[e]));
      } else {
        r := Ok(None);
      }
      commitReads := commitReads + [CommitRead(block, r)];
    }
  }

  /** A write transaction: a private copy of the tables that Commit puts in place. */
  class Tx {
    const store: Storage
    var work: Tables

    constructor (store: Storage)
      ensures this.store == store && work == store.tables
    {
      this.store, work := store, store.tables;
    }

    /** The audit table, which nothing here reads: only the failure shows. */
    method InsertEvent() returns (ok: bool)
      modifies store`faults
      ensures store.faults == old(store.faults) + if ok then 0 else 1
    {
      var fails := store.Fails();
      ok := !fails;
    }

    method UpsertCluster(row: ClusterRow) returns (ok: bool)
      modifies this, store`faults
      ensures work == if ok then Events.UpsertCluster(old(work), row) else old(work)
      ensures store.faults == old(store.faults) + if ok then 0 else 1
    {
      var fails := store.Fails();
      ok := !fails;
      if ok { work := work.(clusters := work.clusters[row.clusterID := row]); }
    }

    method InsertValidator(v: Validator) returns (ok: bool)
      modifies this, store`faults
      ensures ok ==> Events.InsertValidator(old(work), v) == Ok(work)
      ensures !ok ==> work == old(work)
      ensures store.faults >= old(store.faults)
      ensures ok <==> store.faults == old(store.faults) && Events.InsertValidator(old(work), v).Ok?
    {
      if |v.1| != PUBKEY_LENGTH {
        return false;
      }
      var fails := store.Fails();
      ok := !fails && v.0 in work.clusters;
      if ok { work := work.(validators := work.validators + {v}); }
    }

    method DeleteValidator(v: Validator) returns (ok: bool)
      modifies this, store`faults
      ensures work == if ok then Events.DeleteValidator(old(work), v) else old(work)
      ensures store.faults == old(store.faults) + if ok then 0 else 1
    {
      var fails := store.Fails();
      ok := !fails;
      if ok { work := work.(validators := work.validators - {v}); }
    }

    method UpdateLastSyncedBlock(block: nat) returns (ok: bool)
      modifies this, store`faults
      ensures work == if ok then old(work).(lastSynced := block) else old(work)
      ensures store.faults == old(store.faults) + if ok then 0 else 1
    {
      var fails := store.Fails();
      ok := !fails;
      if ok { work := work.(lastSynced := block); }
    }

    method Commit() returns (ok: bool)
      modifies store`tables, store`faults
      ensures store.tables == if ok then work else old(store.tables)
      ensures store.faults == old(store.faults) + if ok then 0 else 1
    {
      var fails := store.Fails();
      ok := !fails;
      if ok { store.tables := work; }
    }
  }
}
