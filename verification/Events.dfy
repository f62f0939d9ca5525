/** Contract events and the tables they are replayed into (eth/syncer/syncer.go:248-395,
    eth/syncer/types.go, storage/schema.sql). */
module Events {
  import opened Bytes
  import opened ClusterId

  datatype Cluster = Cluster(validatorCount: u32, networkFeeIndex: u64, index: u64, active: bool, balance: nat)

  /** The events the syncer handles. Each carries the cluster state after it. */
  datatype ClusterEvent =
    | ValidatorAdded(owner: Address, operatorIDs: seq<u64>, publicKey: Bytes, shares: Bytes, cluster: Cluster)
    | ValidatorRemoved(owner: Address, operatorIDs: seq<u64>, publicKey: Bytes, cluster: Cluster)
    | ClusterLiquidated(owner: Address, operatorIDs: seq<u64>, cluster: Cluster)
    | ClusterReactivated(owner: Address, operatorIDs: seq<u64>, cluster: Cluster)
    | ClusterWithdrawn(owner: Address, operatorIDs: seq<u64>, value: nat, cluster: Cluster)
    | ClusterDeposited(owner: Address, operatorIDs: seq<u64>, value: nat, cluster: Cluster)
    | ClusterMigratedToETH(owner: Address, operatorIDs: seq<u64>, ethDeposited: nat, ssvRefunded: nat,
        effectiveBalance: u32, cluster: Cluster)
    | ClusterBalanceUpdated(owner: Address, operatorIDs: seq<u64>, blockNum: u64, effectiveBalance: u32,
                            cluster: Cluster)

  /** What the parser makes of a log: a handled event, a signature it does not know, or a
      handled signature whose data does not decode. */
  datatype Payload = Handled(event: ClusterEvent) | UnknownSignature | Malformed

  datatype Log = Log(block: nat, txIndex: nat, index: nat, payload: Payload)

  datatype ClusterRow = ClusterRow(clusterID: Hash, owner: Address, operatorIDs: seq<u64>,
    validatorCount: u32, networkFeeIndex: u64, index: u64, isActive: bool, balance: nat)

  type Validator = (Hash, Bytes)

  datatype Tables = Tables(clusters: map<Hash, ClusterRow>, validators: set<Validator>, lastSynced: nat)

  const PUBKEY_LENGTH := 48

  function EventID(k: Keccak, e: ClusterEvent): Hash {
    ClusterIDOf(k, e.owner, e.operatorIDs)
  }

  function RowOf(k: Keccak, e: ClusterEvent): ClusterRow {
    ClusterRow(EventID(k, e), e.owner, e.operatorIDs, e.cluster.validatorCount, e.cluster.networkFeeIndex,
      e.cluster.index, e.cluster.active, e.cluster.balance)
  }

  /** The row holds what the event says of its cluster, field by field. */
  predicate Carries(row: ClusterRow, e: ClusterEvent) {
    && row.owner == e.owner && row.operatorIDs == e.operatorIDs
    && row.validatorCount == e.cluster.validatorCount && row.networkFeeIndex == e.cluster.networkFeeIndex
    && row.index == e.cluster.index && row.isActive == e.cluster.active && row.balance == e.cluster.balance
  }

  // ----- Table writes -----

  function UpsertCluster(t: Tables, row: ClusterRow): Tables {
    t.(clusters := t.clusters[row.clusterID := row])
  }

  /** Insert unless present; refused for a key of the wrong length or a missing cluster. */
  function InsertValidator(t: Tables, v: Validator): Result<Tables> {
    if |v.1| != PUBKEY_LENGTH || v.0 !in t.clusters then Err
    else Ok(t.(validators := t.validators + {v}))
  }

  function DeleteValidator(t: Tables, v: Validator): Tables {
    t.(validators := t.validators - {v})
  }

  // ----- Replay -----

  function ApplyEvent(k: Keccak, t: Tables, e: ClusterEvent): Result<Tables> {
    match e
    case ValidatorAdded(_, _, pubkey, _, _) => InsertValidator(UpsertCluster(t, RowOf(k, e)), (EventID(k, e), pubkey))
    case ValidatorRemoved(_, _, pubkey, _) =>
      Ok(UpsertCluster(DeleteValidator(t, (EventID(k, e), pubkey)), RowOf(k, e)))
    case _ => Ok(UpsertCluster(t, RowOf(k, e)))
  }

  function ApplyLog(k: Keccak, t: Tables, l: Log): Result<Tables> {
    match l.payload
    case Handled(e) => ApplyEvent(k, t, e)
    case UnknownSignature => Ok(t)
    case Malformed => Err
  }

  /** The tables after a sequence of logs, one by one in order. */
  function Replay(k: Keccak, t: Tables, logs: seq<Log>): Result<Tables> {
    if logs == [] then Ok(t)
    else match Replay(k, t, logs[..|logs|-1])
      case Ok(u) => ApplyLog(k, u, logs[|logs|-1])
      case Err => Err
  }

  lemma {:induction false} ReplayConcat(k: Keccak, t: Tables, a: seq<Log>, b: seq<Log>)
    ensures Replay(k, t, a + b) == match Replay(k, t, a) case Ok(u) => Replay(k, u, b) case Err => Err
  {
    if b == [] {
      assert a + b == a;
    } else {
      assert (a + b)[..|a + b|-1] == a + b[..|b|-1];
      ReplayConcat(k, t, a, b[..|b|-1]);
    }
  }

  lemma ReplayOne(k: Keccak, t: Tables, logs: seq<Log>, l: Log)
    ensures Replay(k, t, logs + [l]) == match Replay(k, t, logs) case Ok(u) => ApplyLog(k, u, l) case Err => Err
  {
    assert (logs + [l])[..|logs|] == logs;
  }

  lemma ReplayFront(k: Keccak, t: Tables, l: Log, rest: seq<Log>)
    ensures Replay(k, t, [l] + rest) == match ApplyLog(k, t, l) case Ok(u) => Replay(k, u, rest) case Err => Err
  {
    hide ApplyLog;
    ReplayConcat(k, t, [l], rest);
    assert [l] == [] + [l];
    ReplayOne(k, t, [], l);
  }

  /** Replay ignores the cursor: it only carries it along. */
  lemma {:induction false} ReplayCursor(k: Keccak, t: Tables, logs: seq<Log>, n: nat)
    ensures Replay(k, t.(lastSynced := n), logs)
      == match Replay(k, t, logs) case Ok(u) => Ok(u.(lastSynced := n)) case Err => Err
  {
    if logs != [] { ReplayCursor(k, t, logs[..|logs|-1], n); }
  }

  predicate Acceptable(l: Log) {
    match l.payload
    case Handled(ValidatorAdded(_, _, pubkey, _, _)) => |pubkey| == PUBKEY_LENGTH
    case Handled(_) => true
    case UnknownSignature => true
    case Malformed => false
  }

  /** The log does not decode, or adds a validator whose key is not 48 bytes long. */
  predicate Spoils(l: Log) {
    || l.payload.Malformed?
    || (l.payload.Handled? && l.payload.event.ValidatorAdded? && |l.payload.event.publicKey| != 48)
  }

  lemma ApplyFailsExactly(k: Keccak, t: Tables, l: Log)
    ensures ApplyLog(k, t, l).Ok? <==> Acceptable(l)
  {
  }

  /** A replay fails on a log that does not decode or adds a key of the wrong length, and on
      nothing else; in particular the foreign key never fails. */
  lemma {:induction false} ReplayFailsExactly(k: Keccak, t: Tables, logs: seq<Log>)
    ensures Replay(k, t, logs).Ok? <==> forall i | 0 <= i < |logs| :: Acceptable(logs[i])
  {
    if logs != [] {
      var n := |logs| - 1;
      ReplayFailsExactly(k, t, logs[..n]);
      if Replay(k, t, logs[..n]).Ok? {
        ApplyFailsExactly(k, Replay(k, t, logs[..n]).value, logs[n]);
        assert forall i | 0 <= i < n :: Acceptable(logs[..n][i]);
      } else {
        var i :| 0 <= i < n && !Acceptable(logs[..n][i]);
        assert !Acceptable(logs[i]);
      }
    }
  }

  lemma FailsOnSpoilt(k: Keccak, t: Tables, logs: seq<Log>)
    ensures Replay(k, t, logs).Err? <==> exists l :: l in logs && Spoils(l)
  {
    hide Replay;
    ReplayFailsExactly(k, t, logs);
    if i :| 0 <= i < |logs| && !Acceptable(logs[i]) { assert logs[i] in logs && Spoils(logs[i]); }
  }

  // ----- What the tables say about the log -----

  /** Rows sit under the id computed from their own owner and operators, and every
      validator belongs to a cluster. */
  ghost predicate WellKeyed(k: Keccak, t: Tables) {
    && (forall c | c in t.clusters :: RowKeyed(k, c, t.clusters[c]))
    && (forall v | v in t.validators :: v.0 in t.clusters)
  }

  predicate RowKeyed(k: Keccak, c: Hash, row: ClusterRow) {
    row.clusterID == c && ClusterIDOf(k, row.owner, row.operatorIDs) == c
  }

  lemma UpsertKeepsKeys(k: Keccak, t: Tables, e: ClusterEvent)
    requires WellKeyed(k, t)
    ensures WellKeyed(k, UpsertCluster(t, RowOf(k, e)))
  {
    hide ClusterIDOf;
    assert RowKeyed(k, EventID(k, e), RowOf(k, e));
  }

  lemma ApplyKeepsKeys(k: Keccak, t: Tables, l: Log)
    requires WellKeyed(k, t) && ApplyLog(k, t, l).Ok?
    ensures WellKeyed(k, ApplyLog(k, t, l).value)
  {
    hide RowOf, EventID, RowKeyed;
    if l.payload.Handled? {
      var e := l.payload.event;
      UpsertKeepsKeys(k, t, e);
      if e.ValidatorRemoved? { UpsertKeepsKeys(k, DeleteValidator(t, (EventID(k, e), e.publicKey)), e); }
    }
  }

  lemma {:induction false} ReplayKeepsKeys(k: Keccak, t: Tables, logs: seq<Log>)
    requires WellKeyed(k, t) && Replay(k, t, logs).Ok?
    ensures WellKeyed(k, Replay(k, t, logs).value)
  {
    if logs != [] {
      var n := |logs| - 1;
      ReplayKeepsKeys(k, t, logs[..n]);
      ApplyKeepsKeys(k, Replay(k, t, logs[..n]).value, logs[n]);
    }
  }

  predicate Touches(k: Keccak, l: Log, c: Hash) {
    l.payload.Handled? && EventID(k, l.payload.event) == c
  }

  predicate Adds(k: Keccak, l: Log, v: Validator) {
    Touches(k, l, v.0) && l.payload.event.ValidatorAdded? && l.payload.event.publicKey == v.1
  }

  predicate Removes(k: Keccak, l: Log, v: Validator) {
    Touches(k, l, v.0) && l.payload.event.ValidatorRemoved? && l.payload.event.publicKey == v.1
  }

  /** The validator was added and not removed since. */
  ghost predicate LastIsAdd(k: Keccak, logs: seq<Log>, v: Validator) {
    exists i :: AddedAt(k, logs, v, i)
  }

  ghost predicate AddedAt(k: Keccak, logs: seq<Log>, v: Validator, i: int) {
    0 <= i < |logs| && Adds(k, logs[i], v) && forall j | i < j < |logs| :: !Removes(k, logs[j], v)
  }

  /** e is the last event of cluster c. */
  ghost predicate LastEvent(k: Keccak, logs: seq<Log>, c: Hash, e: ClusterEvent) {
    exists i :: LastAt(k, logs, c, i) && logs[i].payload.event == e
  }

  lemma AddedAtStep(k: Keccak, logs: seq<Log>, l: Log, v: Validator, i: int)
    ensures AddedAt(k, logs + [l], v, i) <==>
      (i == |logs| && Adds(k, l, v)) || (AddedAt(k, logs, v, i) && !Removes(k, l, v))
  {
    hide Adds, Removes;
    var s := logs + [l];
    assert s[|logs|] == l;
    if AddedAt(k, s, v, i) && i < |logs| {
      forall j | i < j < |logs| ensures !Removes(k, logs[j], v) { assert s[j] == logs[j]; }
    }
  }

  lemma LastIsAddStep(k: Keccak, logs: seq<Log>, l: Log, v: Validator)
    ensures LastIsAdd(k, logs + [l], v) <==> Adds(k, l, v) || (LastIsAdd(k, logs, v) && !Removes(k, l, v))
  {
    hide AddedAt, Adds, Removes;
    forall i ensures AddedAt(k, logs + [l], v, i) <==>
        (i == |logs| && Adds(k, l, v)) || (AddedAt(k, logs, v, i) && !Removes(k, l, v)) {
      AddedAtStep(k, logs, l, v, i);
    }
    if Adds(k, l, v) { assert AddedAt(k, logs + [l], v, |logs|); }
  }

  /** Event i is the last one of cluster c. */
  ghost predicate LastAt(k: Keccak, logs: seq<Log>, c: Hash, i: int) {
    0 <= i < |logs| && Touches(k, logs[i], c) && forall j | i < j < |logs| :: !Touches(k, logs[j], c)
  }

  lemma LastAtStep(k: Keccak, logs: seq<Log>, l: Log, c: Hash, i: int)
    ensures LastAt(k, logs + [l], c, i) <==> if Touches(k, l, c) then i == |logs| else LastAt(k, logs, c, i)
  {
    var s := logs + [l];
    assert s[|logs|] == l;
    if LastAt(k, s, c, i) && i < |logs| {
      forall j | i < j < |logs| ensures !Touches(k, logs[j], c) { assert s[j] == logs[j]; }
    }
  }

  ghost predicate HasEvent(k: Keccak, logs: seq<Log>, c: Hash) {
    exists e :: LastEvent(k, logs, c, e)
  }

  lemma LastEventStep(k: Keccak, logs: seq<Log>, l: Log, c: Hash, e: ClusterEvent)
    ensures LastEvent(k, logs + [l], c, e) <==>
      if Touches(k, l, c) then e == l.payload.event else LastEvent(k, logs, c, e)
  {
    forall i ensures LastAt(k, logs + [l], c, i) <==> if Touches(k, l, c) then i == |logs| else LastAt(k, logs, c, i) {
      LastAtStep(k, logs, l, c, i);
    }
    if Touches(k, l, c) {
      assert LastAt(k, logs + [l], c, |logs|);
    }
  }

  function EmptyTables(cursor: nat): Tables {
    Tables(map[], {}, cursor)
  }

  lemma ApplyToValidators(k: Keccak, t: Tables, l: Log, v: Validator)
    requires ApplyLog(k, t, l).Ok?
    ensures v in ApplyLog(k, t, l).value.validators <==> Adds(k, l, v) || (v in t.validators && !Removes(k, l, v))
  {
    hide ClusterIDOf, RowOf;
  }

  lemma ApplyToClusters(k: Keccak, t: Tables, l: Log, c: Hash)
    requires ApplyLog(k, t, l).Ok?
    ensures var m := ApplyLog(k, t, l).value.clusters;
      if Touches(k, l, c) then c in m && m[c] == RowOf(k, l.payload.event)
      else (c in m <==> c in t.clusters) && (c in m ==> m[c] == t.clusters[c])
  {
    hide ClusterIDOf;
  }

  /** After a replay a validator is stored if and only if it was added and not removed since. */
  lemma {:induction false} StoredValidators(k: Keccak, logs: seq<Log>, cursor: nat, v: Validator)
    requires Replay(k, EmptyTables(cursor), logs).Ok?
    ensures v in Replay(k, EmptyTables(cursor), logs).value.validators <==> LastIsAdd(k, logs, v)
  {
    if logs != [] {
      hide ApplyLog, Adds, Removes, LastIsAdd;
      var n := |logs| - 1;
      StoredValidators(k, logs[..n], cursor, v);
      ApplyToValidators(k, Replay(k, EmptyTables(cursor), logs[..n]).value, logs[n], v);
      LastIsAddStep(k, logs[..n], logs[n], v);
      assert logs == logs[..n] + [logs[n]];
    }
  }

  /** After a replay a cluster's row is the one its last event carried; a cluster without
      an event has none. */
  lemma {:induction false} StoredClusters(k: Keccak, logs: seq<Log>, cursor: nat, c: Hash)
    requires Replay(k, EmptyTables(cursor), logs).Ok?
    ensures var m := Replay(k, EmptyTables(cursor), logs).value.clusters;
      && (c in m ==> exists e :: LastEvent(k, logs, c, e) && m[c] == RowOf(k, e))
      && (forall e :: LastEvent(k, logs, c, e) ==> c in m && m[c] == RowOf(k, e) && Carries(m[c], e))
  {
    forall e ensures Carries(RowOf(k, e), e) { RowCarries(k, e); }
    if logs != [] {
      hide ApplyLog, Touches, LastEvent, RowOf, Carries;
      var n := |logs| - 1;
      StoredClusters(k, logs[..n], cursor, c);
      ApplyToClusters(k, Replay(k, EmptyTables(cursor), logs[..n]).value, logs[n], c);
      assert logs == logs[..n] + [logs[n]];
      forall e ensures LastEvent(k, logs, c, e) <==>
          if Touches(k, logs[n], c) then e == logs[n].payload.event else LastEvent(k, logs[..n], c, e) {
        LastEventStep(k, logs[..n], logs[n], c, e);
      }
      if Touches(k, logs[n], c) { assert LastEvent(k, logs, c, logs[n].payload.event); }
    }
  }

  lemma RowCarries(k: Keccak, e: ClusterEvent)
    ensures Carries(RowOf(k, e), e)
  {
  }

  ghost function ActiveSet(t: Tables): set<Validator> {
    set v | v in t.validators && v.0 in t.clusters && t.clusters[v.0].isActive
  }

  /** The active validators after any replay, read off the log alone. */
  lemma ActiveAfterReplay(k: Keccak, logs: seq<Log>, cursor: nat, v: Validator)
    requires Replay(k, EmptyTables(cursor), logs).Ok?
    ensures v in ActiveSet(Replay(k, EmptyTables(cursor), logs).value) <==>
      LastIsAdd(k, logs, v) && exists e :: LastEvent(k, logs, v.0, e) && e.cluster.active
  {
    StoredValidators(k, logs, cursor, v);
    StoredClusters(k, logs, cursor, v.0);
    ReplayKeepsKeys(k, EmptyTables(cursor), logs);
  }

  /** None of the logs adds or removes a validator of c. */
  ghost predicate NoValidatorEvents(k: Keccak, logs: seq<Log>, c: Hash) {
    forall i | 0 <= i < |logs| && Touches(k, logs[i], c) ::
      !logs[i].payload.event.ValidatorAdded? && !logs[i].payload.event.ValidatorRemoved?
  }

  /** Without validator events of its own a cluster keeps its validators, whatever else happens. */
  lemma {:induction false} ValidatorsUntouched(k: Keccak, t: Tables, logs: seq<Log>, v: Validator)
    requires Replay(k, t, logs).Ok? && NoValidatorEvents(k, logs, v.0)
    ensures v in Replay(k, t, logs).value.validators <==> v in t.validators
  {
    if logs != [] {
      hide ApplyLog, Touches;
      var n := |logs| - 1;
      forall i | 0 <= i < n && Touches(k, logs[..n][i], v.0)
        ensures !logs[..n][i].payload.event.ValidatorAdded? && !logs[..n][i].payload.event.ValidatorRemoved? {
        assert logs[..n][i] == logs[i];
      }
      ValidatorsUntouched(k, t, logs[..n], v);
      ApplyToValidators(k, Replay(k, t, logs[..n]).value, logs[n], v);
    }
  }

  /** A liquidation hides all validators of its cluster. Whatever the log holds between it
      and the reactivation, validator events of the cluster aside, the reactivation brings
      back exactly the validators the cluster had active before. */
  lemma ReactivationRestores(k: Keccak, t: Tables, off: Log, between: seq<Log>, on: Log, v: Validator)
    requires v.0 in t.clusters && t.clusters[v.0].isActive
    requires off.payload.Handled? && off.payload.event.ClusterLiquidated? && !off.payload.event.cluster.active
    requires on.payload.Handled? && on.payload.event.ClusterReactivated? && on.payload.event.cluster.active
    requires Touches(k, off, v.0) && Touches(k, on, v.0)
    requires NoValidatorEvents(k, between, v.0) && forall i | 0 <= i < |between| :: Acceptable(between[i])
    ensures ApplyLog(k, t, off).Ok? && v !in ActiveSet(ApplyLog(k, t, off).value)
    ensures var after := Replay(k, t, [off] + between + [on]);
      after.Ok? && (v in ActiveSet(after.value) <==> v in ActiveSet(t))
  {
    hide EventID, RowOf, Touches;
    assert !Adds(k, off, v) && !Removes(k, off, v) && !Adds(k, on, v) && !Removes(k, on, v);
    hide Adds, Removes, NoValidatorEvents;
    var down := ApplyLog(k, t, off).value;
    ApplyToClusters(k, t, off, v.0);
    ApplyToValidators(k, t, off, v);
    ReplayFailsExactly(k, down, between);
    var mid := Replay(k, down, between).value;
    ValidatorsUntouched(k, down, between, v);
    ReplayFront(k, t, off, between);
    ReplayOne(k, t, [off] + between, on);
    ApplyToClusters(k, mid, on, v.0);
    ApplyToValidators(k, mid, on, v);
    assert down.clusters[v.0].isActive == false by { RowActive(k, off.payload.event); }
    RowActive(k, on.payload.event);
  }

  lemma RowActive(k: Keccak, e: ClusterEvent)
    ensures RowOf(k, e).isActive == e.cluster.active
  {
  }
}
