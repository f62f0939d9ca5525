/** The oracle object: its loop, and one commit from sync to stored outcome
    (oracle/oracle.go). */
module Oracle {
  import opened Bytes
  import opened Order
  import opened Merkle
  import opened Events
  import opened Storage
  import opened Chain
  import opened Execution
  import opened Syncer
  import opened Aggregate
  import opened Phase
  import opened OracleRun
  import opened Settlement

  /** The contract as the oracle uses it; every request is kept with its answer. */
  class RootContract {
    ghost var calls: seq<ChainCall>

    constructor ()
      ensures calls == []
    {
      calls := [];
    }

    /** The root of a block, zero if it has none. */
    method GetCommittedRoot(block: nat) returns (r: Result<Hash>)
      modifies this
      ensures calls == old(calls) + [Query(block, r)]
    {
      r := *;
      calls := calls + [Query(block, r)];
    }

    method CommitRoot(root: Hash, block: nat) returns (r: SendResult)
      modifies this
      ensures calls == old(calls) + [Send(block, root, r)]
    {
      r := *;
      calls := calls + [Send(block, root, r)];
    }
  }

  /** In order from a block on. */
  predicate BlocksInOrder(block: nat, cps: seq<Checkpoint>) {
    cps != [] ==>
      var n := |cps| - 1;
      BlocksInOrder(block, cps[..n]) && LastBlock(block, cps[..n]) <= cps[n].blockNum
  }

  function LastBlock(block: nat, cps: seq<Checkpoint>): nat {
    if cps == [] then block else cps[|cps|-1].blockNum
  }

  class Oracle {
    const keccak: Keccak
    const storage: Storage
    const syncer: EventSyncer
    const node: BeaconNode
    const contract: RootContract
    const schedule: Schedule
    var nextTarget: nat
    /** The calls of Commit so far. */
    ghost var attempts: seq<Attempt>

    ghost predicate Wired(start: nat)
      reads storage, syncer.client.batchSize
    {
      && syncer.storage == storage && syncer.keccak == keccak
      && syncer.client.Valid()
      && Synced(keccak, syncer.client.chain, start, storage.tables)
    }

    /** How many statements and requests have failed. */
    ghost function Faults(): nat
      reads storage, syncer.client
    {
      storage.faults + syncer.client.faults
    }

    ghost function Now(): World
      reads storage, contract, node
    {
      World(storage.commits, contract.calls, node.requests, storage.statusWrites)
    }

    constructor (keccak: Keccak, storage: Storage, syncer: EventSyncer, node: BeaconNode, contract: RootContract,
                 schedule: Schedule)
      ensures this.keccak == keccak && this.storage == storage && this.syncer == syncer && this.schedule == schedule
      ensures this.node == node && this.contract == contract && attempts == []
    {
      this.keccak, this.storage, this.syncer, this.schedule := keccak, storage, syncer, schedule;
      this.node, this.contract := node, contract;
      nextTarget, attempts := 0, [];
    }

    /** Sync, read the validators, check the finalized block, fetch balances, build the tree.
        Unless something fails it succeeds. */
    method Prepare(cp: Checkpoint, ghost start: nat)
      returns (r: Result<Computed>, ghost asked: seq<BeaconRequest>, ghost last: nat)
      requires Wired(start) && RunsForward(cp.blockNum, syncer.client.batchSize.max)
      modifies storage`tables, storage`faults, syncer.client.batchSize`current, syncer.client`faults, node
      ensures Wired(start) && Faults() >= old(Faults())
      ensures last == Later(old(storage.tables.lastSynced), cp.blockNum)
      ensures old(storage.tables.lastSynced) <= storage.tables.lastSynced <= last
      ensures node.requests == old(node.requests) + asked
      ensures Prepares(keccak, syncer.client.chain, start, cp, last, asked, r)
      ensures asked == [] && Faults() == old(Faults()) ==> SyncedTo(keccak, syncer.client.chain, start, last).Err?
    {
      hide IsChain, RootOfMap, ActiveBalances, BalancesOf, SyncedTo, IsTree, IsPairedTree, HasFigures, InKeyOrder,
        SortedBy, ActiveSet, ActiveAt;
      asked, last := [], Later(storage.tables.lastSynced, cp.blockNum);
      var synced := syncer.SyncToBlock(cp.blockNum, start);
      if !synced { return Err, asked, last; }
      var validators := storage.GetActiveValidators();
      if validators.Err? { return Err, asked, last; }
      ActiveRead(start, last, validators.value);
      ghost var active := set v | v in validators.value;
      hide Synced;
      var verified := node.VerifyFinalizedBlockRoot(cp.blockRoot);
      asked := [Verify(cp.blockRoot, verified)];
      if !verified {
        assert !WentWell(asked[0]);
        return Err, asked, last;
      }
      var balances;
      ghost var fetched;
      balances, fetched := FetchBalances(node, validators.value);
      asked := asked + fetched;
      NoneActive(active, validators.value);
      if balances.Err? {
        assert !WentWell(asked[1]);
        return Err, asked, last;
      }
      var tree := BuildTree(keccak, balances.value);
      RootIsDetermined(keccak, active, BeaconOf(asked), validators.value, balances.value);
      r := Ok(Computed(tree.root, balances.value));
    }

    /** Read from a database synced to a block, the validators are the active ones there. */
    lemma ActiveRead(start: nat, last: nat, validators: seq<Validator>)
      requires Synced(keccak, syncer.client.chain, start, storage.tables) && storage.tables.lastSynced == last
      requires forall v :: v in validators <==> v in ActiveSet(storage.tables)
      ensures SyncedTo(keccak, syncer.client.chain, start, last).Ok?
      ensures ActiveAt(keccak, syncer.client.chain, start, last) == set v | v in validators
    {
      hide SyncedTo;
      assert ActiveSet(storage.tables) == ActiveSet(storage.tables.(lastSynced := start));
    }

    lemma NoneActive(active: set<Validator>, validators: seq<Validator>)
      requires active == set v | v in validators
      ensures active == {} <==> validators == []
    {
      if validators != [] { assert validators[0] in active; }
    }

    /** After the pending row is stored: ask the contract, send if it has no root, and write
        the outcome, confirmed exactly if the chain is seen to accept the root. */
    method Settle(target: nat, cp: Checkpoint, computed: Computed, ghost asked: seq<BeaconRequest>, ghost last: nat)
      returns (failed: bool, ghost a: Attempt)
      modifies storage`commits, storage`statusWrites, storage`faults, contract
      ensures a.Settled? && Proper(a)
      ensures a == Settled(target, cp, last, asked, computed, a.answer, a.result, a.written)
      ensures contract.calls == old(contract.calls) + CallsOf(a)
      ensures storage.statusWrites == old(storage.statusWrites) + WritesOf(a)
      ensures storage.commits ==
        if a.written then UpdateStatus(old(storage.commits), target, StatusOf(a), HashOf(a)) else old(storage.commits)
      ensures StatusOf(a).Confirmed? <==> Accepts(CallsOf(a), cp.blockNum, computed.root)
      ensures failed <==> a.result.Some? && a.result.value.NotSent?
      ensures storage.faults == old(storage.faults) + if a.written then 0 else 1
    {
      var root, written := computed.root, false;
      var onChain := contract.GetCommittedRoot(cp.blockNum);
      if onChain.Ok? && !IsZero(onChain.value) {
        if onChain.value == root {
          written := storage.UpdateCommitStatus(target, Confirmed, None);
        } else {
          written := storage.UpdateCommitStatus(target, CommitStatus.Failed, None);
        }
        a := Settled(target, cp, last, asked, computed, onChain, None, written);
        ConfirmedExactly(a);
        return false, a;
      }
      var result := contract.CommitRoot(root, cp.blockNum);
      match result {
        case Sent(hash) =>
          written := storage.UpdateCommitStatus(target, Confirmed, Some(hash));
          failed := false;
        case Reverted(hash) =>
          written := storage.UpdateCommitStatus(target, CommitStatus.Failed, hash);
          failed := false;
        case NotSent(hash) =>
          written := storage.UpdateCommitStatus(target, CommitStatus.Failed, hash);
          failed := true;
      }
      a := Settled(target, cp, last, asked, computed, onChain, Some(result), written);
      ConfirmedExactly(a);
    }

    /** One commit, on any table: it is recorded as one attempt by the book, which works on the
        events up to the later of cursor and checkpoint block, and rows, requests to beacon
        node and contract, and status writes change by the effect of that attempt alone. An
        attempt stops early only if something failed, or the block already has a row. */
    method Commit(cp: Checkpoint, target: nat, ghost start: nat) returns (failed: bool, ghost a: Attempt)
      requires Wired(start) && RunsForward(cp.blockNum, syncer.client.batchSize.max)
      modifies storage, syncer.client.batchSize`current, syncer.client`faults, node, contract, this`attempts
      ensures Wired(start) && attempts == old(attempts) + [a]
      ensures a.target == target && a.cp == cp && a.last == Later(old(storage.tables.lastSynced), cp.blockNum)
      ensures Now() == Step(old(Now()), a) && Insertable(old(storage.commits), a)
      ensures old(storage.tables.lastSynced) <= storage.tables.lastSynced <= a.last
      ensures Sound(keccak, syncer.client.chain, start, a)
      ensures failed <==> !a.Settled? || (a.result.Some? && a.result.value.NotSent?)
      ensures a.asked == [] && Faults() == old(Faults()) ==>
        SyncedTo(keccak, syncer.client.chain, start, a.last).Err?
      ensures a.Unstored? && Faults() == old(Faults()) ==>
        target !in old(storage.commits) && BlockTaken(old(storage.commits), cp.blockNum)
    {
      hide Synced, IsChain, Prepares, SyncedTo;
      var prepared;
      ghost var asked, last;
      prepared, asked, last := Prepare(cp, start);
      if prepared.Err? {
        failed, a := true, Unprepared(target, cp, last, asked);
        attempts := attempts + [a];
        return;
      }
      var computed := prepared.value;
      var inserted := storage.InsertPendingCommit(target, computed.root, cp.blockNum, computed.balances);
      if !inserted {
        failed, a := true, Unstored(target, cp, last, asked, computed);
        attempts := attempts + [a];
        return;
      }
      failed, a := Settle(target, cp, computed, asked, last);
      attempts := attempts + [a];
    }

    /** One turn of the loop: commit is called exactly if the decision is an attempt, for its
        target and the checkpoint. */
    method HandleCheckpoint(cp: Checkpoint, ghost high: nat, ghost start: nat)
      returns (d: Decision, ghost made: seq<Attempt>)
      requires Wired(start) && RunsForward(cp.blockNum, syncer.client.batchSize.max)
      requires Ascending(schedule) && Aligned(schedule) && Fits(schedule, cp.epoch)
      requires IsNext(schedule, high, nextTarget)
      modifies this, storage, syncer.client.batchSize`current, syncer.client`faults, node, contract
      ensures Wired(start) && Decides(schedule, high, cp.epoch, d)
      ensures IsNext(schedule, Later(high, if cp.epoch == 0 then 0 else cp.epoch - 1), nextTarget)
      ensures nextTarget != old(nextTarget) ==>
        nextTarget > old(nextTarget) && OracleRun.Settled(d) == old(nextTarget)
      ensures attempts == old(attempts) + made && |made| == if d.Attempted? then 1 else 0
      ensures d.Attempted? ==> Insertable(old(Now()).commits, made[0])
      ensures d.Attempted? ==>
        IsTurn(keccak, syncer.client.chain, start, made[0], d.target, cp, old(storage.tables.lastSynced))
      ensures Now() == After(old(Now()), made)
      ensures old(storage.tables.lastSynced) <= storage.tables.lastSynced
      ensures storage.tables.lastSynced <= Later(old(storage.tables.lastSynced), cp.blockNum)
    {
      hide Synced, IsChain, NextExact, Sound;
      made := [];
      if cp.epoch == 0 {
        return Ignored, made;
      }
      var fullyFinalized: u64 := cp.epoch - 1;
      if fullyFinalized < nextTarget {
        return Waiting(nextTarget), made;
      }
      var target := nextTarget;
      NextExactIsNext(schedule, fullyFinalized);
      if fullyFinalized > target {
        nextTarget := NextTarget(schedule, fullyFinalized);
        return Missed(target), made;
      }
      var failed;
      ghost var a;
      failed, a := Commit(cp, target, start);
      made := [a];
      assert made[..0] == [];
      nextTarget := NextTarget(schedule, fullyFinalized);
      d := Attempted(target);
    }

    /** The loop of Run, once the first target is set. */
    method RunLoop(checkpoints: seq<Checkpoint>, ghost first: nat, ghost start: nat)
      returns (ds: seq<Decision>, ghost made: seq<Attempt>)
      requires Wired(start) && Ascending(schedule) && Aligned(schedule) && IsNext(schedule, first, nextTarget)
      requires WithinBounds(schedule, syncer.client.batchSize.max, checkpoints)
      modifies this, storage, syncer.client.batchSize`current, syncer.client`faults, node, contract
      ensures Wired(start) && attempts == old(attempts) + made
      ensures AllSound(keccak, syncer.client.chain, start, made)
      ensures IsLog(schedule, first, Epochs(checkpoints), ds)
      ensures IsNext(schedule, Highest(first, Epochs(checkpoints)), nextTarget)
      ensures Targets(made) == AttemptedTargets(ds) && Increasing(Targets(made))
      ensures CheckpointsOf(made) == AttemptedCheckpoints(checkpoints, ds)
      ensures Now() == After(old(Now()), made) && Inserted(old(Now()), made)
      ensures BlocksInOrder(old(storage.tables.lastSynced), checkpoints) ==> AtOwnBlock(made)
    {
      ghost var max := syncer.client.batchSize.max;
      ghost var c := Setting(keccak, syncer.client.chain, start, schedule, first, checkpoints,
                             storage.tables.lastSynced, Now());
      ds, made := [], [];
      SessionStarts(c, nextTarget);
      hide Synced, IsChain, IsNext, IsLog, Decides, Sound, AllSound, Targets, CheckpointsOf, AttemptedTargets, IsTurn,
        AttemptedCheckpoints, After, Inserted, Insertable, BlocksInOrder, AtOwnBlock, Fits, RunsForward, Wired, Now;
      for i := 0 to |checkpoints|
        invariant Wired(start) && attempts == old(attempts) + made && syncer.client.batchSize.max == max
        invariant Now() == After(c.before, made)
        invariant |ds| == i && InSession(c, ds, made, storage.tables.lastSynced, nextTarget)
      {
        ghost var at, next := storage.tables.lastSynced, nextTarget;
        var d;
        ghost var turn;
        d, turn := HandleCheckpoint(checkpoints[i], SoFar(c, i), start);
        SessionStep(c, ds, made, at, next, d, turn, storage.tables.lastSynced, nextTarget);
        MadeMore(old(attempts), made, turn);
        ds, made := ds + [d], made + turn;
      }
      SessionEnds(c, ds, made, storage.tables.lastSynced, nextTarget);
    }

    /** A session over the checkpoints received before it stops, with any rows in the
        database. The decisions are the ones the schedule prescribes; commit is called
        exactly for the targets attempted and their checkpoints, in that order; and rows,
        requests to beacon node and contract, and status writes are the effect of these calls,
        each by the book. If the checkpoints' blocks are in order and the database was not
        ahead of them, every call works on the events up to its checkpoint's own block. A
        restart calls it again with a finalized epoch that has not gone back. */
    method Run(finalizedEpoch: u64, checkpoints: seq<Checkpoint>, ghost start: nat)
      returns (ds: seq<Decision>, ghost made: seq<Attempt>)
      requires Wired(start)
      requires Ascending(schedule) && Aligned(schedule) && Fits(schedule, finalizedEpoch)
      requires WithinBounds(schedule, syncer.client.batchSize.max, checkpoints)
      modifies this, storage, syncer.client.batchSize`current, syncer.client`faults, node, contract
      ensures Wired(start) && attempts == old(attempts) + made
      ensures AllSound(keccak, syncer.client.chain, start, made)
      ensures finalizedEpoch == 0 ==> ds == [] && made == []
      ensures finalizedEpoch > 0 ==>
        && IsLog(schedule, finalizedEpoch - 1, Epochs(checkpoints), ds)
        && IsNext(schedule, Highest(finalizedEpoch - 1, Epochs(checkpoints)), nextTarget)
        && CheckpointsOf(made) == AttemptedCheckpoints(checkpoints, ds)
      ensures Targets(made) == AttemptedTargets(ds) && Increasing(Targets(made))
      ensures Now() == After(old(Now()), made) && Settles(keccak, old(Now()), Now(), made)
      ensures BlocksInOrder(old(storage.tables.lastSynced), checkpoints) ==> AtOwnBlock(made)
    {
      ds, made := [], [];
      NothingMade(keccak, syncer.client.chain, start, Now(), attempts);
      hide *;
      SessionSettles(keccak, syncer.client.chain, start, Now(), made);
      if finalizedEpoch == 0 { return; }
      var first: u64 := finalizedEpoch - 1;
      FirstFits(schedule, finalizedEpoch);
      nextTarget := NextTarget(schedule, first);
      ds, made := RunLoop(checkpoints, first, start);
      SessionSettles(keccak, syncer.client.chain, start, old(Now()), made);
    }
  }

  lemma FirstFits(s: Schedule, finalizedEpoch: nat)
    requires Ascending(s) && Fits(s, finalizedEpoch) && finalizedEpoch > 0
    ensures s != [] && NextExact(s, finalizedEpoch - 1) < U64
  {
  }

  /** Nothing in the checkpoints wraps around 64 bits: not the target after their epochs, not
      the fetch loop up to their blocks. */
  ghost predicate WithinBounds(s: Schedule, max: nat, cps: seq<Checkpoint>) {
    forall cp | cp in cps :: Fits(s, cp.epoch) && RunsForward(cp.blockNum, max)
  }

  /** An attempt made in a turn of the loop. */
  ghost predicate IsTurn(k: Keccak, chain: seq<Log>, start: nat, a: Attempt, target: nat, cp: Checkpoint, cursor: nat) {
    a.target == target && a.cp == cp && Sound(k, chain, start, a) && a.last == Later(cursor, cp.blockNum)
  }

  /** The checkpoints attempted, in order. */
  function AttemptedCheckpoints(cps: seq<Checkpoint>, ds: seq<Decision>): seq<Checkpoint>
    requires |ds| <= |cps|
  {
    if ds == [] then []
    else
      var n := |ds| - 1;
      AttemptedCheckpoints(cps, ds[..n]) + if ds[n].Attempted? then [cps[n]] else []
  }

  /** What a session starts from. */
  datatype Setting = Setting(k: Keccak, chain: seq<Log>, start: nat, schedule: Schedule, first: nat,
    cps: seq<Checkpoint>, cursor: nat, before: World)

  /** The highest epoch fully finalized by the first n checkpoints. */
  function SoFar(c: Setting, n: nat): nat
    requires n <= |c.cps|
  {
    Highest(c.first, Epochs(c.cps)[..n])
  }

  /** What a session has decided and made so far, with its cursor and next target by then. */
  ghost predicate InSession(c: Setting, ds: seq<Decision>, made: seq<Attempt>, now: nat, next: nat) {
    && |ds| <= |c.cps| && IsLog(c.schedule, c.first, Epochs(c.cps)[..|ds|], ds)
    && IsNext(c.schedule, SoFar(c, |ds|), next)
    && AllSound(c.k, c.chain, c.start, made) && Inserted(c.before, made)
    && Targets(made) == AttemptedTargets(ds) && CheckpointsOf(made) == AttemptedCheckpoints(c.cps, ds)
    && (BlocksInOrder(c.cursor, c.cps) ==> AtOwnBlock(made) && now <= LastBlock(c.cursor, c.cps[..|ds|]))
  }

  lemma SessionStarts(c: Setting, next: nat)
    requires IsNext(c.schedule, c.first, next)
    ensures InSession(c, [], [], c.cursor, next) && After(c.before, []) == c.before
  {
    hide IsNext;
  }

  lemma SessionStep(c: Setting, ds: seq<Decision>, made: seq<Attempt>, at: nat, before: nat, d: Decision,
                    turn: seq<Attempt>, now: nat, next: nat)
    requires InSession(c, ds, made, at, before) && |ds| < |c.cps|
    requires var cp := c.cps[|ds|]; var high := SoFar(c, |ds|);
      && Decides(c.schedule, high, cp.epoch, d)
      && IsNext(c.schedule, Later(high, if cp.epoch == 0 then 0 else cp.epoch - 1), next)
      && |turn| == (if d.Attempted? then 1 else 0)
      && (d.Attempted? ==> IsTurn(c.k, c.chain, c.start, turn[0], d.target, cp, at))
      && (d.Attempted? ==> Insertable(After(c.before, made).commits, turn[0]))
      && now <= Later(at, cp.blockNum)
    ensures InSession(c, ds + [d], made + turn, now, next)
    ensures After(c.before, made + turn) == After(After(c.before, made), turn)
  {
    hide Decides, Sound, IsLog, After, Inserted, AttemptedTargets, AttemptedCheckpoints, Highest, Insertable, IsNext;
    HighestStep(c.first, Epochs(c.cps), |ds|);
    LogStep(c.schedule, c.first, Epochs(c.cps), ds, d);
    MadeStep(c.before, c.cps, made, turn, ds, d);
    InOrderStep(c.cursor, c.cps, |ds|);
    if d.Attempted? {
      SoundStep(c.k, c.chain, c.start, made, turn[0]);
      assert turn == [turn[0]];
    } else {
      assert made + turn == made;
    }
  }

  lemma MadeMore(had: seq<Attempt>, made: seq<Attempt>, turn: seq<Attempt>)
    ensures had + made + turn == had + (made + turn)
  {
  }

  lemma SessionEnds(c: Setting, ds: seq<Decision>, made: seq<Attempt>, now: nat, next: nat)
    requires InSession(c, ds, made, now, next) && |ds| == |c.cps|
    ensures IsLog(c.schedule, c.first, Epochs(c.cps), ds) && IsNext(c.schedule, Highest(c.first, Epochs(c.cps)), next)
    ensures Increasing(Targets(made))
  {
    hide IsLog, IsNext, Highest;
    assert Epochs(c.cps)[..|c.cps|] == Epochs(c.cps);
    TargetsIncrease(c.schedule, c.first, Epochs(c.cps), ds);
  }

  /** Every call works on the events up to its checkpoint's own block. */
  ghost predicate AtOwnBlock(made: seq<Attempt>) {
    forall a | a in made :: a.last == a.cp.blockNum
  }

  lemma NothingMade(k: Keccak, chain: seq<Log>, start: nat, w: World, had: seq<Attempt>)
    ensures had == had + []
    ensures After(w, []) == w && Inserted(w, []) && AllSound(k, chain, start, []) && AtOwnBlock([])
    ensures Targets([]) == AttemptedTargets([]) && Increasing(Targets([]))
  {
  }

  lemma MadeStep(w: World, cps: seq<Checkpoint>, made: seq<Attempt>, turn: seq<Attempt>, ds: seq<Decision>, d: Decision)
    requires |ds| < |cps| && |turn| == if d.Attempted? then 1 else 0
    requires d.Attempted? ==> turn[0].target == d.target && turn[0].cp == cps[|ds|]
    requires d.Attempted? && Inserted(w, made) ==> Insertable(After(w, made).commits, turn[0])
    ensures After(w, made + turn) == After(After(w, made), turn)
    ensures Inserted(w, made) ==> Inserted(w, made + turn)
    ensures Targets(made) == AttemptedTargets(ds) ==> Targets(made + turn) == AttemptedTargets(ds + [d])
    ensures CheckpointsOf(made) == AttemptedCheckpoints(cps, ds) ==>
      CheckpointsOf(made + turn) == AttemptedCheckpoints(cps, ds + [d])
  {
    hide Insertable, Step;
    assert (ds + [d])[..|ds|] == ds;
    if d.Attempted? {
      assert turn == [turn[0]] && turn[..0] == [] && (made + turn)[..|made|] == made;
      AfterOne(w, made, turn[0]);
    } else {
      assert made + turn == made;
    }
  }

  lemma SoundStep(k: Keccak, chain: seq<Log>, start: nat, made: seq<Attempt>, a: Attempt)
    requires AllSound(k, chain, start, made) && Sound(k, chain, start, a)
    ensures AllSound(k, chain, start, made + [a])
    ensures AtOwnBlock(made) && a.last == a.cp.blockNum ==> AtOwnBlock(made + [a])
  {
    hide Sound;
  }

  lemma {:induction false} InOrderStep(block: nat, cps: seq<Checkpoint>, i: nat)
    requires i < |cps|
    ensures BlocksInOrder(block, cps) ==> LastBlock(block, cps[..i]) <= cps[i].blockNum == LastBlock(block, cps[..i+1])
  {
    var n := |cps| - 1;
    if i < n {
      InOrderStep(block, cps[..n], i);
      assert cps[..n][..i] == cps[..i];
    }
  }

  lemma {:induction false} AttemptedAt(ds: seq<Decision>, t: nat)
    requires t in AttemptedTargets(ds)
    ensures exists i :: 0 <= i < |ds| && ds[i] == Attempted(t)
  {
    var n := |ds| - 1;
    if t in AttemptedTargets(ds[..n]) {
      AttemptedAt(ds[..n], t);
      var i :| 0 <= i < n && ds[..n][i] == Attempted(t);
      assert ds[i] == Attempted(t);
    } else {
      assert ds[n] == Attempted(t);
    }
  }

  lemma HighestStep(first: nat, epochs: seq<nat>, i: nat)
    requires i < |epochs|
    ensures Highest(first, epochs[..i+1])
      == Later(Highest(first, epochs[..i]), if epochs[i] == 0 then 0 else epochs[i] - 1)
  {
    assert epochs[..i+1][..i] == epochs[..i];
  }

  lemma {:induction false} AttemptedIn(ds: seq<Decision>, i: nat)
    requires i < |ds| && ds[i].Attempted?
    ensures ds[i].target in AttemptedTargets(ds)
  {
    var n := |ds| - 1;
    if i < n { AttemptedIn(ds[..n], i); }
  }

  /** On a stream whose finalized epoch never jumps by more than one, commit is called for
      every target passed. */
  lemma GapFreeCommitsAll(s: Schedule, first: nat, epochs: seq<nat>, ds: seq<Decision>, made: seq<Attempt>, u: nat)
    requires IsLog(s, first, epochs, ds) && Targets(made) == AttemptedTargets(ds)
    requires forall i | 0 <= i < |epochs| :: FullyFinalized(epochs[i]) <= Highest(first, epochs[..i]) + 1
    requires IsTarget(s, u) && first < u <= Highest(first, epochs)
    ensures exists a :: a in made && a.target == u
  {
    hide IsLog, IsTarget, Highest;
    GapFree(s, first, epochs, ds);
    var j :| 0 <= j < |ds| && ds[j] == Attempted(u);
    AttemptedIn(ds, j);
    var i :| 0 <= i < |Targets(made)| && Targets(made)[i] == u;
    assert made[i].target == u;
  }

  lemma LogStep(s: Schedule, first: nat, epochs: seq<nat>, ds: seq<Decision>, d: Decision)
    requires |ds| < |epochs| && IsLog(s, first, epochs[..|ds|], ds)
    requires Decides(s, Highest(first, epochs[..|ds|]), epochs[|ds|], d)
    ensures IsLog(s, first, epochs[..|ds|+1], ds + [d])
  {
    hide Decides;
    var n := |ds|;
    forall i | 0 <= i <= n ensures Decides(s, Highest(first, epochs[..n+1][..i]), epochs[..n+1][i], (ds + [d])[i]) {
      assert epochs[..n+1][..i] == epochs[..i];
      if i < n { assert epochs[..n][..i] == epochs[..i]; }
    }
  }

  lemma LogPrefix(s: Schedule, first: nat, epochs: seq<nat>, ds: seq<Decision>, n: nat)
    requires IsLog(s, first, epochs, ds) && n <= |ds|
    ensures IsLog(s, first, epochs[..n], ds[..n])
  {
    hide Decides;
    forall i | 0 <= i < n ensures Decides(s, Highest(first, epochs[..n][..i]), epochs[..n][i], ds[..n][i]) {
      assert epochs[..n][..i] == epochs[..i];
    }
  }

  /** The decisions of a log attempt strictly increasing targets. */
  lemma {:induction false} TargetsIncrease(s: Schedule, first: nat, epochs: seq<nat>, ds: seq<Decision>)
    requires IsLog(s, first, epochs, ds)
    ensures Increasing(AttemptedTargets(ds))
    decreases |ds|
  {
    assert |epochs| == |ds|;
    hide IsLog, IsTarget, Increasing;
    IncreasingNone();
    if ds != [] {
      var n := |ds| - 1;
      LogPrefix(s, first, epochs, ds, n);
      TargetsIncrease(s, first, epochs[..n], ds[..n]);
      if ds[n].Attempted? {
        forall t | t in AttemptedTargets(ds[..n]) ensures t < ds[n].target {
          AttemptedAt(ds[..n], t);
          var i :| 0 <= i < n && ds[..n][i] == Attempted(t);
          SettledOnce(s, first, epochs, ds, i, n);
        }
        IncreasingAppend(AttemptedTargets(ds[..n]), ds[n].target);
      }
    }
  }

  lemma IncreasingNone()
    ensures Increasing([])
  {
  }

  lemma IncreasingAppend(ts: seq<nat>, t: nat)
    requires Increasing(ts) && forall x | x in ts :: x < t
    ensures Increasing(ts + [t])
  {
    assert forall i | 0 <= i < |ts| :: ts[i] in ts;
  }

  /** No two of the writes are for one target. */
  ghost predicate OneForEach(ws: seq<StatusWrite>) {
    forall i, j | 0 <= i < j < |ws| :: ws[i].epoch < ws[j].epoch
  }

  /** A row is pending exactly if it was, or was not there, and no status write for it went
      through. */
  ghost predicate PendingIfNotWritten(before: Commits, after: Commits, ws: seq<StatusWrite>) {
    forall e | e in after ::
      after[e].status.Pending? <==> (e in before ==> before[e].status.Pending?) && NotWritten(ws, e)
  }

  /** What a session does to the rows, said of its calls: no row is lost or rewritten, blocks
      stay distinct and rows rebuildable; no target has more than one status write, and a row
      of the session is pending exactly if its write failed; and confirmed rows carry accepted
      roots if they did before and no call met a leftover. */
  ghost predicate Settles(k: Keccak, w: World, u: World, made: seq<Attempt>) {
    && RowsKept(w.commits, u.commits)
    && (BlocksDistinct(w.commits) ==> BlocksDistinct(u.commits))
    && (Rebuildable(k, w.commits) ==> Rebuildable(k, u.commits))
    && u.writes == w.writes + WritesOfAll(made) && OneForEach(WritesOfAll(made))
    && PendingIfNotWritten(w.commits, u.commits, WritesOfAll(made))
    && (Justified(w.calls, w.commits) && NoLeftovers(w, made) ==> Justified(u.calls, u.commits))
  }

  lemma SessionSettles(k: Keccak, chain: seq<Log>, start: nat, w: World, made: seq<Attempt>)
    requires AllSound(k, chain, start, made) && Increasing(Targets(made)) && Inserted(w, made)
    ensures Settles(k, w, After(w, made), made)
  {
    hide RowsKept, BlocksDistinct, Rebuildable, Justified, NoLeftovers, After, Inserted, WritesOfAll, NotWritten,
      Prepares;
    assert AllProper(made);
    CallsKeepRows(w, made);
    RecordsAfter(w, made);
    if Rebuildable(k, w.commits) { RunKeepsRoots(k, chain, start, w, made); }
    forall i, j | 0 <= i < j < |WritesOfAll(made)| ensures WritesOfAll(made)[i].epoch < WritesOfAll(made)[j].epoch {
      OneWriteEach(made, i, j);
    }
    forall e | e in After(w, made).commits ensures After(w, made).commits[e].status.Pending? <==>
      (e in w.commits ==> w.commits[e].status.Pending?) && NotWritten(WritesOfAll(made), e) {
      PendingExactly(w, made, e);
    }
    if Justified(w.calls, w.commits) && NoLeftovers(w, made) {
      RunStaysJustified(w, made);
    }
  }

  function EpochOf(cp: Checkpoint): nat { cp.epoch }

  function Epochs(cps: seq<Checkpoint>): seq<nat> { MapSeq(cps, EpochOf) }

  /** The target after the epoch a checkpoint finalizes fits in 64 bits. */
  ghost predicate Fits(s: Schedule, epoch: nat) {
    epoch > 0 && s != [] ==> NextExact(s, epoch - 1) < U64
  }
}
