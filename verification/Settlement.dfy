/** What calls of commit do to the commit rows, and what that says of whole runs
    (oracle/oracle.go:152-237, 323-349, storage/storage.go:411-444). */
module Settlement {
  import opened Bytes
  import opened Order
  import opened Merkle
  import opened Events
  import opened Storage
  import opened Chain
  import opened Syncer
  import opened Aggregate
  import opened OracleRun

  datatype Checkpoint = Checkpoint(epoch: u64, blockNum: u64, blockRoot: Hash)

  predicate IsZero(root: Hash) {
    forall i | 0 <= i < 32 :: root[i] == 0
  }

  /** How a commitRoot transaction ended. */
  datatype SendResult = Sent(txHash: Hash) | Reverted(revertHash: Option<Hash>) | NotSent(failHash: Option<Hash>)

  /** A request to the contract and its answer. */
  datatype ChainCall =
    | Query(block: nat, answer: Result<Hash>)
    | Send(sentBlock: nat, root: Hash, result: SendResult)

  /** What a commit computes: the balances of the clusters and the root of their tree. */
  datatype Computed = Computed(root: Hash, balances: seq<ClusterBalance>)

  /** One call of commit for a target at a checkpoint, working on the events up to the last
      block, with its requests to the beacon node. It fails before there is a root, fails to
      store the pending row, or asks the contract, sends the root if the contract has none,
      and writes the status. */
  datatype Attempt =
    | Unprepared(target: nat, cp: Checkpoint, last: nat, asked: seq<BeaconRequest>)
    | Unstored(target: nat, cp: Checkpoint, last: nat, asked: seq<BeaconRequest>, computed: Computed)
    | Settled(target: nat, cp: Checkpoint, last: nat, asked: seq<BeaconRequest>, computed: Computed,
              answer: Result<Hash>, result: Option<SendResult>, written: bool)

  predicate HasRoot(answer: Result<Hash>) {
    answer.Ok? && !IsZero(answer.value)
  }

  /** A root is sent exactly if the contract is not known to have one for the block. */
  predicate Proper(a: Attempt) {
    a.Settled? ==> (a.result.None? <==> HasRoot(a.answer))
  }

  function StatusOf(a: Attempt): CommitStatus
    requires a.Settled?
  {
    if HasRoot(a.answer) then (if a.answer.value == a.computed.root then Confirmed else Failed)
    else if a.result.Some? && a.result.value.Sent? then Confirmed else Failed
  }

  function HashOf(a: Attempt): Option<Hash>
    requires a.Settled?
  {
    match a.result
    case None => None
    case Some(Sent(h)) => Some(h)
    case Some(Reverted(h)) => h
    case Some(NotSent(h)) => h
  }

  function CallsOf(a: Attempt): seq<ChainCall> {
    if !a.Settled? then []
    else
      [Query(a.cp.blockNum, a.answer)]
      + if a.result.Some? then [Send(a.cp.blockNum, a.computed.root, a.result.value)] else []
  }

  function WritesOf(a: Attempt): seq<StatusWrite> {
    if a.Settled? then [StatusWrite(a.target, StatusOf(a), a.written)] else []
  }

  function Insertion(c: Commits, a: Attempt): Result<Commits>
    requires a.Settled?
  {
    InsertCommit(c, a.target, a.computed.root, a.cp.blockNum, a.computed.balances)
  }

  predicate Insertable(c: Commits, a: Attempt) {
    a.Settled? ==> Insertion(c, a).Ok?
  }

  function Stored(c: Commits, a: Attempt): Commits
    requires a.Settled?
  {
    if Insertion(c, a).Ok? then Insertion(c, a).value else c
  }

  /** The rows after one call. */
  function Effect(c: Commits, a: Attempt): Commits {
    if !a.Settled? then c
    else if a.written then UpdateStatus(Stored(c, a), a.target, StatusOf(a), HashOf(a))
    else Stored(c, a)
  }

  // ----- What the chain accepted -----

  /** The call shows that the chain has the root for the block: the contract returned it, or
      a successful transaction carried it. */
  predicate Shows(call: ChainCall, block: nat, root: Hash) {
    match call
    case Query(b, answer) => b == block && answer == Ok(root) && exists i :: 0 <= i < 32 && root[i] != 0
    case Send(b, r, result) => b == block && r == root && result.Sent?
  }

  ghost predicate Accepts(calls: seq<ChainCall>, block: nat, root: Hash) {
    exists i :: 0 <= i < |calls| && Shows(calls[i], block, root)
  }

  /** A call settles on confirmed exactly if the chain accepted its root. */
  lemma ConfirmedExactly(a: Attempt)
    requires a.Settled? && Proper(a)
    ensures StatusOf(a).Confirmed? <==> Accepts(CallsOf(a), a.cp.blockNum, a.computed.root)
    ensures !StatusOf(a).Pending?
  {
    var calls := CallsOf(a);
    assert StatusOf(a).Confirmed? ==> Shows(calls[if a.result.Some? then 1 else 0], a.cp.blockNum, a.computed.root);
  }

  /** The contract is asked for the block's root first, and the call's root is sent for the
      block exactly if the answer was an error or all zeros. */
  lemma SentExactly(a: Attempt)
    requires a.Settled? && Proper(a)
    ensures CallsOf(a) != [] && CallsOf(a)[0] == Query(a.cp.blockNum, a.answer)
    ensures (exists c :: c in CallsOf(a) && c.Send?) <==>
      a.answer.Err? || forall i | 0 <= i < 32 :: a.answer.value[i] == 0
    ensures forall c | c in CallsOf(a) && c.Send? :: c.sentBlock == a.cp.blockNum && c.root == a.computed.root
  {
    if a.result.Some? { assert Send(a.cp.blockNum, a.computed.root, a.result.value) in CallsOf(a); }
  }

  /** The hash of the transaction a call sent, as far as it is known. */
  predicate KnowsHash(a: Attempt, h: Hash) {
    a.Settled? && a.result.Some? && a.result.value in {Sent(h), Reverted(Some(h)), NotSent(Some(h))}
  }

  /** The target's row after a call that stored it or found it pending. A new row holds the
      root, the block and the balances computed; a found one keeps its own. If the status is
      written, it is confirmed exactly if the contract had this root or the transaction went
      through, and failed otherwise, with the transaction's hash if it is known; if not, the
      row stays pending. */
  lemma RowAfterCall(c: Commits, a: Attempt)
    requires a.Settled? && Proper(a) && Insertable(c, a) && (a.target in c ==> c[a.target].status.Pending?)
    ensures a.target in Effect(c, a)
    ensures var row := Effect(c, a)[a.target];
      && (if a.target in c then
            && row.merkleRoot == c[a.target].merkleRoot && row.referenceBlock == c[a.target].referenceBlock
            && row.balances == c[a.target].balances
          else
            && row.merkleRoot == a.computed.root && row.referenceBlock == a.cp.blockNum
            && row.balances == a.computed.balances)
      && (row.status.Pending? <==> !a.written)
      && (row.status.Confirmed? <==>
            a.written && if a.result.Some? then a.result.value.Sent? else a.answer == Ok(a.computed.root))
      && (forall h | a.written && KnowsHash(a, h) :: row.txHash == Some(h))
      && ((!a.written || forall h :: !KnowsHash(a, h)) ==>
            row.txHash == if a.target in c then c[a.target].txHash else None)
  {
    ConfirmedExactly(a);
    if HashOf(a).Some? { assert KnowsHash(a, HashOf(a).value); }
  }

  lemma AcceptsMore(calls: seq<ChainCall>, more: seq<ChainCall>, block: nat, root: Hash)
    ensures Accepts(calls, block, root) || Accepts(more, block, root) <==> Accepts(calls + more, block, root)
  {
    var all := calls + more;
    if i :| 0 <= i < |all| && Shows(all[i], block, root) {
      assert if i < |calls| then Shows(calls[i], block, root) else Shows(more[i - |calls|], block, root);
    }
    if i :| 0 <= i < |calls| && Shows(calls[i], block, root) { assert Shows(all[i], block, root); }
    if i :| 0 <= i < |more| && Shows(more[i], block, root) { assert Shows(all[|calls| + i], block, root); }
  }

  /** Every confirmed row carries a root the chain accepted for the row's block. */
  ghost predicate Justified(calls: seq<ChainCall>, c: Commits) {
    forall e | e in c && c[e].status.Confirmed? :: Accepts(calls, c[e].referenceBlock, c[e].merkleRoot)
  }

  /** A call for the target, once it has this root for this block, would find a leftover: a
      pending row of another root or block, which the chain has not been seen to accept. */
  ghost predicate MeetsLeftover(calls: seq<ChainCall>, c: Commits, t: nat, block: nat, root: Hash) {
    && t in c && c[t].status.Pending? && (c[t].merkleRoot != root || c[t].referenceBlock != block)
    && !Accepts(calls, c[t].referenceBlock, c[t].merkleRoot)
  }

  /** A call that has stored its row and goes on to settle it, whatever the contract says. */
  predicate SettlesFor(a: Attempt, t: nat, block: nat, comp: Computed) {
    a.Settled? && Proper(a) && a.target == t && a.cp.blockNum == block && a.computed == comp
  }

  /** Whether settling keeps all confirmed rows justified can be told beforehand, on any
      table: it does, however it goes, exactly if there is no leftover to meet. */
  lemma JustifiedExactly(calls: seq<ChainCall>, c: Commits, t: nat, cp: Checkpoint, comp: Computed)
    requires Justified(calls, c) && InsertCommit(c, t, comp.root, cp.blockNum, comp.balances).Ok?
    ensures (forall a | SettlesFor(a, t, cp.blockNum, comp) :: Justified(calls + CallsOf(a), Effect(c, a)))
      <==> !MeetsLeftover(calls, c, t, cp.blockNum, comp.root)
  {
    hide Justified, CallsOf, Effect, Accepts;
    if MeetsLeftover(calls, c, t, cp.blockNum, comp.root) {
      var hash: Hash := seq(32, _ => 0);
      var a := Settled(t, cp, cp.blockNum, [], comp, Err, Some(Sent(hash)), true);
      assert SettlesFor(a, t, cp.blockNum, comp);
      LeftoverBreaks(calls, c, a);
    } else {
      forall a | SettlesFor(a, t, cp.blockNum, comp) ensures Justified(calls + CallsOf(a), Effect(c, a)) {
        StaysJustified(calls, c, a);
      }
    }
  }

  lemma StaysJustified(calls: seq<ChainCall>, c: Commits, a: Attempt)
    requires Justified(calls, c) && Proper(a) && Insertable(c, a)
    requires a.Settled? ==> !MeetsLeftover(calls, c, a.target, a.cp.blockNum, a.computed.root)
    ensures Justified(calls + CallsOf(a), Effect(c, a))
  {
    hide Accepts, CallsOf;
    forall block, root ensures Accepts(calls, block, root) || Accepts(CallsOf(a), block, root)
      <==> Accepts(calls + CallsOf(a), block, root) {
      AcceptsMore(calls, CallsOf(a), block, root);
    }
    if a.Settled? {
      ConfirmedExactly(a);
      OnlyTarget(c, a);
    }
  }

  lemma LeftoverBreaks(calls: seq<ChainCall>, c: Commits, a: Attempt)
    requires a.Settled? && MeetsLeftover(calls, c, a.target, a.cp.blockNum, a.computed.root)
    requires Proper(a) && StatusOf(a).Confirmed? && a.written
    ensures var row := c[a.target];
      && a.target in Effect(c, a) && Effect(c, a)[a.target].status.Confirmed?
      && Effect(c, a)[a.target].merkleRoot == row.merkleRoot
      && Effect(c, a)[a.target].referenceBlock == row.referenceBlock
      && !Accepts(calls + CallsOf(a), row.referenceBlock, row.merkleRoot)
    ensures !Justified(calls + CallsOf(a), Effect(c, a))
  {
    var row := c[a.target];
    AcceptsMore(calls, CallsOf(a), row.referenceBlock, row.merkleRoot);
    assert !Accepts(CallsOf(a), row.referenceBlock, row.merkleRoot);
  }

  /** A call touches no row but its target's. */
  lemma OnlyTarget(c: Commits, a: Attempt)
    ensures c.Keys <= Effect(c, a).Keys
    ensures forall e | e in Effect(c, a) && !(a.Settled? && e == a.target) :: e in c && Effect(c, a)[e] == c[e]
    ensures RowsKept(c, Effect(c, a))
  {
  }

  /** A leftover does get confirmed: a first call stores a root for epoch 10 and its status
      write fails; the oracle goes on to later blocks and restarts with an earlier finalized
      epoch; a second call for epoch 10, computed from the later state, sends another root.
      The row ends confirmed with the root nobody accepted. */
  lemma LeftoverIsConfirmed(cp: Checkpoint, later: nat, asked: seq<BeaconRequest>, askedLater: seq<BeaconRequest>,
                            first: Computed, second: Computed, txHash: Hash)
    returns (c: Commits, calls: seq<ChainCall>)
    requires first.root != second.root && cp.epoch == 11 && later > cp.blockNum
    ensures var a := Settled(10, cp, cp.blockNum, asked, first, Err, Some(NotSent(None)), false);
      var b := Settled(10, cp, later, askedLater, second, Err, Some(Sent(txHash)), true);
      && Proper(a) && Proper(b)
      && c == Effect(Effect(map[], a), b) && calls == CallsOf(a) + CallsOf(b)
      && c[10].status.Confirmed? && c[10].merkleRoot == first.root && !Justified(calls, c)
  {
    var a := Settled(10, cp, cp.blockNum, asked, first, Err, Some(NotSent(None)), false);
    var b := Settled(10, cp, later, askedLater, second, Err, Some(Sent(txHash)), true);
    c, calls := Effect(Effect(map[], a), b), CallsOf(a) + CallsOf(b);
    var block := cp.blockNum;
    assert calls == [Query(block, Err), Send(block, first.root, NotSent(None)),
                     Query(block, Err), Send(block, second.root, Sent(txHash))];
    assert !Accepts(calls, block, first.root);
  }

  // ----- What a commit is computed from -----

  /** Every row's root is the root of its own stored balances. */
  ghost predicate Rebuildable(k: Keccak, c: Commits) {
    forall e | e in c :: RowRebuilds(k, c[e])
  }

  ghost predicate RowRebuilds(k: Keccak, row: CommitRow) {
    Distinct(MapSeq(row.balances, IDOf)) && row.merkleRoot == RootOfMap(k, BalancesOf(row.balances))
  }

  /** The log adds v and does not remove it later, and the last event of v's cluster says active. */
  ghost predicate ActiveIn(k: Keccak, logs: seq<Log>, v: Validator) {
    LastIsAdd(k, logs, v) && exists e :: LastEvent(k, logs, v.0, e) && e.cluster.active
  }

  /** The active validators of the database synced to a block. */
  ghost function ActiveAt(k: Keccak, chain: seq<Log>, start: nat, last: nat): set<Validator>
    requires SyncedTo(k, chain, start, last).Ok?
  {
    ActiveSet(SyncedTo(k, chain, start, last).value)
  }

  /** They are exactly the validators active by the events above the initial cursor. */
  lemma ActiveByEvents(k: Keccak, chain: seq<Log>, start: nat, last: nat, v: Validator)
    requires SyncedTo(k, chain, start, last).Ok?
    ensures v in ActiveAt(k, chain, start, last) <==> ActiveIn(k, Slice(chain, start + 1, last), v)
  {
    ActiveAfterReplay(k, Slice(chain, start + 1, last), start, v);
  }

  /** The balances are the figures of the active validators' clusters by what the beacon node
      answered, each listed once, and the root is the root of their tree. */
  ghost predicate IsComputed(k: Keccak, active: set<Validator>, beacon: Beacon, c: Computed) {
    && Distinct(MapSeq(c.balances, IDOf)) && BalancesOf(c.balances) == ActiveBalances(active, beacon)
    && c.root == CommittedRoot(k, active, beacon)
  }

  /** What comes before the pending row is stored, by the book: the beacon node is asked as it
      should be about the validators active at the last block; there is no root exactly if it
      was asked nothing or declined, and otherwise the root is that of what it answered. */
  ghost predicate Prepares(k: Keccak, chain: seq<Log>, start: nat, cp: Checkpoint, last: nat,
                           asked: seq<BeaconRequest>, r: Result<Computed>) {
    && (r.Err? <==> asked == [] || Declined(asked))
    && (asked != [] ==>
          && SyncedTo(k, chain, start, last).Ok?
          && AsksInOrder(asked, cp.blockRoot, ActiveAt(k, chain, start, last))
          && (r.Ok? ==> IsComputed(k, ActiveAt(k, chain, start, last), BeaconOf(asked), r.value)))
  }

  function ComputedBy(a: Attempt): Result<Computed> {
    if a.Unprepared? then Err else Ok(a.computed)
  }

  /** An attempt by the book. */
  ghost predicate Sound(k: Keccak, chain: seq<Log>, start: nat, a: Attempt) {
    Proper(a) && a.last >= a.cp.blockNum && Prepares(k, chain, start, a.cp, a.last, a.asked, ComputedBy(a))
  }

  /** From events to root: whatever gets a root was told of the verified block and the
      balances of exactly the validators whose last event up to its last block is an add and
      whose cluster's last event says active; its root and its balances are theirs. */
  lemma RootFromEvents(k: Keccak, chain: seq<Log>, start: nat, a: Attempt, active: set<Validator>)
    requires Sound(k, chain, start, a) && !a.Unprepared?
    requires forall v :: v in active <==> ActiveIn(k, Slice(chain, start + 1, a.last), v)
    ensures AsksInOrder(a.asked, a.cp.blockRoot, active) && a.asked[0].ok && (active != {} ==> a.asked[1].answer.Ok?)
    ensures BeaconOf(a.asked) == if active == {} then map[] else a.asked[1].answer.value
    ensures a.computed.root == CommittedRoot(k, active, BeaconOf(a.asked))
    ensures BalancesOf(a.computed.balances) == ActiveBalances(active, BeaconOf(a.asked))
  {
    forall v ensures v in ActiveAt(k, chain, start, a.last) <==> v in active {
      ActiveByEvents(k, chain, start, a.last, v);
    }
    assert ActiveAt(k, chain, start, a.last) == active;
    assert WentWell(a.asked[0]);
    if active != {} { assert WentWell(a.asked[1]); }
  }

  // ----- Sequences of calls -----

  /** The commit rows, the requests to contract and beacon node, and the status writes so far. */
  datatype World = World(commits: Commits, calls: seq<ChainCall>, asked: seq<BeaconRequest>, writes: seq<StatusWrite>)

  function Step(w: World, a: Attempt): World {
    World(Effect(w.commits, a), w.calls + CallsOf(a), w.asked + a.asked, w.writes + WritesOf(a))
  }

  function After(w: World, attempts: seq<Attempt>): World {
    if attempts == [] then w else Step(After(w, attempts[..|attempts|-1]), attempts[|attempts|-1])
  }

  function Targets(attempts: seq<Attempt>): seq<nat> {
    MapSeq(attempts, (a: Attempt) => a.target)
  }

  function CheckpointsOf(attempts: seq<Attempt>): seq<Checkpoint> {
    MapSeq(attempts, (a: Attempt) => a.cp)
  }

  ghost predicate AllSound(k: Keccak, chain: seq<Log>, start: nat, attempts: seq<Attempt>) {
    forall a | a in attempts :: Sound(k, chain, start, a)
  }

  ghost predicate Increasing(ts: seq<nat>) {
    forall i, j | 0 <= i < j < |ts| :: ts[i] < ts[j]
  }

  lemma AfterOne(w: World, attempts: seq<Attempt>, a: Attempt)
    ensures After(w, attempts + [a]) == Step(After(w, attempts), a)
    ensures Targets(attempts + [a]) == Targets(attempts) + [a.target]
    ensures CheckpointsOf(attempts + [a]) == CheckpointsOf(attempts) + [a.cp]
  {
    assert (attempts + [a])[..|attempts|] == attempts;
  }

  /** Whatever the calls: no row is lost, fixed columns and settled rows never change, and
      blocks stay distinct. */
  lemma {:induction false} CallsKeepRows(w: World, attempts: seq<Attempt>)
    ensures RowsKept(w.commits, After(w, attempts).commits)
    ensures BlocksDistinct(w.commits) ==> BlocksDistinct(After(w, attempts).commits)
  {
    if attempts != [] {
      var n := |attempts| - 1;
      CallsKeepRows(w, attempts[..n]);
      var c, a := After(w, attempts[..n]).commits, attempts[n];
      OnlyTarget(c, a);
      OneCallKeepsBlocks(c, a);
      KeptTransitive(w.commits, c, Effect(c, a));
    }
  }

  lemma KeptTransitive(b: Commits, c: Commits, d: Commits)
    requires RowsKept(b, c) && RowsKept(c, d)
    ensures RowsKept(b, d)
  {
  }

  lemma OneCallKeepsBlocks(c: Commits, a: Attempt)
    ensures BlocksDistinct(c) ==> BlocksDistinct(Effect(c, a))
  {
    hide StatusOf, HashOf;
  }

  /** The row carries what the call computed. */
  predicate IsRowOf(row: CommitRow, a: Attempt) {
    a.Settled? && row.merkleRoot == a.computed.root && row.balances == a.computed.balances
      && row.referenceBlock == a.cp.blockNum
  }

  /** Every row that is not from before is the row of a call for its epoch. */
  lemma {:induction false} RowHasAttempt(w: World, attempts: seq<Attempt>, e: nat)
    requires e in After(w, attempts).commits && e !in w.commits
    ensures exists j :: 0 <= j < |attempts| && attempts[j].target == e &&
              IsRowOf(After(w, attempts).commits[e], attempts[j])
  {
    var n := |attempts| - 1;
    var c, a := After(w, attempts[..n]).commits, attempts[n];
    OnlyTarget(c, a);
    if e in c {
      RowHasAttempt(w, attempts[..n], e);
      var j :| 0 <= j < n && attempts[..n][j].target == e && IsRowOf(c[e], attempts[..n][j]);
      assert IsRowOf(Effect(c, a)[e], attempts[j]);
    } else {
      assert IsRowOf(Effect(c, a)[e], attempts[n]);
    }
  }

  /** From events to rows: the balances of every row a run adds are the figures of exactly the
      validators active by the events up to its call's last block, with what the beacon node
      told this call, and its root is theirs. */
  lemma RowFromEvents(k: Keccak, chain: seq<Log>, start: nat, w: World, attempts: seq<Attempt>, e: nat)
    returns (a: Attempt)
    requires AllSound(k, chain, start, attempts)
    requires e in After(w, attempts).commits && e !in w.commits
    ensures a in attempts && a.target == e && IsRowOf(After(w, attempts).commits[e], a)
    ensures FromEvents(k, chain, start, After(w, attempts).commits[e], a.last, BeaconOf(a.asked))
  {
    hide After, Sound, IsComputed, BalancesOf, ActiveBalances, CommittedRoot, SyncedTo;
    RowHasAttempt(w, attempts, e);
    var j :| 0 <= j < |attempts| && attempts[j].target == e && IsRowOf(After(w, attempts).commits[e], attempts[j]);
    a := attempts[j];
    assert Sound(k, chain, start, a);
    forall active: set<Validator> | forall v :: v in active <==> ActiveIn(k, Slice(chain, start + 1, a.last), v)
      ensures BalancesOf(a.computed.balances) == ActiveBalances(active, BeaconOf(a.asked)) {
      RootFromEvents(k, chain, start, a, active);
    }
    SoundRow(k, chain, start, a);
  }

  /** The row's balances, each listed once, are the figures of the validators active by the
      events up to a block not below the row's, and its root is the root of their tree. */
  ghost predicate FromEvents(k: Keccak, chain: seq<Log>, start: nat, row: CommitRow, last: nat, beacon: Beacon) {
    && last >= row.referenceBlock && RowRebuilds(k, row)
    && forall active: set<Validator> | forall v :: v in active <==> ActiveIn(k, Slice(chain, start + 1, last), v) ::
         BalancesOf(row.balances) == ActiveBalances(active, beacon)
  }

  lemma SoundRow(k: Keccak, chain: seq<Log>, start: nat, a: Attempt)
    requires Sound(k, chain, start, a) && !a.Unprepared?
    ensures a.last >= a.cp.blockNum && Distinct(MapSeq(a.computed.balances, IDOf))
    ensures a.computed.root == RootOfMap(k, BalancesOf(a.computed.balances))
  {
  }

  /** Rows stay rebuildable. */
  lemma RunKeepsRoots(k: Keccak, chain: seq<Log>, start: nat, w: World, attempts: seq<Attempt>)
    requires AllSound(k, chain, start, attempts) && Rebuildable(k, w.commits)
    ensures Rebuildable(k, After(w, attempts).commits)
  {
    hide After, AllSound, RowRebuilds, FromEvents;
    CallsKeepRows(w, attempts);
    forall e | e in After(w, attempts).commits ensures RowRebuilds(k, After(w, attempts).commits[e]) {
      if e in w.commits {
        SameRebuilds(k, w.commits[e], After(w, attempts).commits[e]);
      } else {
        var a := RowFromEvents(k, chain, start, w, attempts, e);
        FromEventsRebuilds(k, chain, start, After(w, attempts).commits[e], a.last, BeaconOf(a.asked));
      }
    }
  }

  lemma SameRebuilds(k: Keccak, row: CommitRow, row': CommitRow)
    requires RowRebuilds(k, row) && row'.merkleRoot == row.merkleRoot && row'.balances == row.balances
    ensures RowRebuilds(k, row')
  {
  }

  lemma FromEventsRebuilds(k: Keccak, chain: seq<Log>, start: nat, row: CommitRow, last: nat, beacon: Beacon)
    requires FromEvents(k, chain, start, row, last, beacon)
    ensures RowRebuilds(k, row)
  {
  }

  /** The status writes of a run, one for each call that stored a row. */
  function WritesOfAll(attempts: seq<Attempt>): seq<StatusWrite> {
    if attempts == [] then [] else WritesOfAll(attempts[..|attempts|-1]) + WritesOf(attempts[|attempts|-1])
  }

  /** Every insert found its block free or its epoch taken. */
  ghost predicate Inserted(w: World, attempts: seq<Attempt>) {
    attempts == [] || (
      var n := |attempts| - 1;
      Inserted(w, attempts[..n]) && Insertable(After(w, attempts[..n]).commits, attempts[n]))
  }

  ghost predicate AllProper(attempts: seq<Attempt>) {
    forall a | a in attempts :: Proper(a)
  }

  /** No status write for the epoch went through. */
  ghost predicate NotWritten(ws: seq<StatusWrite>, e: nat) {
    forall x | x in ws && x.epoch == e :: !x.ok
  }

  /** A row is pending at the end exactly if it was pending before, or was not there, and no
      status write for it went through. So if all writes go through, no row of the run is
      pending, and a leftover whose target is attempted stops being pending. */
  lemma {:induction false} PendingExactly(w: World, attempts: seq<Attempt>, e: nat)
    requires AllProper(attempts) && Inserted(w, attempts) && e in After(w, attempts).commits
    ensures After(w, attempts).commits[e].status.Pending? <==>
      (e in w.commits ==> w.commits[e].status.Pending?) && NotWritten(WritesOfAll(attempts), e)
    decreases |attempts|
  {
    if attempts != [] {
      var n := |attempts| - 1;
      var c, a := After(w, attempts[..n]).commits, attempts[n];
      OnlyTarget(c, a);
      if e in c {
        PendingExactly(w, attempts[..n], e);
        PendingStep(c, a, e);
      } else {
        CallsKeepRows(w, attempts[..n]);
        NoRowNoWrite(w, attempts[..n], e);
        ConfirmedExactly(a);
      }
    }
  }

  lemma PendingStep(c: Commits, a: Attempt, e: nat)
    requires Proper(a) && e in c
    ensures e in Effect(c, a)
    ensures Effect(c, a)[e].status.Pending? <==> c[e].status.Pending? && NotWritten(WritesOf(a), e)
  {
    if a.Settled? {
      ConfirmedExactly(a);
      assert WritesOf(a) == [StatusWrite(a.target, StatusOf(a), a.written)];
    }
  }

  /** A write is for a row that is there. */
  lemma {:induction false} NoRowNoWrite(w: World, attempts: seq<Attempt>, e: nat)
    requires Inserted(w, attempts) && e !in After(w, attempts).commits
    ensures forall x | x in WritesOfAll(attempts) :: x.epoch != e
    decreases |attempts|
  {
    if attempts != [] {
      var n := |attempts| - 1;
      OnlyTarget(After(w, attempts[..n]).commits, attempts[n]);
      NoRowNoWrite(w, attempts[..n], e);
    }
  }

  /** Beacon requests, contract requests and status writes are those of the calls, in order. */
  lemma {:induction false} RecordsAfter(w: World, attempts: seq<Attempt>)
    ensures After(w, attempts).writes == w.writes + WritesOfAll(attempts)
    ensures w.calls <= After(w, attempts).calls
  {
    if attempts != [] { RecordsAfter(w, attempts[..|attempts|-1]); }
  }

  lemma {:induction false} WriteHasAttempt(attempts: seq<Attempt>, i: nat)
    requires i < |WritesOfAll(attempts)|
    ensures exists j :: 0 <= j < |attempts| && attempts[j].Settled? &&
              attempts[j].target == WritesOfAll(attempts)[i].epoch
  {
    var n := |attempts| - 1;
    if i < |WritesOfAll(attempts[..n])| {
      WriteHasAttempt(attempts[..n], i);
    }
  }

  /** If no target is attempted twice, none has more than one status write. */
  lemma {:induction false} OneWriteEach(attempts: seq<Attempt>, i: nat, j: nat)
    requires Increasing(Targets(attempts)) && i < j < |WritesOfAll(attempts)|
    ensures WritesOfAll(attempts)[i].epoch < WritesOfAll(attempts)[j].epoch
  {
    var n := |attempts| - 1;
    assert Targets(attempts[..n]) == Targets(attempts)[..n];
    if j < |WritesOfAll(attempts[..n])| {
      OneWriteEach(attempts[..n], i, j);
    } else {
      WriteHasAttempt(attempts[..n], i);
      var m :| 0 <= m < n && attempts[..n][m].target == WritesOfAll(attempts[..n])[i].epoch;
      assert Targets(attempts)[m] < Targets(attempts)[n];
    }
  }

  // ----- Runs and leftovers -----

  /** No call of the run meets a leftover from before it. */
  ghost predicate NoLeftovers(w: World, attempts: seq<Attempt>) {
    forall a | a in attempts && a.Settled? ::
      !MeetsLeftover(w.calls, w.commits, a.target, a.cp.blockNum, a.computed.root)
  }

  /** A row that the last call finds pending was there before the run. */
  lemma FoundFromBefore(w: World, attempts: seq<Attempt>)
    requires attempts != [] && Increasing(Targets(attempts))
    ensures var n := |attempts| - 1; var a, v := attempts[n], After(w, attempts[..n]);
      a.Settled? && MeetsLeftover(v.calls, v.commits, a.target, a.cp.blockNum, a.computed.root) ==>
        MeetsLeftover(w.calls, w.commits, a.target, a.cp.blockNum, a.computed.root)
  {
    hide After, Accepts;
    var n := |attempts| - 1;
    var a, v := attempts[n], After(w, attempts[..n]);
    if a.Settled? && MeetsLeftover(v.calls, v.commits, a.target, a.cp.blockNum, a.computed.root) {
      if a.target !in w.commits {
        RowHasAttempt(w, attempts[..n], a.target);
        assert false;
      }
      CallsKeepRows(w, attempts[..n]);
      RecordsAfter(w, attempts[..n]);
      var row := v.commits[a.target];
      AcceptsMore(w.calls, v.calls[|w.calls|..], row.referenceBlock, row.merkleRoot);
      assert v.calls == w.calls + v.calls[|w.calls|..];
    }
  }

  /** Without leftovers, confirmed rows carry accepted roots after a run if they did before. */
  lemma {:induction false} RunStaysJustified(w: World, attempts: seq<Attempt>)
    requires Justified(w.calls, w.commits) && NoLeftovers(w, attempts)
    requires Increasing(Targets(attempts)) && Inserted(w, attempts) && AllProper(attempts)
    ensures Justified(After(w, attempts).calls, After(w, attempts).commits)
  {
    hide Justified, Effect, CallsOf, Accepts, MeetsLeftover;
    if attempts != [] {
      var n := |attempts| - 1;
      assert Targets(attempts[..n]) == Targets(attempts)[..n];
      RunStaysJustified(w, attempts[..n]);
      FoundFromBefore(w, attempts);
      StaysJustified(After(w, attempts[..n]).calls, After(w, attempts[..n]).commits, attempts[n]);
    }
  }

  /** The same calls, up to what the contract answers and whether the status is written. */
  predicate SameCall(a: Attempt, b: Attempt) {
    && a.target == b.target && (a.Settled? <==> b.Settled?)
    && (a.Settled? ==> SettlesFor(b, a.target, a.cp.blockNum, a.computed))
  }

  ghost predicate SameCalls(attempts: seq<Attempt>, bs: seq<Attempt>) {
    |attempts| == |bs| && forall i | 0 <= i < |attempts| :: SameCall(attempts[i], bs[i])
  }

  /** Rows of the same epochs and blocks. */
  ghost predicate SameBlocks(c: Commits, d: Commits) {
    c.Keys == d.Keys && forall e | e in c :: d[e].referenceBlock == c[e].referenceBlock
  }

  lemma SameStep(c: Commits, d: Commits, a: Attempt, b: Attempt)
    requires SameBlocks(c, d) && SameCall(a, b)
    ensures Insertable(c, a) <==> Insertable(d, b)
    ensures SameBlocks(Effect(c, a), Effect(d, b))
  {
    hide StatusOf, HashOf;
    forall block ensures BlockTaken(c, block) <==> BlockTaken(d, block) {
      if e :| e in c && c[e].referenceBlock == block { assert d[e].referenceBlock == block; }
      if e :| e in d && d[e].referenceBlock == block { assert c[e].referenceBlock == block; }
    }
  }

  lemma {:induction false} SameInserted(w: World, attempts: seq<Attempt>, bs: seq<Attempt>)
    requires SameCalls(attempts, bs) && Inserted(w, attempts)
    ensures Inserted(w, bs) && SameBlocks(After(w, attempts).commits, After(w, bs).commits)
    decreases |attempts|
  {
    hide SameBlocks, Insertable, Effect, SameCall;
    if attempts == [] {
      SameSelf(w.commits);
    } else {
      var n := |attempts| - 1;
      SameInserted(w, attempts[..n], bs[..n]);
      SameStep(After(w, attempts[..n]).commits, After(w, bs[..n]).commits, attempts[n], bs[n]);
    }
  }

  lemma SameSelf(c: Commits)
    ensures SameBlocks(c, c)
  {
  }

  /** The run in which only the i-th call's transaction and status write succeed. */
  function OnlySends(attempts: seq<Attempt>, i: nat): seq<Attempt> {
    seq(|attempts|, j requires 0 <= j < |attempts| =>
      if !attempts[j].Settled? then attempts[j]
      else if j == i then attempts[j].(answer := Err, result := Some(Sent(seq(32, _ => 0))), written := true)
      else attempts[j].(answer := Err, result := Some(NotSent(None)), written := false))
  }

  /** Then the leftover that the i-th call meets stays as it is up to this call, ends
      confirmed, and is never accepted. */
  lemma {:induction false} LeftoverStays(w: World, attempts: seq<Attempt>, i: nat, n: nat)
    requires i < |attempts| && n <= |attempts| && attempts[i].Settled?
    requires var a := attempts[i]; MeetsLeftover(w.calls, w.commits, a.target, a.cp.blockNum, a.computed.root)
    ensures var t := attempts[i].target; var row, v := w.commits[t], After(w, OnlySends(attempts, i)[..n]);
      && t in v.commits
      && v.commits[t].merkleRoot == row.merkleRoot && v.commits[t].referenceBlock == row.referenceBlock
      && !Accepts(v.calls, row.referenceBlock, row.merkleRoot)
      && (if n <= i then v.commits[t].status.Pending? else v.commits[t].status.Confirmed?)
  {
    if n > 0 {
      LeftoverStays(w, attempts, i, n - 1);
      var bs := OnlySends(attempts, i);
      var b, v := bs[n-1], After(w, bs[..n-1]);
      assert bs[..n][..n-1] == bs[..n-1];
      hide Accepts, After, Effect;
      assert After(w, bs[..n]) == Step(v, b) by { AfterLast(w, bs[..n]); }
      if n - 1 == i {
        LeftoverBreaks(v.calls, v.commits, b);
      } else {
        Untouched(v, b, attempts[i].target, w.commits[attempts[i].target]);
      }
    }
  }

  lemma AfterLast(w: World, attempts: seq<Attempt>)
    requires attempts != []
    ensures After(w, attempts) == Step(After(w, attempts[..|attempts|-1]), attempts[|attempts|-1])
  {
  }

  lemma Untouched(v: World, b: Attempt, t: nat, row: CommitRow)
    requires t in v.commits && !Accepts(v.calls, row.referenceBlock, row.merkleRoot)
    requires b.Settled? ==> b.answer.Err? && b.result == Some(NotSent(None)) && !b.written
    ensures t in Effect(v.commits, b) && Effect(v.commits, b)[t] == v.commits[t]
    ensures !Accepts(v.calls + CallsOf(b), row.referenceBlock, row.merkleRoot)
  {
    AcceptsMore(v.calls, CallsOf(b), row.referenceBlock, row.merkleRoot);
    assert !Accepts(CallsOf(b), row.referenceBlock, row.merkleRoot);
  }

  /** Over a run too it can be told beforehand: with what the contract answers and which
      writes go through left open, confirmed rows surely carry accepted roots after it exactly
      if none of its calls meets a leftover from before. */
  lemma RunJustifiedExactly(w: World, attempts: seq<Attempt>)
    requires Justified(w.calls, w.commits) && Inserted(w, attempts)
    requires Increasing(Targets(attempts)) && AllProper(attempts)
    ensures (forall bs | SameCalls(attempts, bs) :: Justified(After(w, bs).calls, After(w, bs).commits))
      <==> NoLeftovers(w, attempts)
  {
    hide After, Accepts, Inserted;
    if NoLeftovers(w, attempts) {
      forall bs | SameCalls(attempts, bs) ensures Justified(After(w, bs).calls, After(w, bs).commits) {
        assert Targets(bs) == Targets(attempts);
        SameInserted(w, attempts, bs);
        RunStaysJustified(w, bs);
      }
    } else {
      var a :| a in attempts && a.Settled?
        && MeetsLeftover(w.calls, w.commits, a.target, a.cp.blockNum, a.computed.root);
      var i :| 0 <= i < |attempts| && attempts[i] == a;
      var bs := OnlySends(attempts, i);
      LeftoverStays(w, attempts, i, |attempts|);
      assert bs[..|attempts|] == bs && SameCalls(attempts, bs);
      assert a.target in w.commits;
      assert !Justified(After(w, bs).calls, After(w, bs).commits);
    }
  }
}
