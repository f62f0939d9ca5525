/** The oracle's main loop and the life of a commit (oracle/oracle.go:66-237, 323-349,
    storage/storage.go:410-444). */
module OracleRun {
  import opened Bytes
  import opened Order
  import opened Merkle
  import opened Events
  import opened Storage
  import opened Execution
  import opened Syncer
  import opened Aggregate
  import opened Phase

  // ----- Commit rows -----

  /** No row is lost, no row changes its root, block or balances, and a row that is no
      longer pending does not change at all. */
  ghost predicate RowsKept(c: Commits, d: Commits) {
    forall e | e in c :: e in d
      && d[e].merkleRoot == c[e].merkleRoot && d[e].referenceBlock == c[e].referenceBlock
      && d[e].balances == c[e].balances
      && (!c[e].status.Pending? ==> d[e] == c[e])
  }

  datatype Write =
    | Insert(epoch: nat, root: Hash, block: nat, balances: seq<ClusterBalance>)
    | Update(epoch: nat, status: CommitStatus, txHash: Option<Hash>)

  function ApplyWrite(c: Commits, w: Write): Commits {
    match w
    case Insert(epoch, root, block, balances) =>
      var r := InsertCommit(c, epoch, root, block, balances);
      if r.Ok? then r.value else c
    case Update(epoch, status, txHash) => UpdateStatus(c, epoch, status, txHash)
  }

  function ApplyWrites(c: Commits, ws: seq<Write>): Commits {
    if ws == [] then c else ApplyWrite(ApplyWrites(c, ws[..|ws|-1]), ws[|ws|-1])
  }

  /** No two epochs refer to the same block. */
  ghost predicate BlocksDistinct(c: Commits) {
    forall d, e | d in c && e in c && d != e :: c[d].referenceBlock != c[e].referenceBlock
  }

  /** Any sequence of the two writes, from any callers in any order, keeps every row. */
  lemma {:induction false} AnyWritesKeepRows(c: Commits, ws: seq<Write>, n: nat)
    requires n <= |ws|
    ensures RowsKept(ApplyWrites(c, ws[..n]), ApplyWrites(c, ws))
    ensures BlocksDistinct(c) ==> BlocksDistinct(ApplyWrites(c, ws))
  {
    if ws != [] {
      var m := |ws| - 1;
      AnyWritesKeepRows(c, ws[..m], if n <= m then n else 0);
      if n <= m { assert ws[..m][..n] == ws[..n]; } else { assert ws[..n] == ws; }
    }
  }

  // ----- The schedule decisions -----

  datatype Decision = Ignored | Waiting(next: nat) | Missed(missed: nat) | Attempted(target: nat)

  /** The highest fully finalized epoch after the checkpoints, first being the one at the start. */
  function Highest(first: nat, epochs: seq<nat>): nat {
    if epochs == [] then first
    else Later(Highest(first, epochs[..|epochs|-1]), if epochs[|epochs|-1] == 0 then 0 else epochs[|epochs|-1] - 1)
  }

  /** The decision for a checkpoint, given the highest epoch finalized before it. */
  ghost predicate Decides(s: Schedule, high: nat, epoch: nat, d: Decision) {
    match d
    case Ignored => epoch == 0
    case Waiting(t) => epoch > 0 && IsNext(s, high, t) && epoch - 1 < t
    case Missed(t) => epoch > 0 && IsNext(s, high, t) && epoch - 1 > t
    case Attempted(t) => epoch > 0 && IsNext(s, high, t) && epoch - 1 == t
  }

  ghost predicate IsLog(s: Schedule, first: nat, epochs: seq<nat>, ds: seq<Decision>) {
    && |ds| == |epochs|
    && forall i | 0 <= i < |ds| :: Decides(s, Highest(first, epochs[..i]), epochs[i], ds[i])
  }

  lemma {:induction false} HighestGrows(first: nat, epochs: seq<nat>, i: nat, j: nat)
    requires i <= j <= |epochs|
    ensures first <= Highest(first, epochs[..i]) <= Highest(first, epochs[..j])
    ensures i < j && epochs[i] > 0 ==> epochs[i] - 1 <= Highest(first, epochs[..j])
    decreases j
  {
    if j > 0 {
      assert epochs[..j][..j-1] == epochs[..j-1];
      if i < j {
        HighestGrows(first, epochs, i, j - 1);
      } else {
        HighestGrows(first, epochs, 0, j - 1);
        HighestGrows(first, epochs, j - 1, j - 1);
      }
    }
  }

  /** The target a decision settles, if it settles one. */
  function Settled(d: Decision): int {
    match d
    case Missed(t) => t
    case Attempted(t) => t
    case _ => -1
  }

  /** Targets are settled, one way or the other, in strictly increasing order, and each is
      a target of the schedule; so none is attempted twice, whatever the checkpoints,
      repeated and out-of-order ones included. */
  lemma SettledOnce(s: Schedule, first: nat, epochs: seq<nat>, ds: seq<Decision>, i: nat, j: nat)
    requires IsLog(s, first, epochs, ds) && i < j < |ds|
    requires Settled(ds[i]) >= 0 && Settled(ds[j]) >= 0
    ensures first < Settled(ds[i]) < Settled(ds[j])
    ensures IsTarget(s, Settled(ds[i])) && IsTarget(s, Settled(ds[j]))
  {
    HighestGrows(first, epochs, 0, i);
    HighestGrows(first, epochs, i, j);
  }

  /** The targets attempted, in order. */
  function AttemptedTargets(ds: seq<Decision>): seq<nat> {
    if ds == [] then []
    else AttemptedTargets(ds[..|ds|-1]) + if ds[|ds|-1].Attempted? then [ds[|ds|-1].target] else []
  }

  /** One run of the loop between two restarts. */
  datatype Session = Session(first: nat, epochs: seq<nat>, decisions: seq<Decision>)

  function HighestOf(session: Session): nat {
    Highest(session.first, session.epochs)
  }

  /** Sessions each of which starts at or above everything finalized in the one before. */
  ghost predicate IsHistory(s: Schedule, sessions: seq<Session>) {
    sessions == [] || (
      var n := |sessions| - 1;
      && IsHistory(s, sessions[..n])
      && IsLog(s, sessions[n].first, sessions[n].epochs, sessions[n].decisions)
      && (n > 0 ==> sessions[n].first >= HighestOf(sessions[n-1])))
  }

  lemma {:induction false} SessionInHistory(s: Schedule, sessions: seq<Session>, a: nat)
    requires IsHistory(s, sessions) && a < |sessions|
    ensures IsLog(s, sessions[a].first, sessions[a].epochs, sessions[a].decisions)
  {
    hide IsLog;
    var n := |sessions| - 1;
    if a < n { SessionInHistory(s, sessions[..n], a); }
  }

  lemma {:induction false} SessionsAscend(s: Schedule, sessions: seq<Session>, a: nat, b: nat)
    requires IsHistory(s, sessions) && a < b < |sessions|
    ensures HighestOf(sessions[a]) <= sessions[b].first
    decreases |sessions|
  {
    hide IsLog;
    var n := |sessions| - 1;
    if b < n {
      SessionsAscend(s, sessions[..n], a, b);
    } else if a < n - 1 {
      SessionsAscend(s, sessions[..n], a, n - 1);
      HighestGrows(sessions[n-1].first, sessions[n-1].epochs, 0, |sessions[n-1].epochs|);
      assert sessions[n-1].epochs[..|sessions[n-1].epochs|] == sessions[n-1].epochs;
    }
  }

  /** The same over any number of restarts, as long as the finalized epoch a session starts
      with is not behind what was finalized before: the i-th decision of session a and the
      j-th of a later session b settle different targets, the later one the higher. */
  lemma SettledOnceAcrossRestarts(s: Schedule, sessions: seq<Session>, a: nat, i: nat, b: nat, j: nat)
    requires IsHistory(s, sessions) && a < b < |sessions|
    requires i < |sessions[a].decisions| && Settled(sessions[a].decisions[i]) >= 0
    requires j < |sessions[b].decisions| && Settled(sessions[b].decisions[j]) >= 0
    ensures Settled(sessions[a].decisions[i]) < Settled(sessions[b].decisions[j])
  {
    var x, y := sessions[a], sessions[b];
    SessionInHistory(s, sessions, a);
    SessionInHistory(s, sessions, b);
    SessionsAscend(s, sessions, a, b);
    assert x.epochs[..|x.epochs|] == x.epochs;
    HighestGrows(x.first, x.epochs, i, |x.epochs|);
    HighestGrows(y.first, y.epochs, 0, j);
  }

  /** No target lies strictly between. */
  ghost predicate NoTargetBetween(s: Schedule, low: int, high: int) {
    forall u :: IsTarget(s, u) && low < u ==> u >= high
  }

  /** Which checkpoints lead to an attempt, said of the checkpoints alone: those whose fully
      finalized epoch is a target, lies above everything finalized before, and has no other
      target in between. */
  lemma AttemptedExactly(s: Schedule, first: nat, epochs: seq<nat>, ds: seq<Decision>, i: nat)
    requires IsLog(s, first, epochs, ds) && i < |ds|
    ensures ds[i].Attempted? <==>
      var high := Highest(first, epochs[..i]);
      epochs[i] > 0 && IsTarget(s, epochs[i] - 1) && epochs[i] - 1 > high && NoTargetBetween(s, high, epochs[i] - 1)
  {
    var high := Highest(first, epochs[..i]);
    assert Decides(s, high, epochs[i], ds[i]);
    if epochs[i] > 0 && IsTarget(s, epochs[i] - 1) && epochs[i] - 1 > high && NoTargetBetween(s, high, epochs[i] - 1) {
      assert IsNext(s, high, epochs[i] - 1);
      NextUnique(s, high, epochs[i] - 1, match ds[i] case Waiting(t) => t case Missed(t) => t case Attempted(t) => t);
    }
  }

  /** A finalized target is not always attempted: from epoch 5 with targets every 10 epochs,
      a checkpoint that jumps to the target 30 only records 10 as missed. */
  lemma JumpToTargetIsMissed(ds: seq<Decision>)
    requires IsLog([CommitPhase(0, 10)], 5, [31], ds)
    ensures IsTarget([CommitPhase(0, 10)], 30) && ds == [Missed(10)]
  {
    var s := [CommitPhase(0, 10)];
    assert IsRound(s, 0, 30) && IsRound(s, 0, 10);
    var nothing: seq<nat> := [31][..0];
    assert nothing == [] && Highest(5, nothing) == 5;
    assert Decides(s, 5, 31, ds[0]);
    assert IsNext(s, 5, 10);
  }

  /** The epoch a checkpoint fully finalizes: the one before its own. */
  function FullyFinalized(epoch: nat): int { epoch - 1 }

  ghost predicate SeenBefore(epochs: seq<nat>, i: nat, u: int)
    requires i <= |epochs|
  {
    exists j :: 0 <= j < i && FullyFinalized(epochs[j]) == u
  }

  /** Every target passed was finalized on its own before anything beyond it. */
  ghost predicate NoneSkipped(s: Schedule, first: nat, epochs: seq<nat>) {
    forall i, u | 0 <= i < |epochs| && IsTarget(s, u) && first < u < FullyFinalized(epochs[i]) ::
      SeenBefore(epochs, i, u)
  }

  /** The missed branch is never taken exactly on streams that skip no target. */
  lemma NeverMissedExactly(s: Schedule, first: nat, epochs: seq<nat>, ds: seq<Decision>)
    requires IsLog(s, first, epochs, ds)
    ensures (forall i | 0 <= i < |ds| :: !ds[i].Missed?) <==> NoneSkipped(s, first, epochs)
  {
    hide IsNext;
    if NoneSkipped(s, first, epochs) {
      forall i | 0 <= i < |ds| ensures !ds[i].Missed? {
        if ds[i].Missed? { MissedWasSkipped(s, first, epochs, ds, i); }
      }
    } else if forall i | 0 <= i < |ds| :: !ds[i].Missed? {
      var i, u :| 0 <= i < |epochs| && IsTarget(s, u) && first < u < FullyFinalized(epochs[i])
        && !SeenBefore(epochs, i, u);
      PassedWereAttempted(s, first, epochs, ds, i, u);
    }
  }

  lemma MissedWasSkipped(s: Schedule, first: nat, epochs: seq<nat>, ds: seq<Decision>, i: nat)
    requires IsLog(s, first, epochs, ds) && i < |ds| && ds[i].Missed?
    ensures !NoneSkipped(s, first, epochs)
  {
    var u := ds[i].missed;
    assert Decides(s, Highest(first, epochs[..i]), epochs[i], ds[i]);
    HighestGrows(first, epochs, 0, i);
    assert IsTarget(s, u) && first < u < FullyFinalized(epochs[i]);
    forall j | 0 <= j < i ensures FullyFinalized(epochs[j]) != u { HighestGrows(first, epochs, j, i); }
    assert !SeenBefore(epochs, i, u);
  }

  /** If nothing was missed before i, every target at or below the highest epoch by then was
      attempted before i. */
  lemma {:induction false} AttemptedUpTo(s: Schedule, first: nat, epochs: seq<nat>, ds: seq<Decision>, i: nat, u: nat)
    requires IsLog(s, first, epochs, ds) && i <= |ds|
    requires forall j | 0 <= j < i :: !ds[j].Missed?
    requires IsTarget(s, u) && first < u <= Highest(first, epochs[..i])
    ensures exists j :: 0 <= j < i && ds[j] == Attempted(u)
  {
    if i > 0 {
      assert epochs[..i][..i-1] == epochs[..i-1];
      var high := Highest(first, epochs[..i-1]);
      if u <= high {
        AttemptedUpTo(s, first, epochs, ds, i - 1, u);
      } else {
        assert Decides(s, high, epochs[i-1], ds[i-1]);
        assert ds[i-1] == Attempted(u);
      }
    }
  }

  lemma PassedWereAttempted(s: Schedule, first: nat, epochs: seq<nat>, ds: seq<Decision>, i: nat, u: nat)
    requires IsLog(s, first, epochs, ds) && i < |ds|
    requires forall j | 0 <= j < |ds| :: !ds[j].Missed?
    requires IsTarget(s, u) && first < u < FullyFinalized(epochs[i])
    ensures SeenBefore(epochs, i, u)
  {
    HighestGrows(first, epochs, i, i + 1);
    AttemptedUpTo(s, first, epochs, ds, i + 1, u);
    var j :| 0 <= j < i + 1 && ds[j] == Attempted(u);
    assert Decides(s, Highest(first, epochs[..j]), epochs[j], ds[j]);
    assert FullyFinalized(epochs[j]) == u;
  }

  /** On a stream whose finalized epoch never jumps by more than one, nothing is missed and
      every target passed is attempted. */
  lemma GapFree(s: Schedule, first: nat, epochs: seq<nat>, ds: seq<Decision>)
    requires IsLog(s, first, epochs, ds)
    requires forall i | 0 <= i < |epochs| :: FullyFinalized(epochs[i]) <= Highest(first, epochs[..i]) + 1
    ensures forall i | 0 <= i < |ds| :: !ds[i].Missed?
    ensures forall u | IsTarget(s, u) && first < u <= Highest(first, epochs) ::
      exists j :: 0 <= j < |ds| && ds[j] == Attempted(u)
  {
    forall i | 0 <= i < |ds| ensures !ds[i].Missed? {
      assert Decides(s, Highest(first, epochs[..i]), epochs[i], ds[i]);
    }
    forall u | IsTarget(s, u) && first < u <= Highest(first, epochs)
      ensures exists j :: 0 <= j < |ds| && ds[j] == Attempted(u) {
      assert epochs[..|epochs|] == epochs;
      AttemptedUpTo(s, first, epochs, ds, |epochs|, u);
    }
  }
}
