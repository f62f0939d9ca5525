/** The multi-phase commit schedule (oracle/phase.go). */
module Phase {
  import opened Bytes

  datatype CommitPhase = CommitPhase(startEpoch: u64, interval: u64)

  type Schedule = seq<CommitPhase>

  // ----- What a schedule means -----

  /** t is one of the rounds of phase i, before the next phase takes over. */
  ghost predicate IsRound(s: Schedule, i: nat, t: int) {
    && i < |s| && s[i].interval > 0
    && s[i].startEpoch <= t && (i + 1 < |s| ==> t < s[i+1].startEpoch)
    && (t - s[i].startEpoch) % s[i].interval == 0
  }

  ghost predicate IsTarget(s: Schedule, t: int) {
    exists i: nat :: IsRound(s, i, t)
  }

  /** t is the first target of the whole schedule after the epoch. */
  ghost predicate IsNext(s: Schedule, epoch: int, t: int) {
    t > epoch && IsTarget(s, t) && forall u :: IsTarget(s, u) && u > epoch ==> t <= u
  }

  /** At most one epoch is next. */
  lemma NextUnique(s: Schedule, epoch: int, t: int, u: int)
    requires IsNext(s, epoch, t) && IsNext(s, epoch, u)
    ensures t == u
  {
  }

  // ----- Validation -----

  predicate StartsAfterPrevious(s: Schedule, i: nat)
    requires 0 < i < |s|
  {
    s[i-1].startEpoch < s[i].startEpoch
  }

  /** Phase i starts at a round of phase i - 1. */
  predicate StartsOnRound(s: Schedule, i: nat)
    requires 0 < i < |s|
  {
    s[i-1].interval > 0 && (s[i].startEpoch - s[i-1].startEpoch) % s[i-1].interval == 0
  }

  /** Phases start in ascending order and have positive intervals. */
  ghost predicate Ascending(s: Schedule) {
    && s != []
    && (forall i | 0 <= i < |s| :: s[i].interval > 0)
    && (forall i | 0 < i < |s| :: StartsAfterPrevious(s, i))
  }

  ghost predicate Aligned(s: Schedule) {
    forall i | 0 < i < |s| :: StartsOnRound(s, i)
  }

  method Validate(s: Schedule) returns (ok: bool)
    ensures ok <==> Ascending(s) && Aligned(s)
  {
    if |s| == 0 {
      return false;
    }
    for i := 0 to |s|
      invariant forall j | 0 <= j < i :: s[j].interval > 0
      invariant forall j | 0 < j < i :: StartsAfterPrevious(s, j) && StartsOnRound(s, j)
    {
      if s[i].interval == 0 { return false; }
      if i > 0 {
        var prev := s[i-1];
        assert StartsAfterPrevious(s, i) <==> prev.startEpoch < s[i].startEpoch;
        assert StartsOnRound(s, i) <==> (s[i].startEpoch - prev.startEpoch) % prev.interval == 0;
        if s[i].startEpoch <= prev.startEpoch { return false; }
        if (s[i].startEpoch - prev.startEpoch) % prev.interval != 0 { return false; }
      }
    }
    ok := true;
  }

  // ----- The active phase -----

  /** i is the last phase started by the epoch, or the first one if none is. */
  ghost predicate IsPhaseAt(s: Schedule, epoch: int, i: int) {
    && 0 <= i < |s|
    && (forall j | i < j < |s| :: epoch < s[j].startEpoch)
    && (s[i].startEpoch <= epoch || i == 0)
  }

  function PhaseIndexFrom(s: Schedule, epoch: int, i: nat): (r: nat)
    requires i < |s|
    requires forall j | i < j < |s| :: epoch < s[j].startEpoch
    ensures IsPhaseAt(s, epoch, r)
  {
    if epoch >= s[i].startEpoch || i == 0 then i else PhaseIndexFrom(s, epoch, i - 1)
  }

  function PhaseIndex(s: Schedule, epoch: int): (r: nat)
    requires s != []
    ensures IsPhaseAt(s, epoch, r)
  {
    PhaseIndexFrom(s, epoch, |s| - 1)
  }

  method PhaseAt(s: Schedule, epoch: u64) returns (phase: CommitPhase)
    requires s != []
    ensures phase == s[PhaseIndex(s, epoch)]
  {
    var i := |s| - 1;
    while i >= 0
      invariant -1 <= i < |s|
      invariant forall j | i < j < |s| :: epoch < s[j].startEpoch
      invariant i >= 0 ==> PhaseIndex(s, epoch) == PhaseIndexFrom(s, epoch, i)
    {
      if epoch >= s[i].startEpoch {
        return s[i];
      }
      if i == 0 { return s[0]; }
      i := i - 1;
    }
    return s[0];
  }

  // ----- The next target -----

  /** 64-bit arithmetic, wrap included. */
  function TargetAt(p: CommitPhase, round: u64): u64 {
    (p.startEpoch + (round * p.interval) % U64) % U64
  }

  /** The least multiple of m above x. */
  function NextMultiple(x: nat, m: nat): nat
    requires m > 0
  {
    (x / m + 1) * m
  }

  /** The same over the integers. */
  function NextExact(s: Schedule, epoch: nat): nat
    requires s != []
  {
    var p := s[PhaseIndex(s, epoch)];
    if epoch < p.startEpoch || p.interval == 0 then p.startEpoch
    else p.startEpoch + NextMultiple(epoch - p.startEpoch, p.interval)
  }

  lemma NextMultipleIsLeast(x: nat, m: nat)
    requires m > 0
    ensures NextMultiple(x, m) > x && NextMultiple(x, m) % m == 0
    ensures forall y: int :: y > x && y % m == 0 ==> y >= NextMultiple(x, m)
  {
    var q := x / m;
    assert x == q * m + x % m;
    assert (q + 1) * m == q * m + m;
    MultipleMod(q + 1, m);
    forall y: int | y > x && y % m == 0 ensures y >= (q + 1) * m {
      var p := y / m;
      assert y == p * m;
      MulMono(p, q, m);
      MulMono(q + 1, p, m);
    }
  }

  lemma MulMono(a: int, b: int, m: nat)
    ensures a <= b ==> a * m <= b * m
  {
  }

  lemma {:induction false} MultipleMod(q: nat, m: nat)
    requires m > 0
    ensures (q * m) % m == 0
  {
    if q > 0 {
      MultipleMod(q - 1, m);
      assert q * m == (q - 1) * m + m;
      assert ((q - 1) * m + m) % m == ((q - 1) * m) % m by { AddMod((q - 1) * m, m); }
    }
  }

  lemma AddMod(x: nat, m: nat)
    requires m > 0
    ensures (x + m) % m == x % m
  {
    var q, r := x / m, x % m;
    assert x + m == (q + 1) * m + r;
    DivUnique(x + m, m, q + 1, r);
  }

  lemma DivUnique(x: nat, m: nat, q: nat, r: nat)
    requires m > 0 && r < m && x == q * m + r
    ensures x % m == r
  {
    var q', r' := x / m, x % m;
    assert x == q' * m + r';
    assert (q - q') * m == r' - r;
    if q > q' { MulMono(1, q - q', m); }
    if q < q' { MulMono(q - q', -1, m); }
  }

  lemma {:induction false} StartsAscend(s: Schedule, i: nat, j: nat)
    requires Ascending(s) && i <= j < |s|
    ensures s[i].startEpoch <= s[j].startEpoch && (i < j ==> s[i].startEpoch < s[j].startEpoch)
  {
    if i < j {
      StartsAscend(s, i, j - 1);
      assert StartsAfterPrevious(s, j);
    }
  }

  /** In a valid schedule the next target is never skipped: not inside a phase, and not
      across the start of a later one. */
  lemma NextExactIsNext(s: Schedule, epoch: nat)
    requires Ascending(s) && Aligned(s)
    ensures IsNext(s, epoch, NextExact(s, epoch))
  {
    hide NextMultiple, PhaseIndex;
    var i, t := PhaseIndex(s, epoch), NextExact(s, epoch);
    var p := s[i];
    assert p.interval > 0;
    if epoch < p.startEpoch {
      if |s| > 1 { assert StartsAfterPrevious(s, 1); }
      assert IsRound(s, 0, t);
      forall u | IsTarget(s, u) ensures t <= u {
        var j: nat :| IsRound(s, j, u);
        StartsAscend(s, 0, j);
      }
    } else {
      NextMultipleIsLeast(epoch - p.startEpoch, p.interval);
      NextInPhase(s, epoch, i, t);
      forall u | IsTarget(s, u) && u > epoch ensures t <= u {
        var j: nat :| IsRound(s, j, u);
        if j < i {
          StartsAscend(s, j + 1, i);
        } else if j > i {
          StartsAscend(s, i + 1, j);
        }
      }
    }
  }

  /** The next round of the active phase is a target, and it does not lie beyond the start
      of the following phase. */
  lemma NextInPhase(s: Schedule, epoch: nat, i: nat, t: nat)
    requires Ascending(s) && Aligned(s)
    requires i < |s| && epoch >= s[i].startEpoch && (i + 1 < |s| ==> epoch < s[i+1].startEpoch)
    requires t == s[i].startEpoch + NextMultiple(epoch - s[i].startEpoch, s[i].interval)
    ensures IsTarget(s, t) && t > epoch && (i + 1 < |s| ==> t <= s[i+1].startEpoch)
  {
    hide NextMultiple;
    NextMultipleIsLeast(epoch - s[i].startEpoch, s[i].interval);
    if i + 1 < |s| {
      assert StartsOnRound(s, i + 1);
      if i + 2 < |s| { assert StartsAfterPrevious(s, i + 2); }
      if t == s[i+1].startEpoch { assert IsRound(s, i + 1, t); } else { assert IsRound(s, i, t); }
    } else {
      assert IsRound(s, i, t);
    }
  }

  /** Alignment is not only enough but needed: without it some epoch's next target jumps
      over the start of a phase. */
  lemma AlignmentIsNeeded(s: Schedule)
    requires Ascending(s)
    ensures Aligned(s) <==> forall epoch: nat :: IsNext(s, epoch, NextExact(s, epoch))
  {
    if Aligned(s) {
      forall epoch: nat ensures IsNext(s, epoch, NextExact(s, epoch)) { NextExactIsNext(s, epoch); }
    } else {
      var i :| 0 < i < |s| && !StartsOnRound(s, i);
      assert StartsAfterPrevious(s, i);
      var epoch: nat := s[i].startEpoch - 1;
      MisalignedSkips(s, i, epoch);
    }
  }

  lemma MisalignedSkips(s: Schedule, i: nat, epoch: nat)
    requires Ascending(s) && 0 < i < |s| && !StartsOnRound(s, i) && epoch + 1 == s[i].startEpoch
    ensures !IsNext(s, epoch, NextExact(s, epoch))
  {
    hide NextMultiple, PhaseIndex;
    assert StartsAfterPrevious(s, i) && s[i-1].interval > 0;
    PhaseBefore(s, i);
    NextMultipleIsLeast(epoch - s[i-1].startEpoch, s[i-1].interval);
    if i + 1 < |s| { assert StartsAfterPrevious(s, i + 1); }
    assert IsRound(s, i, s[i].startEpoch);
    assert IsTarget(s, s[i].startEpoch);
  }

  lemma PhaseBefore(s: Schedule, i: nat)
    requires Ascending(s) && 0 < i < |s|
    ensures PhaseIndex(s, s[i].startEpoch - 1) == i - 1
  {
    assert StartsAfterPrevious(s, i);
    var r := PhaseIndex(s, s[i].startEpoch - 1);
    if r >= i { StartsAscend(s, i, r); }
  }

  /** With 64-bit arithmetic the result is the schedule's next target exactly when that
      target fits in 64 bits. */
  method NextTarget(s: Schedule, epoch: u64) returns (t: u64)
    requires Ascending(s) && Aligned(s)
    ensures IsNext(s, epoch, t) <==> NextExact(s, epoch) < U64
    ensures NextExact(s, epoch) < U64 ==> t == NextExact(s, epoch)
  {
    hide IsNext, PhaseIndex;
    NextExactIsNext(s, epoch);
    var phase := PhaseAt(s, epoch);
    if epoch < phase.startEpoch {
      return phase.startEpoch;
    }
    var round := (epoch - phase.startEpoch) / phase.interval;
    t := TargetAt(phase, (round + 1) % U64);
    Wraps(phase, round);
    if IsNext(s, epoch, t) { NextUnique(s, epoch, t, NextExact(s, epoch)); }
  }

  lemma Wraps(p: CommitPhase, round: nat)
    requires p.interval > 0
    ensures var exact := p.startEpoch + (round + 1) * p.interval;
      TargetAt(p, (round + 1) % U64) == exact <==> exact < U64
  {
    MulMono(1, p.interval, round + 1);
    assert (round + 1) * p.interval >= round + 1;
  }
}
