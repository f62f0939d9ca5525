/** The pipelined sync as a protocol (eth/syncer/syncer.go:88-246) with the head overlay
    reading beside it (eth/syncer/headstate.go:28-88).

    A fetcher sends batches through a bounded channel to a processor, which applies each in
    one transaction. Every interleaving is a sequence of the steps below; any of them may be
    a failure, a cancellation or a crash of the whole process. */
module SyncProtocol {
  import opened Bytes
  import opened Events
  import opened Chain
  import opened Execution
  import opened Syncer

  const PREFETCH_BUFFER := 2

  /** What does not change during a run: the hash, the chain, the initial cursor, the
      bounds of the batch size and the ids the overlay is asked for. */
  datatype Config = Config(k: Keccak, chain: seq<Log>, start: nat, min: nat, max: nat, ids: set<Hash>)

  datatype Message = BatchMessage(batchEnd: nat, logs: seq<Log>) | ErrorMessage

  datatype Fetcher =
    | Fetching(current: nat)
    | Sending(batchEnd: nat, logs: seq<Log>)
    | SendingError
    | Closed

  datatype CallResult = Succeeded | Errored | Aborted

  datatype Processor =
    | Receiving
    | InTx(batchEnd: nat, work: Tables, rest: seq<Log>)
    | Returned(result: CallResult)

  datatype Reader =
    | Idle
    | Seeded(overlay: Overlay, cursor: nat)
    | Reading(overlay: Overlay, cursor: nat, next: nat, head: nat)
    | Finished(overlay: Overlay, cursor: nat, head: nat)

  datatype State = State(db: Tables, target: nat, size: nat, fetcher: Fetcher, channel: seq<Message>,
    processor: Processor, cancelled: bool, reader: Reader)

  datatype Step =
    | FetchOk | FetchRefused | FetchFails | FetchDone | Send | SendAborted | SendError | DropError
    | Receive | ApplyOne | Commit | CommitReportedFailed | TxFails | Finish
    | Cancel | Call(target: nat) | Crash(target: nat)
    | ReadRows | ReadHead(head: nat) | ReadBatch | ReadRefused | ReadDone | ReadFails

  function RangeEnd(first: nat, size: nat, target: nat): nat {
    if first + size > target then target else if size == 0 then first else first + size - 1
  }

  /** The ranges are those of the fetch loop, as long as these run forward. */
  lemma SameRanges(first: nat, size: nat, target: nat, max: nat)
    requires RunsForward(target, max) && first <= target && 1 <= size <= max
    ensures RangeEnd(first, size, target) == RangeEnd64(first, size, target)
  {
    RangeHasSize(first, size, target, max);
  }

  /** Entering SyncToBlock: nothing to do, or a fresh fetcher and channel. */
  function Begin(s: State, target: nat): State {
    if s.db.lastSynced >= target then
      s.(target := target, fetcher := Closed, channel := [], processor := Returned(Succeeded), cancelled := false)
    else
      s.(target := target, fetcher := Fetching(s.db.lastSynced + 1), channel := [], processor := Receiving,
         cancelled := false)
  }

  predicate Enabled(c: Config, s: State, step: Step) {
    match step
    case FetchOk => s.fetcher.Fetching? && s.fetcher.current <= s.target
    case FetchRefused => s.fetcher.Fetching? && s.fetcher.current <= s.target
    case FetchFails => s.fetcher.Fetching? && (s.fetcher.current <= s.target || s.cancelled)
    case FetchDone => s.fetcher.Fetching? && s.fetcher.current > s.target
    case Send => s.fetcher.Sending? && |s.channel| < PREFETCH_BUFFER
    case SendAborted => s.fetcher.Sending? && s.cancelled
    case SendError => s.fetcher.SendingError? && |s.channel| < PREFETCH_BUFFER
    case DropError => s.fetcher.SendingError? && s.cancelled
    case Receive => s.processor.Receiving? && s.channel != []
    case ApplyOne =>
      s.processor.InTx? && s.processor.rest != [] && ApplyLog(c.k, s.processor.work, s.processor.rest[0]).Ok?
    case Commit => s.processor.InTx? && s.processor.rest == []
    case CommitReportedFailed => s.processor.InTx? && s.processor.rest == []
    case TxFails => s.processor.InTx?
    case Finish => s.processor.Receiving? && s.channel == [] && s.fetcher.Closed?
    case Cancel => true
    case Call(_) => s.processor.Returned?
    case Crash(_) => true
    case ReadRows => s.reader.Idle?
    case ReadHead(_) => s.reader.Seeded?
    case ReadBatch => s.reader.Reading? && s.reader.next <= s.reader.head
    case ReadRefused => s.reader.Reading? && s.reader.next <= s.reader.head
    case ReadDone => s.reader.Reading? && s.reader.next > s.reader.head
    case ReadFails => true
  }

  function Do(c: Config, s: State, step: Step): State
    requires Enabled(c, s, step)
  {
    match step
    case FetchOk =>
      var end := RangeEnd(s.fetcher.current, s.size, s.target);
      s.(fetcher := Sending(end, Slice(c.chain, s.fetcher.current, end)), size := Grown(s.size, c.max))
    case FetchRefused => s.(size := Shrunk(s.size, c.min))
    case FetchFails => s.(fetcher := SendingError)
    case FetchDone => s.(fetcher := Closed)
    case Send =>
      var m := BatchMessage(s.fetcher.batchEnd, s.fetcher.logs);
      s.(fetcher := Fetching(s.fetcher.batchEnd + 1), channel := s.channel + [m])
    case SendAborted => s.(fetcher := SendingError)
    case SendError => s.(fetcher := Closed, channel := s.channel + [ErrorMessage])
    case DropError => s.(fetcher := Closed)
    case Receive =>
      var m := s.channel[0];
      if m.ErrorMessage? then s.(channel := s.channel[1..], processor := Returned(Errored))
      else s.(channel := s.channel[1..], processor := InTx(m.batchEnd, s.db, m.logs))
    case ApplyOne =>
      var p := s.processor;
      s.(processor := p.(work := ApplyLog(c.k, p.work, p.rest[0]).value, rest := p.rest[1..]))
    case Commit => s.(db := s.processor.work.(lastSynced := s.processor.batchEnd), processor := Receiving)
    case CommitReportedFailed =>
      s.(db := s.processor.work.(lastSynced := s.processor.batchEnd), processor := Returned(Errored))
    case TxFails => s.(processor := Returned(Errored))
    case Finish => s.(processor := Returned(if s.cancelled then Aborted else Succeeded))
    case Cancel => s.(cancelled := true)
    case Call(target) => Begin(s, target)
    case Crash(target) => Begin(s, target).(reader := Idle)
    case ReadRows => s.(reader := Seeded(Restrict(s.db.clusters, c.ids), s.db.lastSynced))
    case ReadHead(head) =>
      var r := s.reader;
      if r.cursor >= head then s.(reader := Finished(r.overlay, r.cursor, head))
      else s.(reader := Reading(r.overlay, r.cursor, r.cursor + 1, head))
    case ReadBatch =>
      var end := RangeEnd(s.reader.next, s.size, s.reader.head);
      var applied := OverlayReplay(c.k, s.reader.overlay, c.ids, Slice(c.chain, s.reader.next, end));
      if applied.Err? then s.(reader := Idle)
      else s.(reader := s.reader.(overlay := applied.value, next := end + 1), size := Grown(s.size, c.max))
    case ReadDone => s.(reader := Finished(s.reader.overlay, s.reader.cursor, s.reader.head))
    case ReadRefused => s.(size := Shrunk(s.size, c.min))
    case ReadFails => s.(reader := Idle)
  }

  // ----- The invariant -----

  /** The queued messages are consecutive batches of the chain; an error comes last. */
  ghost predicate QueueOk(c: Config, pos: nat, target: nat, q: seq<Message>)
    decreases |q|
  {
    q == [] ||
    match q[0]
    case ErrorMessage => |q| == 1
    case BatchMessage(end, logs) =>
      pos <= end <= target && logs == Slice(c.chain, pos, end) && QueueOk(c, end + 1, target, q[1..])
  }

  /** The first block after the queued batches. */
  function QueueEnd(pos: nat, q: seq<Message>): nat
    decreases |q|
  {
    if q == [] then pos
    else match q[0]
      case ErrorMessage => pos
      case BatchMessage(end, _) => QueueEnd(end + 1, q[1..])
  }

  predicate HasError(q: seq<Message>) {
    q != [] && q[|q|-1].ErrorMessage?
  }

  /** The first block the processor has not taken off the channel. */
  function Position(s: State): nat {
    if s.processor.InTx? then s.processor.batchEnd + 1 else s.db.lastSynced + 1
  }

  ghost predicate FetcherOk(c: Config, s: State) {
    var next := QueueEnd(Position(s), s.channel);
    match s.fetcher
    case Fetching(current) => !HasError(s.channel) && current == next && next <= s.target + 1
    case Sending(end, logs) => !HasError(s.channel) && next <= end <= s.target && logs == Slice(c.chain, next, end)
    case SendingError => !HasError(s.channel)
    case Closed => HasError(s.channel) || next == s.target + 1 || s.cancelled
  }

  ghost predicate TxOk(c: Config, s: State) {
    s.processor.InTx? ==>
      && s.db.lastSynced < s.processor.batchEnd <= s.target
      && Replay(c.k, s.processor.work, s.processor.rest) ==
           Replay(c.k, s.db, Slice(c.chain, s.db.lastSynced + 1, s.processor.batchEnd))
  }

  /** The overlay is the head state at the cursor it started from, at the block before the
      next one to read, and in the end at the later of cursor and head. */
  ghost predicate ReaderOk(c: Config, s: State) {
    match s.reader
    case Idle => true
    case Seeded(overlay, cursor) => Reached(c, s, overlay, cursor, cursor)
    case Reading(overlay, cursor, next, head) => cursor < next <= head + 1 && Reached(c, s, overlay, cursor, next - 1)
    case Finished(overlay, cursor, head) => Reached(c, s, overlay, cursor, Later(cursor, head))
  }

  ghost predicate Reached(c: Config, s: State, overlay: Overlay, cursor: nat, at: nat) {
    c.start <= cursor <= s.db.lastSynced && HeadState(c.k, c.chain, c.start, at, c.ids) == Ok(overlay)
  }

  ghost predicate CallOk(c: Config, s: State) {
    match s.processor
    case Returned(result) => result.Succeeded? ==> s.db.lastSynced >= s.target
    case _ => QueueOk(c, Position(s), s.target, s.channel) && FetcherOk(c, s)
  }

  ghost predicate Good(c: Config) {
    IsChain(c.chain) && 1 <= c.min <= c.max && c.max + Increment(c.max) < U64
  }

  ghost predicate Inv(c: Config, s: State) {
    && Synced(c.k, c.chain, c.start, s.db)
    && Bounded(c.min, s.size, c.max)
    && CallOk(c, s)
    && TxOk(c, s)
    && ReaderOk(c, s)
  }

  // ----- Every step keeps it -----

  lemma {:induction false} QueueAppend(c: Config, pos: nat, target: nat, q: seq<Message>, m: Message)
    requires QueueOk(c, pos, target, q) && !HasError(q)
    requires m.BatchMessage? ==>
      QueueEnd(pos, q) <= m.batchEnd <= target && m.logs == Slice(c.chain, QueueEnd(pos, q), m.batchEnd)
    ensures QueueOk(c, pos, target, q + [m])
    ensures QueueEnd(pos, q + [m]) == if m.BatchMessage? then m.batchEnd + 1 else QueueEnd(pos, q)
    decreases |q|
  {
    if q != [] {
      assert (q + [m])[1..] == q[1..] + [m];
      QueueAppend(c, q[0].batchEnd + 1, target, q[1..], m);
    }
  }

  lemma FetcherStepsKeep(c: Config, s: State, step: Step)
    requires Good(c) && Inv(c, s) && Enabled(c, s, step)
    requires step in {FetchOk, FetchRefused, FetchFails, FetchDone, SendAborted, DropError, Cancel}
    ensures Inv(c, Do(c, s, step))
  {
    hide Slice, IsChain, Replay, OverlayReplay, Synced, QueueOk, QueueEnd;
  }

  lemma SendKeeps(c: Config, s: State, step: Step)
    requires Inv(c, s) && Enabled(c, s, step)
    requires step == Send || step == SendError
    ensures Inv(c, Do(c, s, step))
  {
    hide Slice, IsChain, Replay, OverlayReplay, Synced, QueueOk, QueueEnd;
    if !s.processor.Returned? {
      var m := if step == Send then BatchMessage(s.fetcher.batchEnd, s.fetcher.logs) else ErrorMessage;
      QueueAppend(c, Position(s), s.target, s.channel, m);
    }
  }

  lemma ReceiveKeeps(c: Config, s: State)
    requires Inv(c, s) && Enabled(c, s, Receive)
    ensures Inv(c, Do(c, s, Receive))
  {
    hide Slice, IsChain, OverlayReplay, Synced;
    var q := s.channel;
    assert HasError(q[1..]) ==> HasError(q);
    assert q[0].BatchMessage? && HasError(q) ==> HasError(q[1..]);
  }

  lemma ApplyOneKeeps(c: Config, s: State)
    requires Inv(c, s) && Enabled(c, s, ApplyOne)
    ensures Inv(c, Do(c, s, ApplyOne))
  {
    hide Slice, IsChain, Synced, QueueOk, QueueEnd, Replay, OverlayReplay, ApplyLog;
    var p := s.processor;
    ReplayFront(c.k, p.work, p.rest[0], p.rest[1..]);
    assert p.rest == [p.rest[0]] + p.rest[1..];
  }

  lemma CommitKeeps(c: Config, s: State, step: Step)
    requires Good(c) && Inv(c, s) && Enabled(c, s, step)
    requires step == Commit || step == CommitReportedFailed
    ensures Inv(c, Do(c, s, step))
    ensures Do(c, s, step).db.lastSynced >= s.db.lastSynced
  {
    hide Slice, IsChain, Synced, QueueOk, QueueEnd, OverlayReplay;
    SyncAdvances(c.k, c.chain, c.start, s.db, s.processor.batchEnd);
  }

  lemma EndingKeeps(c: Config, s: State, step: Step)
    requires Inv(c, s) && Enabled(c, s, step)
    requires step == TxFails || step == Finish
    ensures Inv(c, Do(c, s, step))
  {
    hide Slice, IsChain, Synced, QueueOk, Replay, OverlayReplay;
  }

  lemma BeginKeeps(c: Config, s: State, target: nat)
    requires Synced(c.k, c.chain, c.start, s.db) && Bounded(c.min, s.size, c.max) && ReaderOk(c, s)
    ensures Inv(c, Begin(s, target))
  {
    hide Slice, IsChain, Replay, OverlayReplay;
  }

  lemma ReadBatchKeeps(c: Config, s: State)
    requires Good(c) && ReaderOk(c, s) && Enabled(c, s, ReadBatch) && Bounded(c.min, s.size, c.max)
    ensures ReaderOk(c, Do(c, s, ReadBatch)) && Bounded(c.min, Do(c, s, ReadBatch).size, c.max)
  {
    hide Slice, IsChain, OverlayReplay, HeadState, Restrict;
    var r := s.reader;
    GrownInBounds(c.min, s.size, c.max);
    HeadExtends(c.k, c.chain, c.start, r.next - 1, RangeEnd(r.next, s.size, r.head), c.ids, r.overlay);
  }

  lemma ReaderStepsKeep(c: Config, s: State, step: Step)
    requires Good(c) && Inv(c, s) && Enabled(c, s, step)
    requires step.ReadHead? || step in {ReadRows, ReadBatch, ReadRefused, ReadDone, ReadFails}
    ensures Inv(c, Do(c, s, step))
  {
    hide Slice, IsChain, Replay, OverlayReplay, QueueOk, QueueEnd, CallOk, TxOk, Synced, Restrict, HeadState, Grown;
    var s' := Do(c, s, step);
    assert CallOk(c, s') && TxOk(c, s') by { SameCall(c, s, s'); }
    if step.ReadRows? {
      SyncedRows(c.k, c.chain, c.start, s.db, c.ids);
    } else if step.ReadBatch? {
      ReadBatchKeeps(c, s);
    }
  }

  /** The reader and the batch size play no part in the state of the call. */
  lemma SameCall(c: Config, s: State, s': State)
    requires CallOk(c, s) && TxOk(c, s)
    requires s' == s.(reader := s'.reader, size := s'.size)
    ensures CallOk(c, s') && TxOk(c, s')
  {
    hide Slice, Replay, QueueOk, QueueEnd;
  }

  lemma StepKeepsInv(c: Config, s: State, step: Step)
    requires Good(c) && Inv(c, s) && Enabled(c, s, step)
    ensures Inv(c, Do(c, s, step))
    ensures Do(c, s, step).db.lastSynced >= s.db.lastSynced
  {
    hide Inv, Synced, Slice, IsChain, Replay;
    match step
    case FetchOk | FetchRefused | FetchFails | FetchDone | SendAborted | DropError | Cancel =>
      FetcherStepsKeep(c, s, step);
    case Send | SendError => SendKeeps(c, s, step);
    case Receive => ReceiveKeeps(c, s);
    case ApplyOne => ApplyOneKeeps(c, s);
    case Commit | CommitReportedFailed => CommitKeeps(c, s, step);
    case TxFails | Finish => EndingKeeps(c, s, step);
    case Call(target) => StartingKeeps(c, s, target);
    case Crash(target) => StartingKeeps(c, s, target);
    case ReadRows | ReadHead(_) | ReadBatch | ReadRefused | ReadDone | ReadFails => ReaderStepsKeep(c, s, step);
  }

  lemma StartingKeeps(c: Config, s: State, target: nat)
    requires Inv(c, s)
    ensures Inv(c, Begin(s, target)) && Inv(c, Begin(s, target).(reader := Idle))
  {
    hide Slice, IsChain, Replay, OverlayReplay;
    BeginKeeps(c, s, target);
  }

  // ----- Runs -----

  /** The state after a sequence of steps, if each was possible when its turn came. */
  function Run(c: Config, s: State, steps: seq<Step>): Option<State> {
    if steps == [] then Some(s)
    else match Run(c, s, steps[..|steps|-1])
      case None => None
      case Some(u) => if Enabled(c, u, steps[|steps|-1]) then Some(Do(c, u, steps[|steps|-1])) else None
  }

  /** A fresh database before any call. */
  function Initial(c: Config): State {
    State(EmptyTables(c.start), 0, c.max, Closed, [], Returned(Errored), false, Idle)
  }

  lemma InitialInv(c: Config)
    requires Good(c)
    ensures Inv(c, Initial(c))
  {
    SliceEmpty(c.chain, c.start + 1, c.start);
  }

  lemma {:induction false} RunKeepsInv(c: Config, steps: seq<Step>)
    requires Good(c) && Run(c, Initial(c), steps).Some?
    ensures Inv(c, Run(c, Initial(c), steps).value)
  {
    hide Inv, Initial;
    if steps == [] {
      InitialInv(c);
    } else {
      var n := |steps| - 1;
      RunKeepsInv(c, steps[..n]);
      StepKeepsInv(c, Run(c, Initial(c), steps[..n]).value, steps[n]);
    }
  }

  /** In every reachable state the tables are the replay of exactly the logs above the
      initial cursor and at or below the stored one; a call that has returned success has
      reached its target; a finished overlay is the state of the requested clusters at the
      later of the cursor it was read with and the head it asked for. */
  lemma EveryRun(c: Config, steps: seq<Step>)
    requires Good(c) && Run(c, Initial(c), steps).Some?
    ensures var s := Run(c, Initial(c), steps).value;
      && s.db.lastSynced >= c.start
      && Replay(c.k, EmptyTables(c.start), Slice(c.chain, c.start + 1, s.db.lastSynced))
           == Ok(s.db.(lastSynced := c.start))
      && (s.processor == Returned(Succeeded) ==> s.db.lastSynced >= s.target)
      && (s.reader.Finished? ==> c.start <= s.reader.cursor <= s.db.lastSynced)
      && (s.reader.Finished? ==>
            HeadState(c.k, c.chain, c.start, Later(s.reader.cursor, s.reader.head), c.ids) == Ok(s.reader.overlay))
  {
    hide Slice, IsChain, Replay, OverlayReplay, Initial, QueueOk;
    RunKeepsInv(c, steps);
  }

  /** The cursor never moves back, whatever fails in between. */
  lemma {:induction false} CursorMonotone(c: Config, steps: seq<Step>, n: nat)
    requires Good(c) && n <= |steps| && Run(c, Initial(c), steps).Some?
    ensures Run(c, Initial(c), steps[..n]).Some?
    ensures Run(c, Initial(c), steps[..n]).value.db.lastSynced <= Run(c, Initial(c), steps).value.db.lastSynced
  {
    hide Inv, Initial;
    if n < |steps| {
      var m := |steps| - 1;
      CursorMonotone(c, steps[..m], n);
      assert steps[..m][..n] == steps[..n];
      RunKeepsInv(c, steps[..m]);
      StepKeepsInv(c, Run(c, Initial(c), steps[..m]).value, steps[m]);
    } else {
      assert steps[..n] == steps;
    }
  }

  /** The cursor never passes a log the sync cannot apply. */
  lemma CursorStopsAtBadLog(c: Config, steps: seq<Step>, l: Log)
    requires Good(c) && Run(c, Initial(c), steps).Some?
    requires l in c.chain && l.block > c.start && !Acceptable(l)
    ensures Run(c, Initial(c), steps).value.db.lastSynced < l.block
  {
    hide Slice, IsChain, Replay, OverlayReplay, Initial, Run, Inv;
    var s := Run(c, Initial(c), steps).value;
    EveryRun(c, steps);
    var logs := Slice(c.chain, c.start + 1, s.db.lastSynced);
    ReplayFailsExactly(c.k, EmptyTables(c.start), logs);
    SliceMembers(c.chain, c.start + 1, s.db.lastSynced, l);
  }

  // ----- Every call ends -----

  /** No state is stuck: until the call returns, a step of the fetcher or the processor is
      possible that is neither a failure nor a cancellation, unless the log at hand cannot be
      applied. */
  lemma NeverStuck(c: Config, s: State) returns (step: Step)
    requires !s.processor.Returned?
    ensures Progresses(step) && Enabled(c, s, step) && !FailsFreely(c, s, step)
  {
    if s.processor.InTx? {
      step := if s.processor.rest == [] then Commit
        else if ApplyLog(c.k, s.processor.work, s.processor.rest[0]).Ok? then ApplyOne else TxFails;
    } else if s.channel != [] {
      step := Receive;
    } else {
      step := match s.fetcher
        case Fetching(n) => if n <= s.target then FetchOk else FetchDone
        case Sending(_, _) => Send
        case SendingError => SendError
        case Closed => Finish;
    }
  }

  /** A failure that the log at hand does not force. */
  predicate FailsFreely(c: Config, s: State, step: Step) {
    || step in {FetchFails, SendAborted, DropError, CommitReportedFailed}
    || (step == TxFails && s.processor.InTx?
        && (s.processor.rest == [] || ApplyLog(c.k, s.processor.work, s.processor.rest[0]).Ok?))
  }

  /** The steps of fetcher and processor, a refused batch excepted. */
  predicate Progresses(step: Step) {
    step in {FetchOk, FetchFails, FetchDone, Send, SendAborted, SendError, DropError,
             Receive, ApplyOne, Commit, CommitReportedFailed, TxFails, Finish}
  }

  predicate Restarts(step: Step) {
    step.Call? || step.Crash?
  }

  /** What the fetcher still has to do: blocks to fetch, logs to hand over. */
  function FetcherWork(c: Config, s: State): nat {
    match s.fetcher
    case Fetching(n) => if n <= s.target then 6 * (s.target + 1 - n) + |Slice(c.chain, n, s.target)| + 4 else 4
    case Sending(end, logs) =>
      |logs| + 9 + if end <= s.target then 6 * (s.target - end) + |Slice(c.chain, end + 1, s.target)| else 0
    case SendingError => 3
    case Closed => 0
  }

  function ChannelWork(q: seq<Message>): nat
    decreases |q|
  {
    if q == [] then 0
    else (match q[0] case ErrorMessage => 2 case BatchMessage(_, logs) => |logs| + 4) + ChannelWork(q[1..])
  }

  function ProcessorWork(p: Processor): nat {
    match p
    case Receiving => 1
    case InTx(_, _, rest) => |rest| + 3
    case Returned(_) => 0
  }

  function Work(c: Config, s: State): nat {
    FetcherWork(c, s) + ChannelWork(s.channel) + ProcessorWork(s.processor)
  }

  lemma {:induction false} ChannelAppend(q: seq<Message>, m: Message)
    ensures ChannelWork(q + [m])
      == ChannelWork(q) + match m case ErrorMessage => 2 case BatchMessage(_, logs) => |logs| + 4
    decreases |q|
  {
    if q != [] {
      assert (q + [m])[1..] == q[1..] + [m];
      ChannelAppend(q[1..], m);
    } else {
      assert (q + [m])[1..] == [];
    }
  }

  lemma FetcherStepWorks(c: Config, s: State, step: Step)
    requires Good(c) && Enabled(c, s, step)
    requires step in {FetchOk, FetchFails, FetchDone, Send, SendAborted, SendError, DropError}
    ensures Work(c, Do(c, s, step)) < Work(c, s)
  {
    hide Slice, IsChain, Grown, ProcessorWork;
    if step == Send {
      ChannelAppend(s.channel, BatchMessage(s.fetcher.batchEnd, s.fetcher.logs));
    } else if step == SendError {
      ChannelAppend(s.channel, ErrorMessage);
    } else if step == FetchOk {
      FetchWorks(c, s);
    }
  }

  lemma ProcessorStepWorks(c: Config, s: State, step: Step)
    requires Enabled(c, s, step)
    requires step in {Receive, ApplyOne, Commit, CommitReportedFailed, TxFails, Finish}
    ensures Work(c, Do(c, s, step)) < Work(c, s)
  {
    hide Slice, ApplyLog;
  }

  /** Every step of fetcher or processor leaves less to do, failing steps included; the
      others, refusals, cancellation and the reader's, change nothing about it. A sender
      left behind by a call that has returned makes no difference. */
  lemma StepWorks(c: Config, s: State, step: Step)
    requires Good(c) && Enabled(c, s, step) && !Restarts(step)
    ensures Work(c, Do(c, s, step)) + (if Progresses(step) then 1 else 0) <= Work(c, s)
  {
    hide Slice, IsChain, OverlayReplay, ApplyLog, Restrict, RangeEnd, Grown, Shrunk;
    if step in {Receive, ApplyOne, Commit, CommitReportedFailed, TxFails, Finish} {
      ProcessorStepWorks(c, s, step);
    } else if Progresses(step) {
      FetcherStepWorks(c, s, step);
    }
  }

  lemma FetchWorks(c: Config, s: State)
    requires Good(c) && Enabled(c, s, FetchOk)
    ensures FetcherWork(c, Do(c, s, FetchOk)) < FetcherWork(c, s)
  {
    hide Slice, IsChain;
    var n, t := s.fetcher.current, s.target;
    var end := RangeEnd(n, s.size, t);
    SliceConcat(c.chain, n, end, t);
    SliceTail(c.chain, end, t);
  }

  lemma SliceTail(chain: seq<Log>, end: nat, last: nat)
    ensures end == last ==> Slice(chain, end + 1, last) == []
  {
    if end == last { SliceEmpty(chain, end + 1, last); }
  }

  function Progress(steps: seq<Step>): nat {
    if steps == [] then 0 else Progress(steps[..|steps|-1]) + if Progresses(steps[|steps|-1]) then 1 else 0
  }

  /** From any reachable state, without restarts, fetcher and processor can take only so many
      steps, whatever happens. */
  lemma {:induction false} CallEnds(c: Config, s: State, steps: seq<Step>)
    requires Good(c) && Inv(c, s) && Run(c, s, steps).Some?
    requires forall step | step in steps :: !Restarts(step)
    ensures Inv(c, Run(c, s, steps).value)
    ensures Progress(steps) + Work(c, Run(c, s, steps).value) <= Work(c, s)
  {
    hide Inv, Work, Progresses, Restarts, Do, Enabled;
    if steps != [] {
      var n := |steps| - 1;
      CallEnds(c, s, steps[..n]);
      StepKeepsInv(c, Run(c, s, steps[..n]).value, steps[n]);
      StepWorks(c, Run(c, s, steps[..n]).value, steps[n]);
    }
  }

  /** Nothing has gone wrong in the call. */
  predicate Healthy(s: State) {
    && !s.cancelled && !s.fetcher.SendingError? && !HasError(s.channel)
    && (s.processor.Returned? ==> s.processor.result.Succeeded?)
  }

  ghost predicate AllAcceptable(c: Config) {
    forall l | l in c.chain && l.block > c.start :: Acceptable(l)
  }

  /** If all logs can be applied, a step that is no failure of its own keeps a call healthy. */
  lemma StepKeepsHealth(c: Config, s: State, step: Step)
    requires Inv(c, s) && Healthy(s) && AllAcceptable(c) && !s.processor.Returned?
    requires Enabled(c, s, step) && Progresses(step) && !FailsFreely(c, s, step)
    ensures Healthy(Do(c, s, step))
  {
    hide Slice, IsChain, Replay, OverlayReplay, Grown, ApplyLog, ReaderOk, AllAcceptable;
    if step == TxFails {
      AppliesWell(c, s);
    } else if step == Receive {
      var q := s.channel;
      assert q[1..] != [] ==> q[1..][|q[1..]|-1] == q[|q|-1];
    }
  }

  lemma AppliesWell(c: Config, s: State)
    requires Synced(c.k, c.chain, c.start, s.db) && TxOk(c, s) && AllAcceptable(c)
    requires s.processor.InTx? && s.processor.rest != []
    ensures ApplyLog(c.k, s.processor.work, s.processor.rest[0]).Ok?
  {
    hide Slice, IsChain, Replay, ApplyLog;
    var p := s.processor;
    var logs := Slice(c.chain, s.db.lastSynced + 1, p.batchEnd);
    forall l | l in logs ensures Acceptable(l) { SliceMembers(c.chain, s.db.lastSynced + 1, p.batchEnd, l); }
    ReplayFailsExactly(c.k, s.db, logs);
    ReplayFront(c.k, p.work, p.rest[0], p.rest[1..]);
    assert p.rest == [p.rest[0]] + p.rest[1..];
  }

  lemma {:induction false} RunFront(c: Config, s: State, step: Step, rest: seq<Step>)
    requires Enabled(c, s, step)
    ensures Run(c, s, [step] + rest) == Run(c, Do(c, s, step), rest)
  {
    hide Do, Enabled;
    var steps := [step] + rest;
    if rest == [] {
      assert steps == [step] && [step][..0] == [];
    } else {
      RunFront(c, s, step, rest[..|rest|-1]);
      assert steps[..|steps|-1] == [step] + rest[..|rest|-1];
    }
  }

  /** From any state that can be reached, some run of at most as many steps as there is work
      makes the call return; and if nothing has gone wrong so far and all logs can be applied,
      it returns success with the target reached. */
  lemma {:induction false} CallReturns(c: Config, s: State) returns (steps: seq<Step>)
    requires Good(c) && Inv(c, s)
    ensures |steps| <= Work(c, s) && Run(c, s, steps).Some? && forall step | step in steps :: Progresses(step)
    ensures var u := Run(c, s, steps).value;
      && u.processor.Returned?
      && (Healthy(s) && AllAcceptable(c) ==> u.processor.result.Succeeded? && u.db.lastSynced >= s.target)
    decreases Work(c, s)
  {
    if s.processor.Returned? {
      steps := [];
    } else {
      var step := NeverStuck(c, s);
      KeepsTarget(c, s, step);
      if Healthy(s) && AllAcceptable(c) { StepKeepsHealth(c, s, step); }
      hide *;
      NoRestart(step);
      StepKeepsInv(c, s, step);
      StepWorks(c, s, step);
      var rest := CallReturns(c, Do(c, s, step));
      RunFront(c, s, step, rest);
      steps := [step] + rest;
    }
  }

  lemma NoRestart(step: Step)
    requires Progresses(step)
    ensures !Restarts(step)
  {
  }

  lemma KeepsTarget(c: Config, s: State, step: Step)
    requires Enabled(c, s, step) && Progresses(step)
    ensures Do(c, s, step).target == s.target
  {
    hide Slice, ApplyLog, Grown;
  }

  /** The work of a fresh call: six steps for each block to be synced and one for each log. */
  lemma CallIsBounded(c: Config, s: State, target: nat)
    requires s.db.lastSynced < target
    ensures Work(c, Begin(s, target))
      == 6 * (target - s.db.lastSynced) + |Slice(c.chain, s.db.lastSynced + 1, target)| + 5
  {
    hide Slice;
  }
}
