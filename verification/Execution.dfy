/** Fetching logs in batches of adaptive size (eth/execution). */
module Execution {
  import opened Bytes
  import opened Events
  import opened Chain
  import opened Order

  const DEFAULT_MIN_BATCH_SIZE := 200
  const DEFAULT_MAX_BATCH_SIZE := 10000

  function Add64(a: nat, b: nat): (r: nat) { (a + b) % U64 }

  /** The additive step: a tenth of the current size, at least 1 and at most 100. */
  function Increment(current: nat): nat {
    if current / 10 > 100 then 100 else if current / 10 < 1 then 1 else current / 10
  }

  function Grown(current: nat, max: nat): nat {
    var next := Add64(current, Increment(current));
    if next > max then max else next
  }

  function Shrunk(current: nat, min: nat): nat {
    if current / 2 < min then min else current / 2
  }

  predicate Bounded(min: nat, current: nat, max: nat) {
    1 <= min <= current <= max < U64
  }

  /** Growing keeps every size within its bounds exactly when the step above the maximum
      does not wrap around 64 bits. */
  lemma GrowthStaysBounded(max: nat)
    requires 1 <= max < U64
    ensures (forall min, current :: Bounded(min, current, max) ==> Bounded(min, Grown(current, max), max))
      <==> max + Increment(max) < U64
  {
    if max + Increment(max) >= U64 {
      assert Bounded(max, max, max);
      assert Add64(max, Increment(max)) == max + Increment(max) - U64;
      assert !Bounded(max, Grown(max, max), max);
    }
  }

  lemma GrownInBounds(min: nat, current: nat, max: nat)
    requires Bounded(min, current, max) && max + Increment(max) < U64
    ensures Bounded(min, Grown(current, max), max) && (Grown(current, max) > current || Grown(current, max) == max)
  {
    assert Increment(current) <= Increment(max);
  }

  /** A tenth of the size, but not below 1 and not above 100. */
  predicate IsStep(size: nat, d: nat) {
    1 <= d <= 100 && (d == size / 10 || (d == 1 && size < 10) || (d == 100 && size >= 1000))
  }

  predicate GrowsBy(size: nat, d: nat, max: nat, next: nat) {
    next == size + d <= max || size + d > max == next
  }

  /** Sizes grow by such a step unless the maximum stops them, and shrink to half unless the
      minimum does. */
  lemma StepsExactly(min: nat, current: nat, max: nat)
    requires Bounded(min, current, max) && max + Increment(max) < U64
    ensures exists d :: IsStep(current, d) && GrowsBy(current, d, max, Grown(current, max))
    ensures var s := Shrunk(current, min); s == current / 2 >= min || s == min > current / 2
  {
    GrownInBounds(min, current, max);
    assert Increment(current) <= Increment(max);
    assert IsStep(current, Increment(current));
  }

  class AdaptiveBatchSize {
    var current: nat
    var min: nat
    var max: nat

    ghost predicate Valid()
      reads this
    {
      Bounded(min, current, max)
    }

    constructor (min: u64, max: u64)
      ensures Valid() && this.current == this.max
      ensures this.max == if max == 0 then 10_000 else max
      ensures this.min <= if min == 0 then 200 else min
      ensures this.min == this.max || this.min == if min == 0 then 200 else min
    {
      var lo, hi := min, max;
      if lo == 0 { lo := DEFAULT_MIN_BATCH_SIZE; }
      if hi == 0 { hi := DEFAULT_MAX_BATCH_SIZE; }
      if lo > hi { lo := hi; }
      this.current, this.min, this.max := hi, lo, hi;
    }

    method Get() returns (size: nat)
      ensures size == current
    {
      size := current;
    }

    method Decrease() returns (size: nat)
      requires Valid()
      modifies this`current
      ensures Valid() && size == current == Shrunk(old(current), min)
      ensures current < old(current) || current == min
    {
      current := current / 2;
      if current < min {
        current := min;
      }
      size := current;
    }

    method Increase() returns (size: nat)
      requires Valid()
      modifies this`current
      ensures size == current == Grown(old(current), max)
      ensures max + Increment(max) < U64 ==> Valid() && (current > old(current) || current == max)
    {
      if max + Increment(max) < U64 { GrownInBounds(min, current, max); }
      hide Add64;
      var increment := current / 10;
      if increment > 100 {
        increment := 100;
      }
      if increment < 1 {
        increment := 1;
      }
      current := Add64(current, increment);
      if current > max {
        current := max;
      }
      size := current;
    }
  }

  // ----- Grouping -----

  datatype BlockLogs = BlockLogs(blockNumber: nat, blockTime: nat, logs: seq<Log>)

  function Flatten(groups: seq<BlockLogs>): seq<Log> {
    if groups == [] then [] else Flatten(groups[..|groups|-1]) + groups[|groups|-1].logs
  }

  /** One non-empty group a block, blocks strictly increasing, each with its time. */
  ghost predicate Grouped(groups: seq<BlockLogs>, blockTimes: map<nat, nat>) {
    groups == [] || (
      var n := |groups| - 1;
      && Grouped(groups[..n], blockTimes)
      && GroupOk(groups[n], blockTimes)
      && (n > 0 ==> groups[n-1].blockNumber < groups[n].blockNumber))
  }

  ghost predicate GroupOk(g: BlockLogs, blockTimes: map<nat, nat>) {
    && g.logs != []
    && (forall l | l in g.logs :: l.block == g.blockNumber)
    && g.blockNumber in blockTimes && g.blockTime == blockTimes[g.blockNumber]
  }

  lemma {:induction false} FlattenSplit(groups: seq<BlockLogs>, i: nat)
    requires i <= |groups|
    ensures Flatten(groups) == Flatten(groups[..i]) + Flatten(groups[i..])
  {
    if i == |groups| {
      assert groups[..i] == groups;
    } else {
      var n := |groups| - 1;
      FlattenSplit(groups[..n], i);
      assert groups[..n][..i] == groups[..i] && groups[..n][i..] == groups[i..][..n-i];
      assert groups[i..][..|groups[i..]|-1] == groups[i..][..n-i];
    }
  }

  lemma FlattenOne(g: BlockLogs)
    ensures Flatten([g]) == g.logs
  {
    assert [g][..0] == [];
  }

  lemma StartGroup(groups: seq<BlockLogs>, g: BlockLogs, times: map<nat, nat>)
    requires Grouped(groups, times) && GroupOk(g, times)
    requires groups != [] ==> groups[|groups|-1].blockNumber < g.blockNumber
    ensures Grouped(groups + [g], times) && Flatten(groups + [g]) == Flatten(groups) + g.logs
  {
    assert (groups + [g])[..|groups|] == groups;
  }

  lemma ExtendGroup(groups: seq<BlockLogs>, log: Log, times: map<nat, nat>)
    requires Grouped(groups, times) && groups != [] && groups[|groups|-1].blockNumber == log.block
    ensures var n := |groups| - 1; var s := groups[..n] + [groups[n].(logs := groups[n].logs + [log])];
      Grouped(s, times) && Flatten(s) == Flatten(groups) + [log]
  {
    var n := |groups| - 1;
    var g := groups[n].(logs := groups[n].logs + [log]);
    StartGroup(groups[..n], g, times);
    assert Flatten(groups[..n]) + g.logs == Flatten(groups) + [log];
  }

  method GroupLogsByBlock(logs: seq<Log>, blockTimes: map<nat, nat>) returns (r: Result<seq<BlockLogs>>)
    ensures r.Ok? <==> forall l | l in logs :: l.block in blockTimes
    ensures r.Ok? ==> Grouped(r.value, blockTimes)
    ensures r.Ok? ==> SortedBy(Flatten(r.value), LogKey) && multiset(Flatten(r.value)) == multiset(logs)
  {
    if |logs| == 0 {
      return Ok([]);
    }
    var ordered := Sort(logs, LogKey);
    MultisetMembers(logs, ordered);
    var result: seq<BlockLogs> := [];
    for i := 0 to |ordered|
      invariant Grouped(result, blockTimes) && Flatten(result) == ordered[..i]
      invariant result == [] <==> i == 0
      invariant i > 0 ==> result[|result|-1].blockNumber == ordered[i-1].block
      invariant forall j | 0 <= j < i :: ordered[j].block in blockTimes
    {
      var log := ordered[i];
      var n := |result|;
      assert ordered[..i+1] == ordered[..i] + [log];
      if n == 0 || result[n-1].blockNumber != log.block {
        if log.block !in blockTimes {
          assert log in logs;
          return Err;
        }
        assert i > 0 ==> LexLe(LogKey(ordered[i-1]), LogKey(log));
        StartGroup(result, BlockLogs(log.block, blockTimes[log.block], [log]), blockTimes);
        result := result + [BlockLogs(log.block, blockTimes[log.block], [log])];
      } else {
        ExtendGroup(result, log, blockTimes);
        result := result[..n-1] + [result[n-1].(logs := result[n-1].logs + [log])];
      }
    }
    assert ordered[..|ordered|] == ordered;
    r := Ok(result);
  }

  // ----- The fetch loop -----

  /** What an RPC provider answers to a range query. */
  datatype Reply = Logs(logs: seq<Log>) | BatchError | FatalError

  /** One call of the batch callback. */
  datatype Batch = Batch(batchEnd: nat, groups: seq<BlockLogs>)

  /** How one range went: fetched, refused as too large, or failed for good. */
  datatype Fetched = Fetched(batch: Batch) | Refused | Broken

  /** How the loop ended: at the last block, on an error, or because its context ran out. */
  datatype Outcome = Completed | Failed | Expired

  /** The first block not yet covered. */
  function NextBlock(from: nat, batches: seq<Batch>): nat {
    if batches == [] then from else batches[|batches|-1].batchEnd + 1
  }

  /** The batches cover adjacent, non-empty ranges, starting at from and ending at or
      before to, and each carries exactly the chain's logs of its range. */
  ghost predicate Covers(chain: seq<Log>, from: nat, to: nat, batches: seq<Batch>) {
    batches == [] || (
      var n := |batches| - 1;
      && Covers(chain, from, to, batches[..n])
      && NextBlock(from, batches[..n]) <= batches[n].batchEnd <= to
      && IsBatch(chain, NextBlock(from, batches[..n]), batches[n]))
  }

  ghost predicate IsBatch(chain: seq<Log>, start: nat, b: Batch) {
    Flatten(b.groups) == Slice(chain, start, b.batchEnd) && exists times :: Grouped(b.groups, times)
  }

  function BatchLogs(batches: seq<Batch>): seq<Log> {
    if batches == [] then [] else BatchLogs(batches[..|batches|-1]) + Flatten(batches[|batches|-1].groups)
  }

  lemma {:induction false} BatchLogsSplit(batches: seq<Batch>, i: nat)
    requires i <= |batches|
    ensures BatchLogs(batches) == BatchLogs(batches[..i]) + BatchLogs(batches[i..])
  {
    if i == |batches| {
      assert batches[..i] == batches;
    } else {
      var n := |batches| - 1;
      BatchLogsSplit(batches[..n], i);
      assert batches[..n][..i] == batches[..i] && batches[..n][i..] == batches[i..][..n-i];
      assert batches[i..][..|batches[i..]|-1] == batches[i..][..n-i];
    }
  }

  lemma {:induction false} CoversPrefix(chain: seq<Log>, from: nat, to: nat, batches: seq<Batch>, i: nat)
    requires Covers(chain, from, to, batches) && i < |batches|
    ensures NextBlock(from, batches[..i]) <= batches[i].batchEnd <= to
    ensures IsBatch(chain, NextBlock(from, batches[..i]), batches[i])
  {
    hide IsBatch;
    var n := |batches| - 1;
    if i < n {
      CoversPrefix(chain, from, to, batches[..n], i);
      assert batches[..n][..i] == batches[..i];
    }
  }

  /** Whatever the batching, the logs handed over are the chain's, in order, without gap
      or repetition. */
  lemma {:induction false} BatchesAreSlice(chain: seq<Log>, from: nat, to: nat, batches: seq<Batch>)
    requires IsChain(chain) && Covers(chain, from, to, batches)
    ensures NextBlock(from, batches) >= from
    ensures BatchLogs(batches) == Slice(chain, from, NextBlock(from, batches) - 1)
  {
    hide Slice, IsChain, Grouped, Flatten;
    if batches == [] {
      SliceEmpty(chain, from, from - 1);
    } else {
      var n := |batches| - 1;
      var next: int, end: int := NextBlock(from, batches[..n]), batches[n].batchEnd;
      BatchesAreSlice(chain, from, to, batches[..n]);
      SliceConcat(chain, from, next - 1, end);
      assert BatchLogs(batches) == Slice(chain, from, next - 1) + Slice(chain, next, end);
    }
  }

  /** The end of the range fetched from current, in 64-bit arithmetic. */
  function RangeEnd64(current: nat, size: nat, to: nat): (r: nat)
    ensures r <= to
  {
    if (current + size - 1) % U64 > to then to else (current + size - 1) % U64
  }

  /** How a round of the loop went, unless it broke off. */
  datatype Round = WasFetched | WasRefused

  /** The batch size after some rounds: it grows with a range fetched and shrinks with a
      refusal. */
  function SizeAfter(size: nat, rounds: seq<Round>, min: nat, max: nat): nat {
    if rounds == [] then size
    else
      var n := |rounds| - 1;
      if rounds[n].WasFetched? then Grown(SizeAfter(size, rounds[..n], min, max), max)
      else Shrunk(SizeAfter(size, rounds[..n], min, max), min)
  }

  function Refusals(rounds: seq<Round>): nat {
    if rounds == [] then 0 else Refusals(rounds[..|rounds|-1]) + if rounds[|rounds|-1].WasRefused? then 1 else 0
  }

  /** A batch for every range fetched, as large as the size by then and the last block allow;
      a refused range is asked for again. */
  predicate SizedBy(from: nat, to: nat, size: nat, min: nat, max: nat, rounds: seq<Round>, batches: seq<Batch>) {
    if rounds == [] then batches == []
    else
      var n, m := |rounds| - 1, |batches| - 1;
      if rounds[n].WasRefused? then SizedBy(from, to, size, min, max, rounds[..n], batches)
      else
        && m >= 0 && SizedBy(from, to, size, min, max, rounds[..n], batches[..m])
        && batches[m].batchEnd == RangeEnd64(NextBlock(from, batches[..m]), SizeAfter(size, rounds[..n], min, max), to)
  }

  lemma OneMoreRound(size: nat, min: nat, max: nat, rounds: seq<Round>)
    ensures SizeAfter(size, rounds + [WasFetched], min, max) == Grown(SizeAfter(size, rounds, min, max), max)
    ensures SizeAfter(size, rounds + [WasRefused], min, max) == Shrunk(SizeAfter(size, rounds, min, max), min)
    ensures Refusals(rounds + [WasRefused]) == Refusals(rounds) + 1
    ensures Refusals(rounds + [WasFetched]) == Refusals(rounds)
  {
    hide Grown, Shrunk;
    assert (rounds + [WasFetched])[..|rounds|] == rounds && (rounds + [WasRefused])[..|rounds|] == rounds;
  }

  /** The batches so far cover the blocks below the current one, sized as they should be. */
  ghost predicate Fetching(chain: seq<Log>, from: nat, to: nat, size: nat, min: nat, max: nat, rounds: seq<Round>,
                           batches: seq<Batch>, current: nat) {
    && Covers(chain, from, to, batches) && SizedBy(from, to, size, min, max, rounds, batches)
    && current == NextBlock(from, batches) && (from <= to ==> current <= to + 1)
  }

  lemma FetchStep(chain: seq<Log>, from: nat, to: nat, size: nat, min: nat, max: nat, rounds: seq<Round>,
                  batches: seq<Batch>, current: nat, b: Batch)
    requires Fetching(chain, from, to, size, min, max, rounds, batches, current)
    ensures Fetching(chain, from, to, size, min, max, rounds + [WasRefused], batches, current)
    ensures b.batchEnd == RangeEnd64(current, SizeAfter(size, rounds, min, max), to) && current <= b.batchEnd ==>
      IsBatch(chain, current, b) ==>
      Fetching(chain, from, to, size, min, max, rounds + [WasFetched], batches + [b], b.batchEnd + 1)
  {
    hide RangeEnd64, SizeAfter, IsBatch;
    assert (rounds + [WasFetched])[..|rounds|] == rounds && (rounds + [WasRefused])[..|rounds|] == rounds;
    assert (batches + [b])[..|batches|] == batches;
  }

  /** No range that ends at or below the block wraps around 64 bits. */
  predicate RunsForward(to: nat, max: nat) {
    to + max <= U64 && to + 1 < U64
  }

  /** Every range runs forward, and so does the loop, exactly when neither a batch that starts
      at the last block nor the block after it wraps around 64 bits. */
  lemma RangesRunForwardExactly(to: u64, max: u64)
    requires max >= 1
    ensures (forall current: nat, size: nat | current <= to && 1 <= size <= max ::
        current <= RangeEnd64(current, size, to) <= to && RangeEnd64(current, size, to) + 1 < U64)
      <==> RunsForward(to, max)
  {
    if to + max > U64 {
      assert (to + max - 1) % U64 == to + max - 1 - U64;
      assert RangeEnd64(to, max, to) < to;
    } else if to + 1 == U64 {
      assert RangeEnd64(to, 1, to) + 1 == U64;
    }
  }

  lemma RangeForward(current: nat, size: nat, to: nat, max: nat)
    requires RunsForward(to, max) && current <= to && 1 <= size <= max
    ensures current <= RangeEnd64(current, size, to)
    ensures (RangeEnd64(current, size, to) + 1) % U64 == RangeEnd64(current, size, to) + 1
  {
  }

  /** Then a range has as many blocks as the size says, unless the last block cuts it short. */
  lemma RangeHasSize(current: nat, size: nat, to: nat, max: nat)
    requires RunsForward(to, max) && current <= to && 1 <= size <= max
    ensures var end := RangeEnd64(current, size, to); end + 1 == current + size <= to + 1 || end == to < current + size
  {
  }

  class Client {
    const chain: seq<Log>
    const batchSize: AdaptiveBatchSize
    /** The head blocks reported so far. */
    ghost var heads: seq<u64>
    /** How many requests have failed for good, contexts that ended included. */
    ghost var faults: nat

    /** A chain, and a batch size that stays within bounds whatever it goes through. */
    ghost predicate Valid()
      reads batchSize
    {
      batchSize.Valid() && batchSize.max + Increment(batchSize.max) < U64 && IsChain(chain)
    }

    constructor (chain: seq<Log>, batchSize: AdaptiveBatchSize)
      ensures this.chain == chain && this.batchSize == batchSize && heads == [] && faults == 0
    {
      this.chain, this.batchSize, heads, faults := chain, batchSize, [], 0;
    }

    /** The provider: an error, or the logs of the range in any order. It refuses a batch
        as too large only while it may. */
    method FilterLogs(first: nat, last: nat, mayRefuse: bool) returns (r: Reply)
      modifies this`faults
      ensures r.Logs? ==> multiset(r.logs) == multiset(Slice(chain, first, last))
      ensures r.BatchError? ==> mayRefuse
      ensures faults == old(faults) + if r.FatalError? then 1 else 0
    {
      r := *;
      if r.BatchError? && !mayRefuse { r := FatalError; }
      if r.Logs? && multiset(r.logs) != multiset(Slice(chain, first, last)) {
        r := Logs(Slice(chain, first, last));
      }
      faults := faults + if r.FatalError? then 1 else 0;
    }

    /** The number of the latest block. */
    method GetHeadBlock() returns (r: Result<u64>)
      modifies this`heads, this`faults
      ensures heads == if r.Ok? then old(heads) + [r.value] else old(heads)
      ensures faults == old(faults) + if r.Err? then 1 else 0
    {
      var head: int := *;
      if 0 <= head < U64 {
        heads := heads + [head];
        return Ok(head);
      }
      faults := faults + 1;
      r := Err;
    }

    /** The context of a call: once done, the call ends with an error. */
    method ContextDone() returns (done: bool)
      modifies this`faults
      ensures faults == old(faults) + if done then 1 else 0
    {
      done := *;
      faults := faults + if done then 1 else 0;
    }

    /** Block times by RPC: an error, or a time for every requested block. */
    method GetBlockTimestamps(blocks: seq<nat>) returns (r: Result<map<nat, nat>>)
      modifies this`faults
      ensures r.Ok? ==> forall b | b in blocks :: b in r.value
      ensures faults == old(faults) + if r.Err? then 1 else 0
    {
      var fails: bool := *;
      if fails {
        faults := faults + 1;
        return Err;
      }
      var times: map<nat, nat> := map[];
      for i := 0 to |blocks|
        invariant forall b | b in blocks[..i] :: b in times
      {
        var time: nat := *;
        times := times[blocks[i] := time];
      }
      r := Ok(times);
    }

    /** Packing fails only with the request for the block times. */
    method PackLogs(logs: seq<Log>) returns (r: Result<seq<BlockLogs>>)
      modifies this`faults
      ensures r.Ok? ==> exists times :: Grouped(r.value, times)
      ensures r.Ok? ==> SortedBy(Flatten(r.value), LogKey) && multiset(Flatten(r.value)) == multiset(logs)
      ensures faults == old(faults) + if r.Err? then 1 else 0
    {
      if |logs| == 0 {
        assert Grouped([], map[]);
        return Ok([]);
      }
      var uniqueBlocks: seq<nat> := [];
      var seen: set<nat> := {};
      for i := 0 to |logs|
        invariant forall b :: b in seen <==> b in uniqueBlocks
        invariant forall j | 0 <= j < i :: logs[j].block in seen
      {
        if logs[i].block !in seen {
          seen := seen + {logs[i].block};
          uniqueBlocks := uniqueBlocks + [logs[i].block];
        }
      }
      var blockTimes := GetBlockTimestamps(uniqueBlocks);
      match blockTimes
      case Err => r := Err;
      case Ok(times) => r := GroupLogsByBlock(logs, times);
    }

    /** The fetch of one range: the batch size adapts to how it goes. */
    method FetchRange(first: nat, last: nat, mayRefuse: bool) returns (r: Fetched)
      requires Valid()
      modifies batchSize`current, this`faults
      ensures Valid()
      ensures r.Fetched? ==> r.batch.batchEnd == last && IsBatch(chain, first, r.batch)
      ensures r.Refused? ==> mayRefuse
      ensures faults == old(faults) + if r.Broken? then 1 else 0
      ensures match r
        case Fetched(_) => batchSize.current == Grown(old(batchSize.current), batchSize.max)
        case Refused => batchSize.current == Shrunk(old(batchSize.current), batchSize.min)
        case Broken => batchSize.current in {old(batchSize.current), Grown(old(batchSize.current), batchSize.max)}
    {
      var reply := FilterLogs(first, last, mayRefuse);
      match reply {
        case BatchError =>
          var done := ContextDone();
          if done { return Broken; }
          var newSize := batchSize.Decrease();
          r := Refused;
        case FatalError =>
          r := Broken;
        case Logs(logs) =>
          var newSize := batchSize.Increase();
          var packed := PackLogs(logs);
          if packed.Err? { return Broken; }
          SortedSlice(chain, first, last, Flatten(packed.value));
          r := Fetched(Batch(last, packed.value));
      }
    }

    /** One run of the loop, with the calls of the callback and the rounds recorded. The
        provider may refuse a batch as too large at most errorBudget times; it, the callback
        and the context may fail at any point, and the context expires after the given number
        of rounds at the latest. The batch size shrinks with each refusal and grows with each
        range fetched. If ranges run forward, the batches are sized by it and cover the blocks
        from fromBlock on, to the end if the loop completes; and the loop needs no more rounds
        than there are blocks to fetch and batches to be refused. */
    method FetchLogs(fromBlock: u64, toBlock: u64, errorBudget: nat, rounds: nat)
      returns (batches: seq<Batch>, outcome: Outcome, ghost went: seq<Round>)
      requires Valid()
      modifies batchSize`current, this`faults
      ensures Valid()
      ensures fromBlock > toBlock ==> outcome.Completed? && batches == []
      ensures RunsForward(toBlock, batchSize.max) ==> Covers(chain, fromBlock, toBlock, batches)
      ensures RunsForward(toBlock, batchSize.max) && outcome.Completed? && fromBlock <= toBlock ==>
        NextBlock(fromBlock, batches) == toBlock + 1
      ensures RunsForward(toBlock, batchSize.max) && outcome.Expired? ==> rounds < toBlock + 1 - fromBlock + errorBudget
      ensures faults >= old(faults) && (outcome.Failed? <==> faults > old(faults))
      ensures Refusals(went) <= errorBudget
      ensures RunsForward(toBlock, batchSize.max) ==>
        SizedBy(fromBlock, toBlock, old(batchSize.current), batchSize.min, batchSize.max, went, batches)
      ensures var size := SizeAfter(old(batchSize.current), went, batchSize.min, batchSize.max);
        batchSize.current == size || (outcome.Failed? && batchSize.current == Grown(size, batchSize.max))
    {
      ghost var forward, start, min, max :=
        RunsForward(toBlock, batchSize.max), batchSize.current, batchSize.min, batchSize.max;
      batches, went := [], [];
      assert Fetching(chain, fromBlock, toBlock, start, min, max, went, batches, fromBlock);
      assert SizeAfter(start, went, min, max) == start && Refusals(went) == 0;
      hide IsChain, Covers, NextBlock, IsBatch, SizeAfter, SizedBy, Grown, Shrunk, Refusals;
      var currentBlock: nat := fromBlock;
      var budget, left := errorBudget, rounds;
      while currentBlock <= toBlock
        invariant Valid() && faults == old(faults)
        invariant fromBlock > toBlock ==> batches == [] && currentBlock == fromBlock
        invariant forward ==> Fetching(chain, fromBlock, toBlock, start, min, max, went, batches, currentBlock)
        invariant forward ==> rounds - left <= currentBlock - fromBlock + errorBudget - budget
        invariant batchSize.current == SizeAfter(start, went, min, max) && Refusals(went) == errorBudget - budget
        decreases left
      {
        if left == 0 { return batches, Expired, went; }
        left := left - 1;
        var size := batchSize.Get();
        var batchEnd := (currentBlock + size - 1) % U64;
        if batchEnd > toBlock {
          batchEnd := toBlock;
        }
        assert batchEnd == RangeEnd64(currentBlock, size, toBlock);
        if forward { RangeForward(currentBlock, size, toBlock, batchSize.max); }
        hide RangeEnd64;
        OneMoreRound(start, min, max, went);
        var got := FetchRange(currentBlock, batchEnd, budget > 0);
        match got {
          case Broken =>
            return batches, Failed, went;
          case Refused =>
            ghost var none := Batch(0, []);
            if forward { FetchStep(chain, fromBlock, toBlock, start, min, max, went, batches, currentBlock, none); }
            budget, went := budget - 1, went + [WasRefused];
          case Fetched(batch) =>
            if forward { FetchStep(chain, fromBlock, toBlock, start, min, max, went, batches, currentBlock, batch); }
            batches, went := batches + [batch], went + [WasFetched];
            var done := ContextDone();
            if done { return batches, Failed, went; }
            currentBlock := (batchEnd + 1) % U64;
        }
      }
      outcome := Completed;
    }
  }
}
