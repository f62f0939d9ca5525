/** Sending one transaction with replacement fees and a final cancellation
    (txmanager/manager.go, txmanager/config.go). */
module TxManager {
  import opened Bytes

  const GWEI: nat := 1_000_000_000
  const MIN_TIP_CAP: nat := GWEI
  const PERCENT_BASE: int := 100
  const I63: int := 0x8000_0000_0000_0000

  const DEFAULT_GAS_BUFFER_PERCENT := 20
  const DEFAULT_MAX_FEE_PER_GAS_GWEI := 420
  const DEFAULT_PENDING_TIMEOUT_BLOCKS := 10
  const DEFAULT_GAS_BUMP_PERCENT := 10
  const DEFAULT_MAX_ATTEMPTS := 3
  const DEFAULT_RETRY_DELAY := 5_000_000_000

  type i64 = x: int | -I63 <= x < I63

  /** 64-bit signed wrap-around. */
  function Wrap64(x: int): i64 {
    (x + I63) % (2 * I63) - I63
  }

  class TxPolicy {
    var gasBufferPercent: i64
    var maxFeePerGasGwei: u64
    var pendingTimeoutBlocks: i64
    var gasBumpPercent: i64
    var maxAttempts: i64
    var retryDelay: i64

    /** What validation accepts. */
    predicate Accepted()
      reads this
    {
      && 0 <= gasBufferPercent <= 100
      && gasBumpPercent >= 10
      && pendingTimeoutBlocks >= 1
      && maxAttempts >= 1
      && retryDelay >= 0
      && maxFeePerGasGwei >= 1
    }

    predicate InRangeOrZero()
      reads this
    {
      && 0 <= gasBufferPercent <= 100
      && (gasBumpPercent == 0 || gasBumpPercent >= 10)
      && pendingTimeoutBlocks >= 0
      && maxAttempts >= 0
      && retryDelay >= 0
    }

    constructor (gasBufferPercent: i64, maxFeePerGasGwei: u64, pendingTimeoutBlocks: i64,
                 gasBumpPercent: i64, maxAttempts: i64, retryDelay: i64)
    {
      this.gasBufferPercent, this.maxFeePerGasGwei := gasBufferPercent, maxFeePerGasGwei;
      this.pendingTimeoutBlocks := pendingTimeoutBlocks;
      this.gasBumpPercent, this.maxAttempts, this.retryDelay := gasBumpPercent, maxAttempts, retryDelay;
    }

    /** Zero fields get their defaults and the rest stay, so that afterwards the policy is
        accepted exactly when no field was out of range to begin with. */
    method ApplyDefaults()
      modifies this
      ensures gasBufferPercent == if old(gasBufferPercent) == 0 then 20 else old(gasBufferPercent)
      ensures maxFeePerGasGwei == if old(maxFeePerGasGwei) == 0 then 420 else old(maxFeePerGasGwei)
      ensures pendingTimeoutBlocks == if old(pendingTimeoutBlocks) == 0 then 10 else old(pendingTimeoutBlocks)
      ensures gasBumpPercent == if old(gasBumpPercent) == 0 then 10 else old(gasBumpPercent)
      ensures maxAttempts == if old(maxAttempts) == 0 then 3 else old(maxAttempts)
      ensures retryDelay == if old(retryDelay) == 0 then 5_000_000_000 else old(retryDelay)
      ensures Accepted() <==> old(InRangeOrZero())
    {
      if gasBufferPercent == 0 { gasBufferPercent := DEFAULT_GAS_BUFFER_PERCENT; }
      if maxFeePerGasGwei == 0 { maxFeePerGasGwei := DEFAULT_MAX_FEE_PER_GAS_GWEI; }
      if pendingTimeoutBlocks == 0 { pendingTimeoutBlocks := DEFAULT_PENDING_TIMEOUT_BLOCKS; }
      if gasBumpPercent == 0 { gasBumpPercent := DEFAULT_GAS_BUMP_PERCENT; }
      if maxAttempts == 0 { maxAttempts := DEFAULT_MAX_ATTEMPTS; }
      if retryDelay == 0 { retryDelay := DEFAULT_RETRY_DELAY; }
    }

    method Validate() returns (ok: bool)
      ensures ok <==> Accepted()
      ensures ok <==>
        && 0 <= gasBufferPercent <= 100 && gasBumpPercent >= 10 && pendingTimeoutBlocks >= 1
        && maxAttempts >= 1 && retryDelay >= 0 && maxFeePerGasGwei > 0
    {
      if gasBufferPercent < 0 || gasBufferPercent > 100 { return false; }
      if gasBumpPercent < 10 { return false; }
      if pendingTimeoutBlocks < 1 { return false; }
      if maxAttempts < 1 { return false; }
      if retryDelay < 0 { return false; }
      if maxFeePerGasGwei < 1 { return false; }
      ok := true;
    }

    function MaxFeePerGasWei(): nat
      reads this
    {
      maxFeePerGasGwei * GWEI
    }
  }

  // ----- Fee arithmetic -----

  function ApplyBumpPercent(value: int, bump: i64): int {
    value * Wrap64(PERCENT_BASE + bump) / 100
  }

  /** Adding 100 to the bump percentage does not wrap around 64 bits. */
  predicate BumpFits(bump: i64) {
    PERCENT_BASE + bump < I63
  }

  /** Between the smallest tip and the cap, the tip never above the fee cap. */
  predicate FeesOk(tip: int, feeCap: int, maxFee: int) {
    MIN_TIP_CAP <= tip <= feeCap <= maxFee
  }

  /** An acceptable bump raises every fee from 1 gwei up by at least a tenth, rounded down,
      exactly when adding 100 to it does not wrap around 64 bits. */
  lemma BumpRisesExactly(bump: i64)
    requires bump >= 10
    ensures (forall value: int | value >= MIN_TIP_CAP :: ApplyBumpPercent(value, bump) >= value + value / 10)
      <==> BumpFits(bump)
  {
    if BumpFits(bump) {
      forall value: int | value >= MIN_TIP_CAP ensures ApplyBumpPercent(value, bump) >= value + value / 10 {
        BumpRises(value, bump);
      }
    } else {
      BumpOverflows(MIN_TIP_CAP, bump);
    }
  }

  /** Then the bumped fee is the fee and its bump percentage together, rounded down. */
  lemma BumpExactly(value: nat, bump: i64)
    requires bump >= 10 && BumpFits(bump)
    ensures 100 * ApplyBumpPercent(value, bump) <= value * (100 + bump) < 100 * ApplyBumpPercent(value, bump) + 100
  {
  }

  lemma BumpOverflows(value: int, bump: i64)
    requires value >= MIN_TIP_CAP && bump >= 10 && !BumpFits(bump)
    ensures ApplyBumpPercent(value, bump) < 0
  {
    var f := Wrap64(PERCENT_BASE + bump);
    assert f == PERCENT_BASE + bump - 2 * I63 < 0;
    MulLeft(value, f, -1);
    assert value * f <= -value;
  }

  lemma BumpRises(value: int, bump: i64)
    requires value >= MIN_TIP_CAP && bump >= 10 && BumpFits(bump)
    ensures ApplyBumpPercent(value, bump) >= value + value / 10
  {
    assert value * (100 + bump) >= value * 110 by { MulLeft(value, 110, 100 + bump); }
  }

  lemma MulLeft(x: nat, a: int, b: int)
    requires a <= b
    ensures x * a <= x * b
  {
  }

  lemma BumpMonotone(v: nat, w: nat, bump: i64)
    requires v <= w && bump >= 10 && BumpFits(bump)
    ensures ApplyBumpPercent(v, bump) <= ApplyBumpPercent(w, bump)
  {
    MulLeft(100 + bump, v, w);
    assert v * (100 + bump) <= w * (100 + bump);
  }

  predicate RisesFrom(before: int, after: int, bump: i64) {
    after >= ApplyBumpPercent(before, bump)
  }

  /** x is the lower of a and b. */
  predicate IsLower(x: int, a: int, b: int) {
    x <= a && x <= b && (x == a || x == b)
  }

  predicate IsHigher(x: int, a: int, b: int) {
    x >= a && x >= b && (x == a || x == b)
  }

  function CancelFee(feeCap: int, bump: i64, maxFee: int): int {
    if ApplyBumpPercent(feeCap, bump) > maxFee then maxFee else ApplyBumpPercent(feeCap, bump)
  }

  /** The cancel fee lies between the last fee cap and the maximum exactly when the bump does
      not overflow, and then it is a full replacement exactly when the bump stays under the
      maximum. */
  lemma CancelReplacesExactly(feeCap: int, bump: i64, maxFee: int)
    requires MIN_TIP_CAP <= feeCap <= maxFee && bump >= 10
    ensures feeCap <= CancelFee(feeCap, bump, maxFee) <= maxFee <==> BumpFits(bump)
    ensures IsLower(CancelFee(feeCap, bump, maxFee), ApplyBumpPercent(feeCap, bump), maxFee)
    ensures BumpFits(bump) ==>
      (RisesFrom(feeCap, CancelFee(feeCap, bump, maxFee), bump) <==> ApplyBumpPercent(feeCap, bump) <= maxFee)
  {
    hide ApplyBumpPercent;
    if BumpFits(bump) { BumpRises(feeCap, bump); } else { BumpOverflows(feeCap, bump); }
  }

  // ----- Fees from what the node says -----

  /** The node's answers to the two requests for fees: for a tip, and, if that went well, for
      the latest block's base fee. */
  datatype Quote = NoTip | NoHeader(tip: nat) | Quoted(tip: nat, baseFee: nat)

  datatype Suggestion = Fees(tip: int, feeCap: int) | BaseFeeTooHigh | Unavailable

  function Max(a: int, b: int): int { if a >= b then a else b }

  function Min(a: int, b: int): int { if a <= b then a else b }

  /** The fees to suggest for a quote: the tip at least 1 gwei, the fee cap twice the base fee
      and the tip, both at most the maximum. */
  function SuggestionOf(q: Quote, maxFee: int): Suggestion {
    if !q.Quoted? then Unavailable
    else if q.baseFee > maxFee then BaseFeeTooHigh
    else
      var feeCap := Min(2 * q.baseFee + Max(q.tip, MIN_TIP_CAP), maxFee);
      Fees(Min(Max(q.tip, MIN_TIP_CAP), feeCap), feeCap)
  }

  /** There are fees exactly if both answers came and the base fee is not above the maximum.
      They are within bounds and cover the base fee; the tip wanted is the higher of the one
      reported and 1 gwei, the fee cap the lower of twice the base fee with that tip and the
      maximum, and the tip the lower of the one wanted and the fee cap. */
  lemma SuggestionExactly(q: Quote, maxFee: int)
    requires maxFee >= MIN_TIP_CAP
    ensures SuggestionOf(q, maxFee).Fees? <==> q.Quoted? && q.baseFee <= maxFee
    ensures SuggestionOf(q, maxFee).BaseFeeTooHigh? <==> q.Quoted? && q.baseFee > maxFee
    ensures var s := SuggestionOf(q, maxFee); s.Fees? ==>
      && FeesOk(s.tip, s.feeCap, maxFee) && s.feeCap >= q.baseFee
      && exists wanted :: IsHigher(wanted, q.tip, 1_000_000_000)
           && IsLower(s.feeCap, 2 * q.baseFee + wanted, maxFee) && IsLower(s.tip, wanted, s.feeCap)
  {
    if q.Quoted? { assert IsHigher(Max(q.tip, MIN_TIP_CAP), q.tip, 1_000_000_000); }
  }

  /** What a policy allows. */
  datatype Limits = Limits(bump: i64, maxFee: nat, maxAttempts: int)

  predicate LimitsOk(l: Limits) {
    l.bump >= 10 && l.maxFee >= MIN_TIP_CAP && l.maxAttempts >= 1
  }

  /** Fees are asked for again exactly if the bumped fee cap does not exceed the maximum. */
  predicate AsksAgain(feeCap: int, q: Option<Quote>, l: Limits) {
    q.Some? <==> ApplyBumpPercent(feeCap, l.bump) <= l.maxFee
  }

  /** The fees that replace others: of the bumped and the suggested ones the higher each, the
      bumped ones if none are suggested, and none at all if the maximum is in the way. */
  function Raised(tip: int, feeCap: int, q: Option<Quote>, l: Limits): Option<(int, int)> {
    if q.None? then None
    else match SuggestionOf(q.value, l.maxFee)
      case BaseFeeTooHigh => None
      case Unavailable => Some((ApplyBumpPercent(tip, l.bump), ApplyBumpPercent(feeCap, l.bump)))
      case Fees(newTip, newFeeCap) =>
        Some((Max(ApplyBumpPercent(tip, l.bump), newTip), Max(ApplyBumpPercent(feeCap, l.bump), newFeeCap)))
  }

  /** What replaces fees after a quote: if fees are suggested, of tip and fee cap each the higher
      of the bumped and the suggested one; without a tip or a header just the bumped ones. */
  predicate IsRaise(tip: int, feeCap: int, q: Quote, newTip: int, newFeeCap: int, l: Limits) {
    match SuggestionOf(q, l.maxFee)
    case BaseFeeTooHigh => false
    case Unavailable =>
      newTip == ApplyBumpPercent(tip, l.bump) && newFeeCap == ApplyBumpPercent(feeCap, l.bump)
    case Fees(t, f) =>
      && IsHigher(newTip, ApplyBumpPercent(tip, l.bump), t)
      && IsHigher(newFeeCap, ApplyBumpPercent(feeCap, l.bump), f)
  }

  lemma RaisedExactly(tip: int, feeCap: int, q: Option<Quote>, l: Limits)
    ensures Raised(tip, feeCap, q, l).None? <==> q.None? || (q.value.Quoted? && q.value.baseFee > l.maxFee)
    ensures forall newTip, newFeeCap :: Raised(tip, feeCap, q, l) == Some((newTip, newFeeCap)) <==>
      q.Some? && IsRaise(tip, feeCap, q.value, newTip, newFeeCap, l)
  {
    hide ApplyBumpPercent;
  }

  /** Replacing fees stay within bounds and rise, by the bump at least, unless it overflows. */
  lemma RaisedInBounds(tip: int, feeCap: int, q: Option<Quote>, l: Limits)
    requires LimitsOk(l) && BumpFits(l.bump) && FeesOk(tip, feeCap, l.maxFee)
    requires AsksAgain(feeCap, q, l) && Raised(tip, feeCap, q, l).Some?
    ensures var r := Raised(tip, feeCap, q, l).value;
      && FeesOk(r.0, r.1, l.maxFee) && tip < r.0 && feeCap < r.1
      && RisesFrom(tip, r.0, l.bump) && RisesFrom(feeCap, r.1, l.bump)
  {
    BumpRises(tip, l.bump);
    BumpRises(feeCap, l.bump);
    BumpMonotone(tip, feeCap, l.bump);
    SuggestionExactly(q.value, l.maxFee);
    hide ApplyBumpPercent, SuggestionOf;
  }

  // ----- The chain the transactions go to -----

  datatype Transaction = Transaction(nonce: nat, tip: int, feeCap: int, cancels: bool)

  datatype Receipt = Receipt(tx: Transaction, successful: bool)

  ghost predicate OnePerNonce(mined: map<Transaction, bool>) {
    forall t, u | t in mined && u in mined && t.nonce == u.nonce :: t == u
  }

  /** How the node took a transaction. */
  datatype SendReply = Accepted | AlreadyKnown | NonceTooLow | InsufficientFunds | Underpriced | OtherError

  /** A request to the node and its answer. */
  datatype NodeCall =
    | AskFees(quote: Quote)
    | SendTx(tx: Transaction, reply: SendReply)
    | AskReceipt(tx: Transaction, answer: Option<Receipt>)

  predicate InChain(receipt: Receipt, mined: map<Transaction, bool>) {
    receipt.tx in mined && mined[receipt.tx] == receipt.successful
  }

  /** A node: the transactions of the account mined so far, with their success, and what it
      was asked. */
  class Node {
    var mined: map<Transaction, bool>
    ghost var log: seq<NodeCall>

    /** A nonce is used once, and every receipt given out is of a transaction in the chain. */
    ghost predicate Valid()
      reads this
    {
      && OnePerNonce(mined)
      && forall c | c in log && c.AskReceipt? && c.answer.Some? :: InChain(c.answer.value, mined)
    }

    constructor ()
      ensures Valid() && mined == map[] && log == []
    {
      mined, log := map[], [];
    }

    method QuoteFees() returns (q: Quote)
      requires Valid()
      modifies this`log
      ensures Valid() && log == old(log) + [AskFees(q)]
    {
      q := *;
      log := log + [AskFees(q)];
    }

    method Send(tx: Transaction) returns (reply: SendReply)
      requires Valid()
      modifies this`log
      ensures Valid() && log == old(log) + [SendTx(tx, reply)]
    {
      reply := *;
      log := log + [SendTx(tx, reply)];
    }

    /** Blocks pass: any transaction with an unused nonce may be mined. */
    method Advance()
      requires Valid()
      modifies this`mined
      ensures Valid()
    {
      var tx: Transaction, ok: bool := *, *;
      var happens: bool := *;
      if happens && forall t | t in mined :: t.nonce != tx.nonce {
        mined := mined[tx := ok];
      }
    }

    method TransactionReceipt(tx: Transaction) returns (r: Option<Receipt>)
      requires Valid()
      modifies this
      ensures Valid() && log == old(log) + [AskReceipt(tx, r)]
      ensures r.Some? ==> r.value.tx == tx
    {
      Advance();
      var found: bool := *;
      r := if found && tx in mined then Some(Receipt(tx, mined[tx])) else None;
      log := log + [AskReceipt(tx, r)];
    }
  }

  // ----- One call and its attempts -----

  /** How polling for its receipt ended. */
  datatype Wait = NotWaited | Confirmed(receipt: Receipt) | TimedOut | Cancelled

  datatype Error =
    | EstimateFailed | FeesUnavailable | NonceUnavailable | SignFailed | NonceTooLowError | InsufficientFundsError
    | SendFailed | ContextDone | MaxGasReached | MaxAttemptsExhausted | RevertError

  /** A payload transaction sent, with the quote its fees were set by if one was asked for. */
  datatype Attempt = Attempt(quote: Option<Quote>, tx: Transaction, reply: SendReply, wait: Wait)

  datatype Cancel = NotTried | Unsigned | Sent(tx: Transaction, reply: SendReply, wait: Wait)

  /** What follows the last attempt: a quote that led to no further one, the answers of a
      search for a receipt, a cancel. */
  datatype Tail = Tail(quote: Option<Quote>, search: seq<Option<Receipt>>, cancel: Cancel)

  /** What one call did. */
  datatype Trace = Trace(attempts: seq<Attempt>, tail: Tail)

  function Payload(nonce: nat, tip: int, feeCap: int): Transaction {
    Transaction(nonce, tip, feeCap, false)
  }

  predicate Taken(reply: SendReply) {
    reply.Accepted? || reply.AlreadyKnown?
  }

  /** The payload transactions a node took, in order. */
  function Published(attempts: seq<Attempt>): seq<Transaction> {
    if attempts == [] then []
    else
      var n := |attempts| - 1;
      Published(attempts[..n]) + if Taken(attempts[n].reply) then [attempts[n].tx] else []
  }

  // ----- The requests of a call -----

  function QuoteCalls(q: Option<Quote>): seq<NodeCall> {
    if q.Some? then [AskFees(q.value)] else []
  }

  function WaitCalls(tx: Transaction, wait: Wait): seq<NodeCall> {
    match wait
    case Confirmed(receipt) => [AskReceipt(tx, Some(receipt))]
    case TimedOut => [AskReceipt(tx, None)]
    case _ => []
  }

  function AttemptsCalls(attempts: seq<Attempt>): seq<NodeCall> {
    if attempts == [] then []
    else
      var n := |attempts| - 1;
      AttemptsCalls(attempts[..n]) + QuoteCalls(attempts[n].quote)
      + [SendTx(attempts[n].tx, attempts[n].reply)] + WaitCalls(attempts[n].tx, attempts[n].wait)
  }

  function SearchCalls(txs: seq<Transaction>, search: seq<Option<Receipt>>): seq<NodeCall> {
    if search == [] || |search| > |txs| then []
    else SearchCalls(txs, search[..|search|-1]) + [AskReceipt(txs[|search|-1], search[|search|-1])]
  }

  function CancelCalls(c: Cancel): seq<NodeCall> {
    if c.Sent? then [SendTx(c.tx, c.reply)] + WaitCalls(c.tx, c.wait) else []
  }

  function TailCalls(published: seq<Transaction>, tail: Tail): seq<NodeCall> {
    QuoteCalls(tail.quote) + SearchCalls(published, tail.search) + CancelCalls(tail.cancel)
  }

  /** Every request of a call to the node, in order. */
  function CallsOf(t: Trace): seq<NodeCall> {
    AttemptsCalls(t.attempts) + TailCalls(Published(t.attempts), t.tail)
  }

  // ----- What a call may do -----

  predicate Raises(a: Attempt) {
    a.reply.Underpriced? || a.wait.TimedOut?
  }

  /** The fees of the attempt after some others: suggested for the first; raised after one that
      was underpriced or timed out; the same if sending failed for a reason of its own; nothing
      follows any other end. */
  predicate Leads(attempts: seq<Attempt>, q: Option<Quote>, tip: int, feeCap: int, l: Limits) {
    if attempts == [] then q.Some? && SuggestionOf(q.value, l.maxFee) == Fees(tip, feeCap)
    else
      var a := attempts[|attempts|-1];
      if Raises(a) then AsksAgain(a.tx.feeCap, q, l) && Raised(a.tx.tip, a.tx.feeCap, q, l) == Some((tip, feeCap))
      else a.reply.OtherError? && q.None? && tip == a.tx.tip && feeCap == a.tx.feeCap
  }

  /** One nonce; a wait exactly if the node took the transaction; a receipt that is its own. */
  predicate AttemptOk(a: Attempt, nonce: nat) {
    && a.tx == Payload(nonce, a.tx.tip, a.tx.feeCap)
    && (Taken(a.reply) <==> !a.wait.NotWaited?)
    && (a.wait.Confirmed? ==> a.wait.receipt.tx == a.tx)
  }

  predicate AttemptsOk(attempts: seq<Attempt>, nonce: nat, l: Limits) {
    attempts != [] ==>
      var n := |attempts| - 1; var a := attempts[n];
      && AttemptsOk(attempts[..n], nonce, l) && AttemptOk(a, nonce)
      && Leads(attempts[..n], a.quote, a.tx.tip, a.tx.feeCap, l)
  }

  /** The transactions are asked for in order up to the first that has a receipt. */
  predicate Searched(search: seq<Option<Receipt>>, txs: seq<Transaction>, found: Option<Receipt>) {
    && |search| <= |txs|
    && if found.None? then |search| == |txs| && forall i | 0 <= i < |search| :: search[i].None?
       else
         var n := |search| - 1;
         n >= 0 && search[n] == found && found.value.tx == txs[n] && forall i | 0 <= i < n :: search[i].None?
  }

  function HandleReceipt(receipt: Receipt): Option<Error> {
    if receipt.successful then None else Some(RevertError)
  }

  /** The result after the last attempt called for new fees: none could be set, or no attempt
      is left for them, or the next transaction could not be signed. */
  predicate RaiseFits(a: Attempt, tail: Tail, err: Option<Error>, final: bool, l: Limits) {
    && tail.search == [] && AsksAgain(a.tx.feeCap, tail.quote, l)
    && err == Some(if Raised(a.tx.tip, a.tx.feeCap, tail.quote, l).None? then MaxGasReached
                   else if final then MaxAttemptsExhausted else SignFailed)
  }

  /** The result of a call by its last attempt and what followed. */
  predicate LastFits(attempts: seq<Attempt>, tail: Tail, receipt: Option<Receipt>, err: Option<Error>, l: Limits)
    requires attempts != []
  {
    var a, final := attempts[|attempts|-1], |attempts| == l.maxAttempts;
    var plain := tail.quote.None? && tail.search == [];
    match a.reply
    case NonceTooLow =>
      && tail.quote.None? && Searched(tail.search, Published(attempts), receipt)
      && err == if receipt.Some? then HandleReceipt(receipt.value) else Some(NonceTooLowError)
    case InsufficientFunds => plain && receipt.None? && err == Some(InsufficientFundsError)
    case Underpriced => receipt.None? && RaiseFits(a, tail, err, final, l)
    case OtherError =>
      plain && receipt.None?
      && if final then err == Some(SendFailed) else err == Some(ContextDone) || err == Some(SignFailed)
    case _ =>
      match a.wait
      case Confirmed(r) => plain && receipt == Some(r) && err == HandleReceipt(r)
      case TimedOut =>
        receipt.None? && if final then plain && err == Some(MaxAttemptsExhausted) else RaiseFits(a, tail, err, final, l)
      case _ => plain && receipt.None? && err == Some(ContextDone)
  }

  /** The result of a call that sent nothing. */
  predicate NothingFits(q: Option<Quote>, err: Option<Error>, l: Limits) {
    match err
    case Some(EstimateFailed) => q.None?
    case Some(FeesUnavailable) => q.Some? && !SuggestionOf(q.value, l.maxFee).Fees?
    case Some(NonceUnavailable) => q.Some? && SuggestionOf(q.value, l.maxFee).Fees?
    case Some(SignFailed) => q.Some? && SuggestionOf(q.value, l.maxFee).Fees?
    case _ => false
  }

  predicate Fits(t: Trace, receipt: Option<Receipt>, err: Option<Error>, l: Limits) {
    if t.attempts == [] then receipt.None? && t.tail.search == [] && NothingFits(t.tail.quote, err, l)
    else LastFits(t.attempts, t.tail, receipt, err, l)
  }

  /** The fee cap current at the end. */
  function LastFeeCap(attempts: seq<Attempt>, q: Option<Quote>, l: Limits): int
    requires attempts != []
  {
    var a := attempts[|attempts|-1];
    if Raised(a.tx.tip, a.tx.feeCap, q, l).Some? then Raised(a.tx.tip, a.tx.feeCap, q, l).value.1 else a.tx.feeCap
  }

  /** A zero transfer with the same nonce at the capped bump of a fee. */
  predicate IsCancel(c: Cancel, nonce: nat, feeCap: int, l: Limits) {
    c.Sent? ==>
      && c.tx == Transaction(nonce, CancelFee(feeCap, l.bump, l.maxFee), CancelFee(feeCap, l.bump, l.maxFee), true)
      && (c.reply.Accepted? <==> !c.wait.NotWaited?)
  }

  predicate GivesUp(err: Option<Error>) {
    err == Some(MaxGasReached) || err == Some(MaxAttemptsExhausted)
  }

  /** A cancel is tried exactly by the calls that give up on fees or on attempts. */
  predicate CancelFits(t: Trace, nonce: nat, err: Option<Error>, l: Limits) {
    && (GivesUp(err) <==> !t.tail.cancel.NotTried?)
    && (GivesUp(err) ==>
          t.attempts != [] && IsCancel(t.tail.cancel, nonce, LastFeeCap(t.attempts, t.tail.quote, l), l))
  }

  /** Everything a call does and what it returns, given the node's answers. */
  predicate IsOutcome(t: Trace, nonce: nat, receipt: Option<Receipt>, err: Option<Error>, l: Limits) {
    && AttemptsOk(t.attempts, nonce, l) && |t.attempts| <= l.maxAttempts
    && Fits(t, receipt, err, l) && CancelFits(t, nonce, err, l)
  }

  // ----- What follows for a call -----

  function AllSent(t: Trace): set<Transaction> {
    (set a | a in t.attempts :: a.tx) + if t.tail.cancel.Sent? then {t.tail.cancel.tx} else {}
  }

  lemma {:induction false} SameNonce(attempts: seq<Attempt>, nonce: nat, l: Limits, a: Attempt)
    requires AttemptsOk(attempts, nonce, l) && a in attempts
    ensures AttemptOk(a, nonce)
  {
    var n := |attempts| - 1;
    if a != attempts[n] {
      assert attempts == attempts[..n] + [attempts[n]];
      SameNonce(attempts[..n], nonce, l, a);
    }
  }

  /** Published are exactly the transactions of attempts the node accepted or knew already. */
  lemma {:induction false} PublishedExactly(attempts: seq<Attempt>, tx: Transaction)
    ensures tx in Published(attempts) <==>
      exists a :: a in attempts && a.tx == tx && (a.reply.Accepted? || a.reply.AlreadyKnown?)
  {
    if attempts != [] {
      var n := |attempts| - 1;
      PublishedExactly(attempts[..n], tx);
      assert attempts == attempts[..n] + [attempts[n]];
    }
  }

  /** How the fees of an attempt come about: those suggested for its quote if it is the first;
      after one that was underpriced or timed out, those that replace its fees, which needs its
      bumped fee cap to be within the maximum; the same again after another error of sending. */
  lemma FeesExactly(attempts: seq<Attempt>, nonce: nat, l: Limits, i: nat)
    requires AttemptsOk(attempts, nonce, l) && i < |attempts|
    ensures var a := attempts[i];
      if i == 0 then a.quote.Some? && SuggestionOf(a.quote.value, l.maxFee) == Fees(a.tx.tip, a.tx.feeCap)
      else
        var b := attempts[i-1];
        if b.reply.Underpriced? || b.wait.TimedOut? then
          && ApplyBumpPercent(b.tx.feeCap, l.bump) <= l.maxFee && a.quote.Some?
          && IsRaise(b.tx.tip, b.tx.feeCap, a.quote.value, a.tx.tip, a.tx.feeCap, l)
        else b.reply.OtherError? && a.quote.None? && a.tx.tip == b.tx.tip && a.tx.feeCap == b.tx.feeCap
  {
    AttemptsPrefix(attempts, nonce, l, i);
    if i > 0 { RaisedExactly(attempts[i-1].tx.tip, attempts[i-1].tx.feeCap, attempts[i].quote, l); }
  }

  /** What each error says, the other way round: of the last attempt and what the node answered
      after it. */
  lemma OutcomeExactly(t: Trace, nonce: nat, receipt: Option<Receipt>, err: Option<Error>, l: Limits)
    requires IsOutcome(t, nonce, receipt, err, l) && t.attempts != []
    ensures var a, final := t.attempts[|t.attempts|-1], |t.attempts| == l.maxAttempts;
      var q, over := t.tail.quote, ApplyBumpPercent(a.tx.feeCap, l.bump) > l.maxFee;
      && (err.None? <==> receipt.Some? && receipt.value.successful)
      && (err == Some(RevertError) <==> receipt.Some? && !receipt.value.successful)
      && (err == Some(NonceTooLowError) <==> a.reply.NonceTooLow? && receipt.None?)
      && (err == Some(InsufficientFundsError) <==> a.reply.InsufficientFunds?)
      && (err == Some(SendFailed) <==> a.reply.OtherError? && final)
      && (err == Some(MaxGasReached) <==>
            && (a.reply.Underpriced? || (a.wait.TimedOut? && !final))
            && (over || (q.Some? && q.value.Quoted? && q.value.baseFee > l.maxFee)))
      && (err == Some(MaxAttemptsExhausted) <==>
            && final && (a.wait.TimedOut? || a.reply.Underpriced?)
            && (a.reply.Underpriced? ==> !over && !(q.value.Quoted? && q.value.baseFee > l.maxFee)))
      && (err == Some(ContextDone) ==> a.wait.Cancelled? || (a.reply.OtherError? && !final))
      && (a.wait.Cancelled? ==> err == Some(ContextDone))
      && (a.wait.Confirmed? ==> receipt == Some(a.wait.receipt))
      && (err == Some(SignFailed) ==> !final && (a.reply.Underpriced? || a.reply.OtherError? || a.wait.TimedOut?))
      && (!t.tail.cancel.NotTried? <==> err == Some(MaxGasReached) || err == Some(MaxAttemptsExhausted))
  {
    var a := t.attempts[|t.attempts|-1];
    RaisedExactly(a.tx.tip, a.tx.feeCap, t.tail.quote, l);
    hide ApplyBumpPercent, SuggestionOf, Raised, IsRaise, IsCancel, LastFeeCap, Published, Leads;
    SearchedGives(t.tail.search, Published(t.attempts), receipt);
  }

  /** The results of a call that sent nothing, told by the quote. */
  lemma NothingSentExactly(t: Trace, nonce: nat, receipt: Option<Receipt>, err: Option<Error>, l: Limits)
    requires IsOutcome(t, nonce, receipt, err, l) && t.attempts == []
    ensures receipt.None? && t.tail.cancel.NotTried? && t.tail.search == []
    ensures err == Some(EstimateFailed) <==> t.tail.quote.None?
    ensures err == Some(FeesUnavailable) <==>
      t.tail.quote.Some? && !(t.tail.quote.value.Quoted? && t.tail.quote.value.baseFee <= l.maxFee)
    ensures err in {Some(EstimateFailed), Some(FeesUnavailable), Some(NonceUnavailable), Some(SignFailed)}
  {
  }

  /** If none is found, every transaction was asked for and had no receipt; one found was given. */
  lemma {:induction false} SearchedAll(search: seq<Option<Receipt>>, txs: seq<Transaction>, found: Option<Receipt>)
    requires Searched(search, txs, found)
    ensures found.None? ==> forall tx | tx in txs :: AskReceipt(tx, None) in SearchCalls(txs, search)
    ensures found.Some? ==> AskReceipt(found.value.tx, found) in SearchCalls(txs, search)
  {
    forall i | 0 <= i < |search| ensures AskReceipt(txs[i], search[i]) in SearchCalls(txs, search) {
      SearchCallAt(txs, search, i);
    }
  }

  lemma {:induction false} SearchCallAt(txs: seq<Transaction>, search: seq<Option<Receipt>>, i: nat)
    requires i < |search| <= |txs|
    ensures AskReceipt(txs[i], search[i]) in SearchCalls(txs, search)
  {
    if i < |search| - 1 { SearchCallAt(txs, search[..|search|-1], i); }
  }

  lemma SearchedGives(search: seq<Option<Receipt>>, txs: seq<Transaction>, found: Option<Receipt>)
    ensures Searched(search, txs, found) && found.Some? ==> found.value.tx in txs
  {
  }

  /** Of all the transactions of a call, payload and cancel together, at most one is mined. */
  lemma AtMostOneMined(t: Trace, nonce: nat, receipt: Option<Receipt>, err: Option<Error>, l: Limits,
                       mined: map<Transaction, bool>)
    requires IsOutcome(t, nonce, receipt, err, l) && OnePerNonce(mined)
    ensures forall x, y | x in AllSent(t) && y in AllSent(t) && x in mined && y in mined :: x == y
  {
    hide AttemptsOk, AttemptOk, Fits, CancelFee, LastFeeCap;
    forall x | x in AllSent(t) ensures x.nonce == nonce {
      if a :| a in t.attempts && a.tx == x {
        SameNonce(t.attempts, nonce, l, a);
        OwnNonce(a, nonce);
      }
    }
  }

  lemma OwnNonce(a: Attempt, nonce: nat)
    requires AttemptOk(a, nonce)
    ensures a.tx.nonce == nonce && !a.tx.cancels
  {
  }

  /** A receipt returned was given by the node, for a payload transaction that it took. */
  lemma ReceiptWasGiven(t: Trace, nonce: nat, receipt: Receipt, err: Option<Error>, l: Limits)
    requires IsOutcome(t, nonce, Some(receipt), err, l)
    ensures AskReceipt(receipt.tx, Some(receipt)) in CallsOf(t) && receipt.tx in Published(t.attempts)
  {
    hide CancelFits, Raised, AsksAgain, Leads;
    var n, txs := |t.tail.search| - 1, Published(t.attempts);
    if t.attempts[|t.attempts|-1].reply.NonceTooLow? {
      var calls := SearchCalls(txs, t.tail.search);
      assert calls[|calls|-1] == AskReceipt(txs[n], t.tail.search[n]);
    } else {
      assert AskReceipt(receipt.tx, Some(receipt)) in AttemptsCalls(t.attempts);
    }
  }

  /** A call that returns no error carries the successful receipt of a payload transaction
      that the node took, tried no cancel, and nothing else it sent is mined. */
  lemma NoErrorMeansDone(t: Trace, nonce: nat, receipt: Option<Receipt>, l: Limits, mined: map<Transaction, bool>)
    requires IsOutcome(t, nonce, receipt, None, l) && OnePerNonce(mined)
    requires receipt.Some? ==> receipt.value.tx in mined
    ensures receipt.Some? && receipt.value.successful && t.tail.cancel.NotTried?
    ensures receipt.value.tx in Published(t.attempts) && !receipt.value.tx.cancels
    ensures forall x | x in AllSent(t) && x in mined :: x == receipt.value.tx
  {
    NoErrorHasReceipt(t, nonce, receipt, l);
    hide IsOutcome, AttemptsOk, AttemptOk;
    ReceiptWasGiven(t, nonce, receipt.value, None, l);
    PublishedExactly(t.attempts, receipt.value.tx);
    var a :| a in t.attempts && a.tx == receipt.value.tx;
    SameNonce(t.attempts, nonce, l, a);
    OwnNonce(a, nonce);
    AtMostOneMined(t, nonce, receipt, None, l, mined);
  }

  lemma NoErrorHasReceipt(t: Trace, nonce: nat, receipt: Option<Receipt>, l: Limits)
    requires IsOutcome(t, nonce, receipt, None, l)
    ensures receipt.Some? && receipt.value.successful && t.tail.cancel.NotTried? && AttemptsOk(t.attempts, nonce, l)
  {
    hide AttemptsOk, Raised, AsksAgain, Searched, SuggestionOf, IsCancel;
  }

  // ----- What follows for the fees -----

  lemma {:induction false} FeesStayInBounds(attempts: seq<Attempt>, nonce: nat, l: Limits)
    requires LimitsOk(l) && BumpFits(l.bump) && AttemptsOk(attempts, nonce, l)
    ensures forall a | a in attempts :: FeesOk(a.tx.tip, a.tx.feeCap, l.maxFee)
  {
    if attempts != [] {
      var n := |attempts| - 1;
      FeesStayInBounds(attempts[..n], nonce, l);
      LeadsInBounds(attempts[..n], attempts[n].quote, attempts[n].tx.tip, attempts[n].tx.feeCap, l);
      assert attempts == attempts[..n] + [attempts[n]];
    }
  }

  lemma LeadsInBounds(attempts: seq<Attempt>, q: Option<Quote>, tip: int, feeCap: int, l: Limits)
    requires LimitsOk(l) && BumpFits(l.bump) && Leads(attempts, q, tip, feeCap, l)
    requires forall a | a in attempts :: FeesOk(a.tx.tip, a.tx.feeCap, l.maxFee)
    ensures FeesOk(tip, feeCap, l.maxFee)
    ensures attempts != [] && Raises(attempts[|attempts|-1]) ==>
      var tx := attempts[|attempts|-1].tx;
      tip > tx.tip && feeCap > tx.feeCap && RisesFrom(tx.tip, tip, l.bump) && RisesFrom(tx.feeCap, feeCap, l.bump)
  {
    if attempts == [] {
      SuggestionExactly(q.value, l.maxFee);
    } else if Raises(attempts[|attempts|-1]) {
      var tx := attempts[|attempts|-1].tx;
      assert attempts[|attempts|-1] in attempts;
      RaisedInBounds(tx.tip, tx.feeCap, q, l);
    }
  }

  /** Attempts all of whose fees are within bounds, and each of which has both fees strictly
      above those of an attempt before it that was underpriced or timed out. */
  ghost predicate FeesBehave(attempts: seq<Attempt>, l: Limits) {
    && (forall a | a in attempts :: FeesOk(a.tx.tip, a.tx.feeCap, l.maxFee))
    && forall i | 0 < i < |attempts| && Raises(attempts[i-1]) ::
         attempts[i-1].tx.tip < attempts[i].tx.tip && attempts[i-1].tx.feeCap < attempts[i].tx.feeCap
  }

  /** Whatever the node quotes and however it replies, the fees of all calls behave, exactly
      when the bump does not overflow: if it does, fees turn negative once no quote comes. */
  lemma FeesBehaveExactly(nonce: nat, l: Limits)
    requires LimitsOk(l)
    ensures (forall attempts: seq<Attempt> | AttemptsOk(attempts, nonce, l) :: FeesBehave(attempts, l))
      <==> BumpFits(l.bump)
  {
    if BumpFits(l.bump) {
      forall attempts: seq<Attempt> | AttemptsOk(attempts, nonce, l) ensures FeesBehave(attempts, l) {
        FeesStayInBounds(attempts, nonce, l);
        forall i | 0 < i < |attempts| && Raises(attempts[i-1])
          ensures attempts[i-1].tx.tip < attempts[i].tx.tip && attempts[i-1].tx.feeCap < attempts[i].tx.feeCap {
          AttemptsPrefix(attempts, nonce, l, i);
          LeadsInBounds(attempts[..i], attempts[i].quote, attempts[i].tx.tip, attempts[i].tx.feeCap, l);
        }
      }
    } else {
      var a, b := Lowest(nonce), ApplyBumpPercent(MIN_TIP_CAP, l.bump);
      var c := Attempt(Some(NoTip), Payload(nonce, b, b), Underpriced, NotWaited);
      BumpOverflows(MIN_TIP_CAP, l.bump);
      assert [a, c][..1] == [a] && [a][..0] == [];
      assert AttemptsOk([a, c], nonce, l);
      assert c in [a, c] && !FeesBehave([a, c], l);
    }
  }

  lemma {:induction false} AttemptsPrefix(attempts: seq<Attempt>, nonce: nat, l: Limits, i: nat)
    requires AttemptsOk(attempts, nonce, l) && i < |attempts|
    ensures Leads(attempts[..i], attempts[i].quote, attempts[i].tx.tip, attempts[i].tx.feeCap, l)
  {
    hide Leads;
    var n := |attempts| - 1;
    if i < n {
      AttemptsPrefix(attempts[..n], nonce, l, i);
      assert attempts[..n][..i] == attempts[..i];
    }
  }

  /** The cancel of a call lies between the last fee cap and the maximum, and is a full bump of
      it or the maximum, unless the bump overflows. */
  lemma CancelInBounds(t: Trace, nonce: nat, receipt: Option<Receipt>, err: Option<Error>, l: Limits)
    requires LimitsOk(l) && BumpFits(l.bump) && IsOutcome(t, nonce, receipt, err, l) && t.tail.cancel.Sent?
    ensures var feeCap, fee := t.attempts[|t.attempts|-1].tx.feeCap, t.tail.cancel.tx.feeCap;
      feeCap <= fee <= l.maxFee && (fee == l.maxFee || RisesFrom(feeCap, fee, l.bump))
  {
    hide SuggestionOf, Searched, FeesOk, ApplyBumpPercent;
    var a := t.attempts[|t.attempts|-1];
    FeesStayInBounds(t.attempts, nonce, l);
    assert a in t.attempts;
    CancelFromBounds(a.tx, t.tail.quote, l);
  }

  /** A cancel takes the nonce once more, for its tip as for its fee cap: the lower of the
      maximum and the bump of the fee cap at hand, which is that of the last attempt, or the one
      that was to replace it. */
  lemma CancelExactly(t: Trace, nonce: nat, receipt: Option<Receipt>, err: Option<Error>, l: Limits)
    returns (newTip: int, feeCap: int)
    requires IsOutcome(t, nonce, receipt, err, l) && t.tail.cancel.Sent?
    ensures t.attempts != []
    ensures var a, q := t.attempts[|t.attempts|-1].tx, t.tail.quote;
      if q.Some? && !(q.value.Quoted? && q.value.baseFee > l.maxFee) then
        IsRaise(a.tip, a.feeCap, q.value, newTip, feeCap, l)
      else feeCap == a.feeCap
    ensures var c := t.tail.cancel.tx;
      && c.nonce == nonce && c.cancels && c.tip == c.feeCap
      && IsLower(c.feeCap, ApplyBumpPercent(feeCap, l.bump), l.maxFee)
  {
    var a, q := t.attempts[|t.attempts|-1].tx, t.tail.quote;
    RaisedExactly(a.tip, a.feeCap, q, l);
    newTip, feeCap := 0, LastFeeCap(t.attempts, q, l);
    if Raised(a.tip, a.feeCap, q, l).Some? { newTip := Raised(a.tip, a.feeCap, q, l).value.0; }
    hide ApplyBumpPercent, SuggestionOf, IsRaise, AttemptsOk, Fits;
  }

  lemma CancelFromBounds(tx: Transaction, q: Option<Quote>, l: Limits)
    requires LimitsOk(l) && BumpFits(l.bump) && FeesOk(tx.tip, tx.feeCap, l.maxFee)
    requires AsksAgain(tx.feeCap, q, l) || q.None?
    ensures var r := Raised(tx.tip, tx.feeCap, q, l);
      var fee := CancelFee(if r.Some? then r.value.1 else tx.feeCap, l.bump, l.maxFee);
      tx.feeCap <= fee <= l.maxFee && (fee == l.maxFee || RisesFrom(tx.feeCap, fee, l.bump))
  {
    var r := Raised(tx.tip, tx.feeCap, q, l);
    if r.Some? { RaisedInBounds(tx.tip, tx.feeCap, q, l); }
    var feeCap := if r.Some? then r.value.1 else tx.feeCap;
    CancelReplacesExactly(feeCap, l.bump, l.maxFee);
    BumpMonotone(tx.feeCap, feeCap, l.bump);
  }

  /** How often the fees rose: attempts, but for the last, that were underpriced or timed out. */
  function Rises(attempts: seq<Attempt>): nat {
    if |attempts| <= 1 then 0
    else
      var n := |attempts| - 1;
      Rises(attempts[..n]) + if Raises(attempts[n-1]) then 1 else 0
  }

  lemma {:induction false} RisesAddUp(attempts: seq<Attempt>, nonce: nat, l: Limits)
    requires LimitsOk(l) && BumpFits(l.bump) && attempts != [] && AttemptsOk(attempts, nonce, l)
    ensures attempts[|attempts|-1].tx.feeCap >= MIN_TIP_CAP + Rises(attempts) * (GWEI / 10)
  {
    FeesStayInBounds(attempts, nonce, l);
    if |attempts| > 1 {
      var n := |attempts| - 1;
      RisesAddUp(attempts[..n], nonce, l);
      BumpRises(attempts[n-1].tx.feeCap, l.bump);
      hide ApplyBumpPercent, SuggestionOf;
    } else {
      assert attempts[0] in attempts;
    }
  }

  /** An attempt at the lowest fees, underpriced. */
  function Lowest(nonce: nat): Attempt {
    Attempt(Some(Quoted(0, 0)), Payload(nonce, MIN_TIP_CAP, MIN_TIP_CAP), Underpriced, NotWaited)
  }

  function Repeated(a: Attempt, n: nat): seq<Attempt> {
    if n == 0 then [] else Repeated(a, n - 1) + [a]
  }

  lemma {:induction false} RepeatedRises(n: nat, nonce: nat, l: Limits)
    requires LimitsOk(l) && !BumpFits(l.bump)
    ensures AttemptsOk(Repeated(Lowest(nonce), n), nonce, l) && |Repeated(Lowest(nonce), n)| == n
    ensures n > 0 ==> Repeated(Lowest(nonce), n)[n-1] == Lowest(nonce) && Rises(Repeated(Lowest(nonce), n)) == n - 1
  {
    if n > 0 {
      RepeatedRises(n - 1, nonce, l);
      assert Repeated(Lowest(nonce), n)[..n-1] == Repeated(Lowest(nonce), n - 1);
      BumpOverflows(MIN_TIP_CAP, l.bump);
    }
  }

  /** However many attempts are allowed, the fees rise at most ten times per gwei of the cap,
      exactly when the bump does not overflow: if it does, quotes that stay the same let them
      stand still for ever. */
  lemma RisesAreFewExactly(nonce: nat, l: Limits, maxGwei: nat)
    requires LimitsOk(l) && l.maxFee == maxGwei * GWEI
    ensures (forall attempts: seq<Attempt> | attempts != [] && AttemptsOk(attempts, nonce, l) ::
        Rises(attempts) <= 10 * (maxGwei - 1))
      <==> BumpFits(l.bump)
  {
    if BumpFits(l.bump) {
      forall attempts: seq<Attempt> | attempts != [] && AttemptsOk(attempts, nonce, l)
        ensures Rises(attempts) <= 10 * (maxGwei - 1) {
        RisesAddUp(attempts, nonce, l);
        FeesStayInBounds(attempts, nonce, l);
        assert attempts[|attempts|-1] in attempts;
      }
    } else {
      var n := 10 * (maxGwei - 1) + 2;
      RepeatedRises(n, nonce, l);
      assert Rises(Repeated(Lowest(nonce), n)) > 10 * (maxGwei - 1);
    }
  }

  // ----- The requests add up -----

  lemma AttemptLogged(log: seq<NodeCall>, attempts: seq<Attempt>, a: Attempt)
    ensures log + AttemptsCalls(attempts) + QuoteCalls(a.quote) + ([SendTx(a.tx, a.reply)] + WaitCalls(a.tx, a.wait))
      == log + AttemptsCalls(attempts + [a])
    ensures Published(attempts + [a]) == Published(attempts) + if Taken(a.reply) then [a.tx] else []
  {
    assert (attempts + [a])[..|attempts|] == attempts;
  }

  lemma TailLogged(log: seq<NodeCall>, t: Trace)
    ensures log + AttemptsCalls(t.attempts) + TailCalls(Published(t.attempts), t.tail) == log + CallsOf(t)
  {
    hide AttemptsCalls, TailCalls, Published;
  }

  lemma ReadyLogged(log: seq<NodeCall>, attempts: seq<Attempt>, q: Option<Quote>)
    ensures log + AttemptsCalls(attempts) + QuoteCalls(q) == log + CallsOf(Trace(attempts, Tail(q, [], NotTried)))
  {
  }

  lemma CancelLogged(log: seq<NodeCall>, attempts: seq<Attempt>, q: Option<Quote>, c: Cancel)
    ensures log + CallsOf(Trace(attempts, Tail(q, [], NotTried))) + CancelCalls(c)
      == log + CallsOf(Trace(attempts, Tail(q, [], c)))
  {
  }

  lemma RaiseLogged(log: seq<NodeCall>, txs: seq<Transaction>, q: Option<Quote>, c: Cancel)
    ensures log + QuoteCalls(q) + CancelCalls(c) == log + TailCalls(txs, Tail(q, [], c))
  {
  }

  lemma NotTriedLogged(log: seq<NodeCall>)
    ensures log == log + CancelCalls(NotTried)
  {
  }

  /** Without a quote and a cancel there is the search alone. */
  lemma PlainLogged(log: seq<NodeCall>, txs: seq<Transaction>)
    ensures log + TailCalls(txs, Tail(None, [], NotTried)) == log && Searched([], [], None)
    ensures forall search :: TailCalls(txs, Tail(None, search, NotTried)) == SearchCalls(txs, search)
  {
  }

  lemma SearchLogged(log: seq<NodeCall>, txs: seq<Transaction>, search: seq<Option<Receipt>>, answer: Option<Receipt>)
    requires |search| < |txs|
    ensures log + SearchCalls(txs, search) + [AskReceipt(txs[|search|], answer)]
      == log + SearchCalls(txs, search + [answer])
  {
    assert (search + [answer])[..|search|] == search;
  }

  /** How one round of the loop ends. */
  datatype Next = Done(receipt: Option<Receipt>, err: Option<Error>) | Again(tip: int, feeCap: int) | LastTimedOut

  class TxManager {
    const policy: TxPolicy
    const node: Node
    /** How many requests other than those to the node have failed, contexts that ended
        included. */
    ghost var faults: nat

    ghost predicate Valid()
      reads policy, node
    {
      policy.Accepted() && node.Valid()
    }

    function Allowed(): Limits
      reads policy
    {
      Limits(policy.gasBumpPercent, policy.MaxFeePerGasWei(), policy.maxAttempts)
    }

    /** Whether a request fails. */
    method Fails() returns (fails: bool)
      modifies this`faults
      ensures faults == old(faults) + if fails then 1 else 0
    {
      fails := *;
      faults := faults + if fails then 1 else 0;
    }

    constructor (policy: TxPolicy, node: Node)
      ensures this.policy == policy && this.node == node && faults == 0
    {
      this.policy, this.node, faults := policy, node, 0;
    }

    /** The node is asked once, and the fees are those to suggest for its answer. */
    method SuggestGasFees() returns (r: Suggestion, ghost q: Quote)
      requires Valid()
      modifies node`log
      ensures Valid() && node.log == old(node.log) + QuoteCalls(Some(q))
      ensures r == SuggestionOf(q, policy.MaxFeePerGasWei())
    {
      var maxFee := policy.MaxFeePerGasWei();
      var quote := node.QuoteFees();
      q := quote;
      if !quote.Quoted? { return Unavailable, q; }
      var tipCap := quote.tip;
      if tipCap < MIN_TIP_CAP {
        tipCap := MIN_TIP_CAP;
      }
      if quote.baseFee > maxFee { return BaseFeeTooHigh, q; }
      var feeCap := quote.baseFee * 2 + tipCap;
      if feeCap > maxFee {
        feeCap := maxFee;
        if tipCap > feeCap {
          tipCap := feeCap;
        }
      }
      r := Fees(tipCap, feeCap);
    }

    /** The fees that replace the current ones; the node is asked exactly if the bumped fee cap
        does not exceed the maximum. */
    method BumpOrResuggest(tip: int, feeCap: int) returns (r: Option<(int, int)>, ghost q: Option<Quote>)
      requires Valid()
      modifies node`log
      ensures Valid() && node.log == old(node.log) + QuoteCalls(q)
      ensures AsksAgain(feeCap, q, Allowed()) && r == Raised(tip, feeCap, q, Allowed())
      ensures q.Some? <==> ApplyBumpPercent(feeCap, policy.gasBumpPercent) <= policy.MaxFeePerGasWei()
      ensures r.None? <==> q.None? || (q.value.Quoted? && q.value.baseFee > policy.MaxFeePerGasWei())
      ensures r.Some? ==> q.Some? && IsRaise(tip, feeCap, q.value, r.value.0, r.value.1, Allowed())
    {
      hide ApplyBumpPercent;
      q := None;
      var maxFee := policy.MaxFeePerGasWei();
      var bumpedTip := ApplyBumpPercent(tip, policy.gasBumpPercent);
      var bumpedFeeCap := ApplyBumpPercent(feeCap, policy.gasBumpPercent);
      if bumpedFeeCap > maxFee { return None, q; }
      var suggested;
      ghost var quote;
      suggested, quote := SuggestGasFees();
      q := Some(quote);
      match suggested
      case BaseFeeTooHigh => r := None;
      case Unavailable => r := Some((bumpedTip, bumpedFeeCap));
      case Fees(newTip, newFeeCap) =>
        if newTip > bumpedTip {
          bumpedTip := newTip;
        }
        if newFeeCap > bumpedFeeCap {
          bumpedFeeCap := newFeeCap;
        }
        r := Some((bumpedTip, bumpedFeeCap));
    }

    /** Polling for a receipt, reduced to how it ends. */
    method WaitForReceipt(tx: Transaction) returns (r: Wait)
      requires Valid()
      modifies node, this`faults
      ensures Valid() && !r.NotWaited? && faults == old(faults) + if r.Cancelled? then 1 else 0
      ensures node.log == old(node.log) + WaitCalls(tx, r) && (r.Confirmed? ==> r.receipt.tx == tx)
    {
      var done := Fails();
      if done { return Cancelled; }
      var receipt := node.TransactionReceipt(tx);
      r := if receipt.Some? then Confirmed(receipt.value) else TimedOut;
    }

    /** The receipts of the transactions are asked for in order until there is one; none is
        found only if none of them had one. */
    method FindMinedReceipt(txs: seq<Transaction>) returns (r: Option<Receipt>, ghost search: seq<Option<Receipt>>)
      requires Valid()
      modifies node
      ensures Valid() && node.log == old(node.log) + SearchCalls(txs, search) && Searched(search, txs, r)
    {
      search := [];
      ghost var log := node.log;
      for i := 0 to |txs|
        invariant Valid() && node.log == log + SearchCalls(txs, search)
        invariant |search| == i && forall j | 0 <= j < i :: search[j].None?
      {
        r := node.TransactionReceipt(txs[i]);
        SearchLogged(log, txs, search, r);
        search := search + [r];
        if r.Some? { return; }
      }
      r := None;
    }

    /** One zero-value transfer to itself with the same nonce, if it can be signed. */
    method CancelTx(nonce: nat, prevFeeCap: int) returns (r: Cancel)
      requires Valid()
      modifies node, this`faults
      ensures Valid() && faults >= old(faults) && (r.Unsigned? ==> faults > old(faults))
      ensures !r.NotTried? && IsCancel(r, nonce, prevFeeCap, Allowed())
      ensures node.log == old(node.log) + CancelCalls(r)
    {
      hide ApplyBumpPercent;
      var feeCap := ApplyBumpPercent(prevFeeCap, policy.gasBumpPercent);
      if feeCap > policy.MaxFeePerGasWei() {
        feeCap := policy.MaxFeePerGasWei();
      }
      var unsigned := Fails();
      if unsigned { return Unsigned; }
      var tx := Transaction(nonce, feeCap, feeCap, true);
      var reply := node.Send(tx);
      var wait := NotWaited;
      if reply.Accepted? {
        wait := WaitForReceipt(tx);
      }
      r := Sent(tx, reply, wait);
    }

    /** What stands behind an error that the node's answers do not explain. */
    ghost predicate Backed(err: Option<Error>, cancel: Cancel, before: nat)
      reads this`faults
    {
      (err in {Some(EstimateFailed), Some(NonceUnavailable), Some(SignFailed), Some(ContextDone)} || cancel.Unsigned?)
        ==> faults > before
    }

    /** Raise the fees, or cancel if none could be set. */
    method RaiseOrCancel(nonce: nat, tip: int, feeCap: int, ghost txs: seq<Transaction>)
      returns (next: Next, ghost tail: Tail)
      requires Valid()
      modifies node, this`faults
      ensures Valid() && faults >= old(faults) && (tail.cancel.Unsigned? ==> faults > old(faults))
      ensures tail == Tail(tail.quote, [], tail.cancel)
      ensures node.log == old(node.log) + TailCalls(txs, tail)
      ensures AsksAgain(feeCap, tail.quote, Allowed())
      ensures match Raised(tip, feeCap, tail.quote, Allowed())
        case Some(fees) => next == Again(fees.0, fees.1) && tail.cancel.NotTried?
        case None =>
          && next == Done(None, Some(MaxGasReached))
          && !tail.cancel.NotTried? && IsCancel(tail.cancel, nonce, feeCap, Allowed())
    {
      hide AsksAgain, Raised, IsCancel, Node.Valid, QuoteCalls, CancelCalls, TailCalls;
      var raised;
      ghost var q;
      raised, q := BumpOrResuggest(tip, feeCap);
      var cancel := NotTried;
      if raised.None? {
        cancel := CancelTx(nonce, feeCap);
        next := Done(None, Some(MaxGasReached));
      } else {
        next := Again(raised.value.0, raised.value.1);
        NotTriedLogged(node.log);
      }
      tail := Tail(q, [], cancel);
      RaiseLogged(old(node.log), txs, q, cancel);
    }

    /** What the end of an attempt leaves to be done: a result that fits, fees for the next, or
        giving up since the last attempt timed out. */
    ghost predicate Reacts(attempts: seq<Attempt>, nonce: nat, next: Next, tail: Tail)
      requires attempts != []
      reads policy
    {
      var a, final := attempts[|attempts|-1], |attempts| == policy.maxAttempts;
      match next
      case Done(receipt, err) =>
        LastFits(attempts, tail, receipt, err, Allowed()) && CancelFits(Trace(attempts, tail), nonce, err, Allowed())
      case Again(tip, feeCap) =>
        && tail == Tail(tail.quote, [], NotTried) && Leads(attempts, tail.quote, tip, feeCap, Allowed())
        && (final ==> a.reply.Underpriced?)
      case LastTimedOut => tail == Tail(None, [], NotTried) && final && a.wait.TimedOut?
    }

    /** What to do after an attempt, by the node's reply and the end of the wait. */
    method React(reply: SendReply, wait: Wait, tip: int, feeCap: int, attempt: nat, published: seq<Transaction>,
                 nonce: nat, ghost attempts: seq<Attempt>)
      returns (next: Next, ghost tail: Tail)
      requires Valid() && attempts != [] && |attempts| == attempt <= policy.maxAttempts
      requires var a := attempts[attempt-1]; a == Attempt(a.quote, Payload(nonce, tip, feeCap), reply, wait)
      requires AttemptOk(attempts[attempt-1], nonce) && published == Published(attempts)
      modifies node, this`faults
      ensures Valid() && faults >= old(faults) && Reacts(attempts, nonce, next, tail)
      ensures wait.Cancelled? ==> next == Done(None, Some(ContextDone)) && tail.cancel.NotTried?
      ensures next.Done? && !wait.Cancelled? ==> Backed(next.err, tail.cancel, old(faults))
      ensures node.log == old(node.log) + TailCalls(published, tail)
    {
      hide AsksAgain, Raised, Node.Valid, IsCancel, Published, Searched, AttemptOk, TailCalls, SearchCalls;
      PlainLogged(node.log, published);
      tail := Tail(None, [], NotTried);
      AwaitedExactly(attempts[attempt-1], nonce);
      match reply {
        case NonceTooLow =>
          var receipt: Option<Receipt> := None;
          ghost var search: seq<Option<Receipt>> := [];
          if published != [] {
            receipt, search := FindMinedReceipt(published);
          }
          tail := tail.(search := search);
          next := if receipt.Some? then Done(receipt, HandleReceipt(receipt.value))
                  else Done(None, Some(NonceTooLowError));
        case InsufficientFunds =>
          next := Done(None, Some(InsufficientFundsError));
        case Underpriced =>
          next, tail := RaiseOrCancel(nonce, tip, feeCap, published);
        case OtherError =>
          if attempt >= policy.maxAttempts {
            next := Done(None, Some(SendFailed));
          } else {
            var contextDone := Fails();
            next := if contextDone then Done(None, Some(ContextDone)) else Again(tip, feeCap);
          }
        case _ =>
          if wait.Confirmed? {
            next := Done(Some(wait.receipt), HandleReceipt(wait.receipt));
          } else if wait.Cancelled? {
            next := Done(None, Some(ContextDone));
          } else if attempt >= policy.maxAttempts {
            next := LastTimedOut;
          } else {
            next, tail := RaiseOrCancel(nonce, tip, feeCap, published);
          }
      }
    }

    lemma AwaitedExactly(a: Attempt, nonce: nat)
      requires AttemptOk(a, nonce)
      ensures Taken(a.reply) <==> !a.wait.NotWaited?
    {
    }

    /** Sign, send, and wait if the node took the transaction. */
    method SignAndSend(nonce: nat, tip: int, feeCap: int, ghost q: Option<Quote>)
      returns (sent: bool, reply: SendReply, wait: Wait, ghost a: Attempt)
      requires Valid()
      modifies node, this`faults
      ensures Valid() && faults >= old(faults) && (!sent || wait.Cancelled? ==> faults > old(faults))
      ensures a == Attempt(q, Payload(nonce, tip, feeCap), reply, wait) && (sent ==> AttemptOk(a, nonce))
      ensures node.log == old(node.log) + if sent then [SendTx(a.tx, reply)] + WaitCalls(a.tx, wait) else []
    {
      reply, wait := OtherError, NotWaited;
      a := Attempt(q, Payload(nonce, tip, feeCap), reply, wait);
      var unsigned := Fails();
      if unsigned { return false, reply, wait, a; }
      var tx := Payload(nonce, tip, feeCap);
      reply := node.Send(tx);
      if Taken(reply) {
        wait := WaitForReceipt(tx);
      }
      sent, a := true, Attempt(q, tx, reply, wait);
    }

    /** The state of the loop before an attempt: what was sent, and the fees to send next. */
    ghost predicate Ready(attempts: seq<Attempt>, q: Option<Quote>, nonce: nat, tip: int, feeCap: int,
                          published: seq<Transaction>)
      reads policy
    {
      && AttemptsOk(attempts, nonce, Allowed()) && Leads(attempts, q, tip, feeCap, Allowed())
      && published == Published(attempts)
    }

    /** One round of the loop. */
    method TryOnce(nonce: nat, tip: int, feeCap: int, attempt: nat, published: seq<Transaction>,
                   ghost attempts: seq<Attempt>, ghost q: Option<Quote>, ghost log: seq<NodeCall>)
      returns (next: Next, nowPublished: seq<Transaction>, ghost t: Trace)
      requires Valid() && |attempts| + 1 == attempt <= policy.maxAttempts
      requires Ready(attempts, q, nonce, tip, feeCap, published)
      requires node.log == log + AttemptsCalls(attempts) + QuoteCalls(q)
      modifies node, this`faults
      ensures Valid() && faults >= old(faults)
      ensures node.log == log + CallsOf(t) && |t.attempts| <= policy.maxAttempts
      ensures match next
        case Done(receipt, err) =>
          IsOutcome(t, nonce, receipt, err, Allowed()) && Backed(err, t.tail.cancel, old(faults))
        case Again(newTip, newFeeCap) =>
          && t.tail == Tail(t.tail.quote, [], NotTried) && |t.attempts| == attempt
          && Ready(t.attempts, t.tail.quote, nonce, newTip, newFeeCap, nowPublished)
          && (attempt == policy.maxAttempts ==> t.attempts[attempt-1].reply.Underpriced?)
        case LastTimedOut =>
          && t.tail == Tail(None, [], NotTried) && |t.attempts| == attempt == policy.maxAttempts
          && AttemptsOk(t.attempts, nonce, Allowed()) && t.attempts[attempt-1].wait.TimedOut?
          && t.attempts[attempt-1].tx.feeCap == feeCap
    {
      hide AttemptOk, Published, AttemptsCalls, Node.Valid, Leads, LastFits, TailCalls, IsCancel, LastFeeCap;
      t, nowPublished := Trace(attempts, Tail(q, [], NotTried)), published;
      ReadyLogged(log, attempts, q);
      UnsignedFits(attempts, q, tip, feeCap, nonce, Allowed());
      var sent, reply, wait;
      ghost var a;
      sent, reply, wait, a := SignAndSend(nonce, tip, feeCap, q);
      if !sent { return Done(None, Some(SignFailed)), nowPublished, t; }
      ghost var more := attempts + [a];
      AttemptLogged(log, attempts, a);
      assert more[..|attempts|] == attempts;
      if Taken(reply) {
        nowPublished := published + [Payload(nonce, tip, feeCap)];
      }
      ghost var tail;
      next, tail := React(reply, wait, tip, feeCap, attempt, nowPublished, nonce, more);
      t := Trace(more, tail);
      TailLogged(log, t);
    }

    lemma UnsignedFits(attempts: seq<Attempt>, q: Option<Quote>, tip: int, feeCap: int, nonce: nat, l: Limits)
      requires AttemptsOk(attempts, nonce, l) && Leads(attempts, q, tip, feeCap, l) && |attempts| < l.maxAttempts
      ensures Fits(Trace(attempts, Tail(q, [], NotTried)), None, Some(SignFailed), l)
    {
      hide ApplyBumpPercent, SuggestionOf;
      if attempts != [] { AwaitedExactly(attempts[|attempts|-1], nonce); }
    }

    /** One call, with everything it asks recorded: what it does and returns is an outcome of
        the node's answers, the node is asked nothing else, an error these do not explain is
        that of a request that failed, and a receipt returned is in the chain. */
    method SendTransaction()
      returns (receipt: Option<Receipt>, err: Option<Error>, ghost nonce: nat, ghost trace: Trace)
      requires Valid()
      modifies node, this`faults
      ensures Valid() && LimitsOk(Allowed())
      ensures Allowed() == Limits(policy.gasBumpPercent, policy.maxFeePerGasGwei * 1_000_000_000, policy.maxAttempts)
      ensures IsOutcome(trace, nonce, receipt, err, Allowed())
      ensures node.log == old(node.log) + CallsOf(trace)
      ensures Backed(err, trace.tail.cancel, old(faults))
      ensures receipt.Some? ==> InChain(receipt.value, node.mined)
    {
      hide AttemptsOk, Fits, CancelFits, CallsOf, Node.Valid;
      trace, nonce, receipt := Trace([], Tail(None, [], NotTried)), 0, None;
      NothingSent(node.log, None, nonce);
      var estimateFailed := Fails();
      if estimateFailed {
        err := Some(EstimateFailed);
        return;
      }
      var fees;
      ghost var q;
      fees, q := SuggestGasFees();
      trace := Trace([], Tail(Some(q), [], NotTried));
      NothingSent(old(node.log), Some(q), nonce);
      if !fees.Fees? {
        err := Some(FeesUnavailable);
        return;
      }
      var nonceFailed := Fails();
      if nonceFailed {
        err := Some(NonceUnavailable);
        return;
      }
      var pending: nat := *;
      nonce := pending;
      receipt, err, trace := Attempts(pending, fees.tip, fees.feeCap, q, old(node.log));
      if receipt.Some? { GivenInChain(trace, nonce, receipt.value, err, old(node.log)); }
    }

    lemma NothingSent(log: seq<NodeCall>, q: Option<Quote>, nonce: nat)
      requires policy.Accepted()
      ensures LimitsOk(Allowed())
      ensures log + QuoteCalls(q) == log + CallsOf(Trace([], Tail(q, [], NotTried))) && QuoteCalls(None) == []
      ensures forall err | NothingFits(q, err, Allowed()) ::
        IsOutcome(Trace([], Tail(q, [], NotTried)), nonce, None, err, Allowed())
    {
    }

    lemma GivenInChain(t: Trace, nonce: nat, receipt: Receipt, err: Option<Error>, log: seq<NodeCall>)
      requires node.Valid() && node.log == log + CallsOf(t) && IsOutcome(t, nonce, Some(receipt), err, Allowed())
      ensures InChain(receipt, node.mined)
    {
      hide IsOutcome, CallsOf;
      ReceiptWasGiven(t, nonce, receipt, err, Allowed());
      assert AskReceipt(receipt.tx, Some(receipt)) in node.log;
    }

    /** The loop of SendTransaction, and the cancel once its attempts are used up. */
    method Attempts(nonce: nat, firstTip: int, firstFeeCap: int, ghost first: Quote, ghost log: seq<NodeCall>)
      returns (receipt: Option<Receipt>, err: Option<Error>, ghost t: Trace)
      requires Valid() && SuggestionOf(first, policy.MaxFeePerGasWei()) == Fees(firstTip, firstFeeCap)
      requires node.log == log + QuoteCalls(Some(first))
      modifies node, this`faults
      ensures Valid() && IsOutcome(t, nonce, receipt, err, Allowed())
      ensures node.log == log + CallsOf(t) && Backed(err, t.tail.cancel, old(faults))
    {
      t := Trace([], Tail(Some(first), [], NotTried));
      NothingSent(log, Some(first), nonce);
      assert Ready(t.attempts, t.tail.quote, nonce, firstTip, firstFeeCap, []);
      assert policy.maxAttempts >= 1;
      hide *;
      var published: seq<Transaction> := [];
      var tip, feeCap := firstTip, firstFeeCap;
      var attempt := 1;
      while attempt <= policy.maxAttempts
        invariant Valid() && faults >= old(faults) && 1 <= attempt <= policy.maxAttempts + 1
        invariant |t.attempts| == attempt - 1 && t.tail == Tail(t.tail.quote, [], NotTried)
        invariant Ready(t.attempts, t.tail.quote, nonce, tip, feeCap, published) && node.log == log + CallsOf(t)
        invariant attempt > policy.maxAttempts ==> t.attempts[attempt-2].reply.Underpriced?
      {
        ReadyLogged(log, t.attempts, t.tail.quote);
        ghost var before := faults;
        var next, nowPublished;
        next, nowPublished, t := TryOnce(nonce, tip, feeCap, attempt, published, t.attempts, t.tail.quote, log);
        published := nowPublished;
        match next {
          case Done(r, e) =>
            BackedSince(e, t.tail.cancel, old(faults), before);
            return r, e, t;
          case Again(newTip, newFeeCap) => tip, feeCap := newTip, newFeeCap;
          case LastTimedOut => break;
        }
        attempt := attempt + 1;
      }
      var cancel := CancelTx(nonce, feeCap);
      CancelLogged(log, t.attempts, t.tail.quote, cancel);
      ExhaustedFits(t, nonce, tip, feeCap, published, cancel, old(faults));
      t := t.(tail := t.tail.(cancel := cancel));
      receipt, err := None, Some(MaxAttemptsExhausted);
    }

    lemma BackedSince(err: Option<Error>, cancel: Cancel, before: nat, since: nat)
      requires Backed(err, cancel, since) && before <= since
      ensures Backed(err, cancel, before)
    {
    }

    lemma ExhaustedFits(t: Trace, nonce: nat, tip: int, feeCap: int, published: seq<Transaction>, cancel: Cancel,
                        before: nat)
      requires |t.attempts| == policy.maxAttempts > 0 && t.tail == Tail(t.tail.quote, [], NotTried)
      requires var a := t.attempts[|t.attempts|-1];
        || (a.reply.Underpriced? && Ready(t.attempts, t.tail.quote, nonce, tip, feeCap, published))
        || (AttemptsOk(t.attempts, nonce, Allowed()) && a.wait.TimedOut? && t.tail.quote.None? && feeCap == a.tx.feeCap)
      requires !cancel.NotTried? && IsCancel(cancel, nonce, feeCap, Allowed()) && (cancel.Unsigned? ==> faults > before)
      ensures Backed(Some(MaxAttemptsExhausted), cancel, before)
      ensures IsOutcome(t.(tail := t.tail.(cancel := cancel)), nonce, None, Some(MaxAttemptsExhausted), Allowed())
    {
      hide SuggestionOf, ApplyBumpPercent, IsCancel, Published;
      AwaitedExactly(t.attempts[|t.attempts|-1], nonce);
    }
  }
}
