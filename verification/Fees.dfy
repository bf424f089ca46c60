/** EIP-1559 fees: resolving them from the node and raising them for a retry. */
module Fees {
  import opened Wrappers

  /** Priority fee and fee cap, in wei. */
  datatype Fee = Fee(tip: nat, cap: nat) {
    /** What EIP-1559 asks of a transaction: a positive tip the cap can pay. */
    predicate Valid() { 1 <= tip <= cap }
  }

  const DEFAULT_FEE := Fee(1_000_000_000, 3_000_000_000)

  /** The node's three answers; `None` where the call fails or carries no value. */
  datatype Quotes = Quotes(gasPrice: Option<int>, tipCap: Option<int>, baseFee: Option<int>)

  predicate Positive(v: Option<int>) {
    v.Some? && v.value > 0
  }

  /** The suggested gas price, or the 3 gwei fallback when it is unusable. */
  function Price(q: Quotes): nat {
    if Positive(q.gasPrice) then q.gasPrice.value else DEFAULT_FEE.cap
  }

  function Max(a: nat, b: nat): nat {
    if a < b then b else a
  }

  function Tip(q: Quotes): nat {
    if Positive(q.tipCap) then q.tipCap.value else Max(Price(q) / 10, 1)
  }

  function Cap(q: Quotes): nat {
    if Positive(q.baseFee) then 2 * q.baseFee.value + Tip(q) else Max(Price(q) * 12 / 10, Tip(q))
  }

  /** The fees resolved from the node, or the defaults when the price call fails. */
  function StartingFee(q: Quotes): Fee {
    if q.gasPrice.None? then DEFAULT_FEE else Fee(Tip(q), Cap(q))
  }

  method ResolveEip1559GasFees(q: Quotes) returns (r: Option<Fee>)
    ensures r.None? <==> q.gasPrice.None?
    ensures r.Some? ==> r.value == Fee(Tip(q), Cap(q)) && r.value.Valid()
  {
    if q.gasPrice.None? {
      return None;
    }
    var gasPrice := q.gasPrice.value;
    if gasPrice <= 0 {
      gasPrice := DEFAULT_FEE.cap;
    }
    var tip, cap := 0, 0;
    if q.tipCap.None? || q.tipCap.value <= 0 {
      tip := gasPrice / 10;
      if tip <= 0 {
        tip := 1;
      }
    } else {
      tip := q.tipCap.value;
    }
    if q.baseFee.Some? && q.baseFee.value > 0 {
      cap := q.baseFee.value * 2;
      cap := cap + tip;
    } else {
      cap := gasPrice * 12;
      cap := cap / 10;
    }
    if cap < tip {
      cap := tip;
    }
    r := Some(Fee(tip, cap));
  }

  method StartingFees(q: Quotes) returns (f: Fee)
    ensures f == StartingFee(q) && f.Valid()
  {
    var r := ResolveEip1559GasFees(q);
    match r {
      case Some(fee) => f := fee;
      case None => f := DEFAULT_FEE;
    }
  }

  /** Whatever the node answers, a send starts with a positive tip the cap can pay. */
  lemma StartingFeeValid(q: Quotes)
    ensures StartingFee(q).Valid()
  {
  }

  /** The starting fees case by case: 1 and 3 gwei when the price call fails; else the
      suggested tip or a tenth of the price, at least 1, and twice the base fee plus the
      tip or six fifths of the price, at least the tip. A price that is not positive
      counts as 3 gwei. */
  lemma StartingFeeIs(q: Quotes, price: int)
    requires q.gasPrice.Some? ==> price == if q.gasPrice.value > 0 then q.gasPrice.value else 3_000_000_000
    ensures var f := StartingFee(q);
            if q.gasPrice.None? then f == Fee(1_000_000_000, 3_000_000_000)
            else
              && (if q.tipCap.Some? && q.tipCap.value > 0 then f.tip == q.tipCap.value
                  else if price >= 10 then 10 * f.tip <= price < 10 * f.tip + 10
                  else f.tip == 1)
              && (if q.baseFee.Some? && q.baseFee.value > 0 then f.cap == q.baseFee.value + q.baseFee.value + f.tip
                  else if 12 * price >= 10 * f.tip then 10 * f.cap <= 12 * price < 10 * f.cap + 10
                  else f.cap == f.tip)
  {
  }

  /** One bump: 140% before the second attempt, 160% before the third, rounded down. */
  function Bump(f: Fee, attempt: nat): Fee {
    var scale := 120 + attempt * 20;
    var tip := f.tip * scale / 100;
    var tip' := if tip <= 0 then 1 else tip;
    var cap := f.cap * scale / 100;
    Fee(tip', if cap < tip' then tip' else cap)
  }

  method BumpEip1559GasFees(f: Fee, attempt: nat) returns (r: Fee)
    ensures r == Bump(f, attempt)
  {
    var multiplier := 120 + attempt * 20;
    var tip := f.tip * multiplier;
    tip := tip / 100;
    var fee := f.cap * multiplier;
    fee := fee / 100;
    if tip <= 0 {
      tip := 1;
    }
    if fee < tip {
      fee := tip;
    }
    r := Fee(tip, fee);
  }

  /** The fees attempt number `attempt` (from 0) is sent with. */
  function FeesAt(start: Fee, attempt: nat): Fee {
    if attempt == 0 then start else Bump(FeesAt(start, attempt - 1), attempt)
  }

  /** A node replaces a pending transaction only if both fees rise by a tenth. */
  predicate RaisedByTenth(before: nat, after: nat) {
    10 * after >= 11 * before
  }

  /** The least value the bump before this attempt raises by a tenth. */
  function LeastRaised(attempt: nat): nat
    requires 1 <= attempt <= 2
  {
    if attempt == 1 then 3 else 2
  }

  lemma ScaleValue(v: nat, attempt: nat)
    requires 1 <= attempt <= 2 && v >= 1
    ensures var w := v * (120 + attempt * 20) / 100;
            w >= v && 100 * w <= (120 + attempt * 20) * v
            && (RaisedByTenth(v, w) <==> v >= LeastRaised(attempt))
  {
    if attempt == 1 {
      assert v * (120 + attempt * 20) == v * 140;
    } else {
      assert v * (120 + attempt * 20) == v * 160;
    }
  }

  /** One bump keeps the fees valid, lowers neither, scales each separately, and
      makes the transaction replaceable exactly from `LeastRaised` upwards. */
  lemma BumpRaises(f: Fee, attempt: nat)
    requires f.Valid() && 1 <= attempt <= 2
    ensures var g := Bump(f, attempt);
            && g.Valid() && g.tip >= f.tip && g.cap >= f.cap
            && 100 * g.tip <= (120 + attempt * 20) * f.tip && 100 * g.cap <= (120 + attempt * 20) * f.cap
            && (RaisedByTenth(f.tip, g.tip) <==> f.tip >= LeastRaised(attempt))
            && (RaisedByTenth(f.cap, g.cap) <==> f.cap >= LeastRaised(attempt))
  {
    ScaleValue(f.tip, attempt);
    ScaleValue(f.cap, attempt);
    MulMonotone(f.tip, f.cap, 120 + attempt * 20);
  }

  /** The second attempt is sent with 140 percent of the first's fees, the third with 160
      percent of the second's, rounded down. */
  lemma BumpIs(f: Fee)
    requires f.Valid()
    ensures var g := Bump(f, 1);
            100 * g.tip <= 140 * f.tip < 100 * g.tip + 100 && 100 * g.cap <= 140 * f.cap < 100 * g.cap + 100
    ensures var g := Bump(f, 2);
            100 * g.tip <= 160 * f.tip < 100 * g.tip + 100 && 100 * g.cap <= 160 * f.cap < 100 * g.cap + 100
  {
    MulMonotone(f.tip, f.cap, 140);
    MulMonotone(f.tip, f.cap, 160);
  }

  lemma MulMonotone(a: nat, b: nat, k: nat)
    requires a <= b
    ensures a * k <= b * k && a * k / 100 <= b * k / 100
  {
    assert b * k == a * k + (b - a) * k;
  }

  /** What one retry does to the fees of attempt `i`. */
  predicate GoodRetry(start: Fee, i: nat)
    requires i < 2
  {
    var f, g := FeesAt(start, i), FeesAt(start, i + 1);
    && g.Valid() && f.tip <= g.tip && f.cap <= g.cap
    && 100 * g.tip <= (140 + i * 20) * f.tip && 100 * g.cap <= (140 + i * 20) * f.cap
    && (RaisedByTenth(f.tip, g.tip) <==> f.tip >= LeastRaised(i + 1))
    && (RaisedByTenth(f.cap, g.cap) <==> f.cap >= LeastRaised(i + 1))
  }

  lemma RetryIsGood(start: Fee, i: nat)
    requires i < 2 && FeesAt(start, i).Valid()
    ensures GoodRetry(start, i)
  {
    hide Bump, RaisedByTenth, LeastRaised;
    BumpRaises(FeesAt(start, i), i + 1);
    assert FeesAt(start, i + 1) == Bump(FeesAt(start, i), i + 1);
  }

  /** Over a whole send: valid at every attempt, never falling, at most 224% of the
      start, and each retry replaces its predecessor unless a fee was below 3. */
  lemma FeesOverSend(start: Fee)
    requires start.Valid()
    ensures forall i | 0 <= i < 3 :: FeesAt(start, i).Valid()
    ensures forall i | 0 <= i < 2 :: GoodRetry(start, i)
    ensures 100 * FeesAt(start, 2).tip <= 224 * start.tip && 100 * FeesAt(start, 2).cap <= 224 * start.cap
  {
    FirstFees(start);
    RetryIsGood(start, 0);
    RetryIsGood(start, 1);
    hide Bump, RaisedByTenth, LeastRaised, FeesAt;
  }

  lemma FirstFees(start: Fee)
    ensures FeesAt(start, 0) == start
  {
  }

  /** From a tip of one the first bump changes nothing, so the node would call the
      second attempt underpriced. */
  lemma SmallTipStays(start: Fee)
    requires start.Valid() && start.tip <= 2
    ensures FeesAt(start, 1).tip == start.tip
  {
    BumpRaises(start, 1);
    assert FeesAt(start, 1) == Bump(FeesAt(start, 0), 1);
    assert start.tip * 140 / 100 == start.tip;
  }

  /** Two attempts one after the other: nothing falls, and the later fees are this
      percentage of the earlier, rounded down. */
  predicate RaisedBy(f: Fee, g: Fee, percent: nat) {
    && f.tip <= g.tip && f.cap <= g.cap
    && 100 * g.tip <= percent * f.tip < 100 * g.tip + 100
    && 100 * g.cap <= percent * f.cap < 100 * g.cap + 100
  }

  lemma AttemptsRaised(start: Fee)
    requires start.Valid()
    ensures FeesAt(start, 0) == start
    ensures RaisedBy(FeesAt(start, 0), FeesAt(start, 1), 140) && RaisedBy(FeesAt(start, 1), FeesAt(start, 2), 160)
    ensures forall i | 0 <= i < 3 ::
              var f := FeesAt(start, i); f.Valid() && 100 * f.tip <= 224 * start.tip && 100 * f.cap <= 224 * start.cap
  {
    FirstFees(start);
    OneRaise(start, 0);
    OneRaise(start, 1);
    FeesOverSend(start);
    hide FeesAt;
  }

  lemma OneRaise(start: Fee, i: nat)
    requires start.Valid() && i < 2
    ensures RaisedBy(FeesAt(start, i), FeesAt(start, i + 1), if i == 0 then 140 else 160)
  {
    hide RaisedByTenth, LeastRaised;
    FeesOverSend(start);
    assert GoodRetry(start, i);
    assert FeesAt(start, i + 1) == Bump(FeesAt(start, i), i + 1);
    BumpIs(FeesAt(start, i));
    hide Bump, FeesAt;
  }
}
