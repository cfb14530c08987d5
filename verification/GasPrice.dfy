/** The two loops that raise the gas price of a transaction until it is included: the aggregator's
`SendAggregatedResponse` (core/chainio/avs_writer.go) and the batcher's `cancel_create_new_task_tx`
(crates/batcher/src/lib.rs). Prices are naturals and division rounds down, as for big integers in the source. */
module GasPrice {
  import opened Basics
  import opened FeeModel

  // --- The aggregator's loop ---

  /** `CalculateGasPriceBumpBasedOnRetry`. */
  function BumpOnRetry(price: nat, base: nat, perRetry: nat, limit: nat, retry: nat): (r: nat)
    ensures r >= price
  {
    var percentage := base + perRetry * retry;
    price + price * (if percentage > limit then limit else percentage) / 100
  }

  datatype BumpConfig = BumpConfig(base: nat, perRetry: nat, limit: nat)

  /** `price` is 0 until a first attempt sets it (`priced`); `retry` is the source's `i`. */
  datatype Sender = Sender(priced: bool, price: nat, retry: nat)

  /** One call of the retried closure: the node's price, or none when the node fails, and whether the call got as
  far as waiting in vain for a receipt. */
  datatype Attempt = Attempt(quoted: bool, quote: nat, timedOut: bool)

  function NextPrice(config: BumpConfig, s: Sender, quote: nat): nat {
    var previous := if s.priced then s.price else quote;
    var minimum := BumpOnRetry(previous, 10, 0, config.limit, 0);
    var suggested := BumpOnRetry(quote, config.base, config.perRetry, config.limit, s.retry);
    if suggested > minimum then suggested else minimum
  }

  function AfterAttempt(config: BumpConfig, s: Sender, a: Attempt): Sender {
    if !a.quoted then s
    else Sender(true, NextPrice(config, s, a.quote), if a.timedOut then s.retry + 1 else s.retry)
  }

  ghost function Smaller(x: nat, y: nat): nat { if x < y then x else y }

  ghost function Larger(x: nat, y: nat): nat { if x < y then y else x }

  /** The percentage of a retry: the base and one increment per timed-out attempt before it, up to the limit. */
  ghost function Percentage(config: BumpConfig, retry: nat): nat {
    Smaller(config.limit, config.base + config.perRetry * retry)
  }

  ghost function Previous(s: Sender, quote: nat): nat {
    if s.priced then s.price else quote
  }

  /** The price is the node's raised by the retry's percentage, rounded down, unless 10% of the previous price, or the
  limit, gives more. */
  ghost predicate RaisedBy(config: BumpConfig, s: Sender, quote: nat, price: nat) {
    && 100 * price + 99 >= (100 + Percentage(config, s.retry)) * quote
    && 100 * price + 99 >= (100 + Smaller(10, config.limit)) * Previous(s, quote)
    && 100 * price <= Larger((100 + Percentage(config, s.retry)) * quote,
                             (100 + Smaller(10, config.limit)) * Previous(s, quote))
  }

  lemma HundredthsOf(price: nat, percentage: nat)
    ensures var r := price + price * percentage / 100;
            100 * r <= (100 + percentage) * price < 100 * r + 100
  {
    assert (100 + percentage) * price == 100 * price + price * percentage;
  }

  /** A bump is its percentage of the price, capped by the limit, rounded down. */
  lemma BumpExactly(price: nat, base: nat, perRetry: nat, limit: nat, retry: nat)
    ensures var p := Smaller(limit, base + perRetry * retry);
            var r := BumpOnRetry(price, base, perRetry, limit, retry);
            100 * r <= (100 + p) * price < 100 * r + 100
  {
    HundredthsOf(price, Smaller(limit, base + perRetry * retry));
  }

  lemma NextPriceExactly(config: BumpConfig, s: Sender, quote: nat)
    ensures RaisedBy(config, s, quote, NextPrice(config, s, quote))
  {
    BumpExactly(quote, config.base, config.perRetry, config.limit, s.retry);
    BumpExactly(Previous(s, quote), 10, 0, config.limit, 0);
  }

  /** Each retry's price is at least 110 hundredths of the previous one, rounded down, and covers the node's price. */
  lemma RetryRaisesPrice(config: BumpConfig, s: Sender, quote: nat)
    ensures NextPrice(config, s, quote) >= quote
    ensures s.priced && config.limit >= 10 ==> NextPrice(config, s, quote) >= 110 * s.price / 100
    ensures s.priced ==> NextPrice(config, s, quote) >= s.price
  {
    assert s.priced && config.limit >= 10 ==> NextPrice(config, s, quote) >= s.price + s.price * 10 / 100;
  }

  /** The comment asks for "at least 10% higher than the previous one". Rounding down misses that: it holds exactly
  when the suggestion alone is enough, or the previous price is a multiple of ten and the limit allows 10%. */
  lemma TenPercentExactly(config: BumpConfig, s: Sender, quote: nat)
    requires s.priced
    ensures 10 * NextPrice(config, s, quote) >= 11 * s.price
       <==> || 10 * BumpOnRetry(quote, config.base, config.perRetry, config.limit, s.retry) >= 11 * s.price
            || s.price == 0
            || (s.price % 10 == 0 && config.limit >= 10)
  {
    MinimumExactly(s.price, config.limit);
  }

  lemma MinimumExactly(price: nat, limit: nat)
    ensures 10 * BumpOnRetry(price, 10, 0, limit, 0) >= 11 * price <==> price == 0 || (price % 10 == 0 && limit >= 10)
  {
    if limit >= 10 {
      assert BumpOnRetry(price, 10, 0, limit, 0) == price + price * 10 / 100;
      TenthExactly(price);
    } else {
      assert BumpOnRetry(price, 10, 0, limit, 0) == price + price * limit / 100;
      LowLimit(price, limit);
    }
  }

  lemma TenthExactly(price: nat)
    ensures 10 * (price * 10 / 100) >= price <==> price % 10 == 0
  {
  }

  lemma LowLimit(price: nat, limit: nat)
    requires limit < 10
    ensures 10 * (price * limit / 100) >= price <==> price == 0
  {
    assert price * limit <= price * 9;
    assert price * limit / 100 <= price * 9 / 100;
  }

  /** A price that misses: 15 is followed by 16. */
  lemma TenPercentCanFail()
    ensures AfterAttempt(BumpConfig(25, 20, 150), Sender(true, 15, 0), Attempt(true, 1, true)) == Sender(true, 16, 1)
  {
    assert BumpOnRetry(15, 10, 0, 150, 0) == 16;
    assert BumpOnRetry(1, 25, 20, 150, 0) == 1;
  }

  function Power(b: nat, k: nat): (r: nat)
    ensures b > 0 ==> r > 0
  {
    if k == 0 then 1 else b * Power(b, k - 1)
  }

  /** Powers grow at least linearly. */
  lemma {:induction false} PowerGrows(b: nat, k: nat)
    requires b > 0
    ensures Power(b, k) >= 1 + k * (b - 1)
  {
    if k > 0 {
      PowerGrows(b, k - 1);
      var x := (k - 1) * (b - 1);
      MulMono(1 + x, Power(b, k - 1), b);
      MulMono(1, b, x);
      assert (1 + x) * b == b + x * b && k * (b - 1) == x + (b - 1);
      assert Power(b, k) == Power(b, k - 1) * b;
    }
  }

  /** The state after a sequence of attempts. */
  function AfterAll(config: BumpConfig, s: Sender, attempts: seq<Attempt>): Sender {
    if attempts == [] then s
    else AfterAttempt(config, AfterAll(config, s, attempts[..|attempts| - 1]), attempts[|attempts| - 1])
  }

  function Quoted(attempts: seq<Attempt>): nat {
    if attempts == [] then 0
    else Quoted(attempts[..|attempts| - 1]) + if attempts[|attempts| - 1].quoted then 1 else 0
  }

  /** Scaling one step of a geometric bound. */
  lemma GeometricStep(a: nat, b: nat, k: nat, p0: int, p: int, p': int)
    requires Power(b, k) * p >= Power(a, k) * p0 && b * p' >= a * p
    ensures Power(b, k + 1) * p' >= Power(a, k + 1) * p0
  {
    var x, y := Power(b, k), Power(a, k);
    assert Power(b, k + 1) == b * x && Power(a, k + 1) == a * y;
    MulMono(a * p, b * p', x);
    MulMono(y * p0, x * p, a);
    Reorder(b, x, p');
    Reorder(a, x, p);
    Reorder(a, y, p0);
    assert x * (a * p) == a * (x * p);
  }

  lemma Reorder(b: nat, x: nat, p: int)
    ensures b * x * p == x * (b * p) && b * x * p == b * (x * p)
  {
  }

  /** For every sequence of node prices and outcomes, k priced retries multiply the price by at least 1.1 to the k,
  up to a constant of nine units, and add at least k tenths of it. */
  lemma {:induction false} RetriesGrowGeometrically(config: BumpConfig, s: Sender, attempts: seq<Attempt>)
    requires s.priced && config.limit >= 10
    ensures AfterAll(config, s, attempts).priced && AfterAll(config, s, attempts).price >= s.price
    ensures Power(10, Quoted(attempts)) * (AfterAll(config, s, attempts).price - 9)
         >= Power(11, Quoted(attempts)) * (s.price - 9)
  {
    if attempts != [] {
      var before, a := attempts[..|attempts| - 1], attempts[|attempts| - 1];
      var t := AfterAll(config, s, before);
      RetriesGrowGeometrically(config, s, before);
      if a.quoted {
        RetryRaisesPrice(config, t, a.quote);
        GeometricStep(11, 10, Quoted(before), s.price - 9, t.price - 9, AfterAttempt(config, t, a).price - 9);
      }
    }
  }

  lemma LinearStep(first: nat, k: nat, price: nat, next: nat)
    requires price >= first + k * (first / 10) && next >= 110 * price / 100
    ensures next >= first + (k + 1) * (first / 10)
  {
    var tenth := first / 10;
    assert k * tenth >= 0;
    assert (k + 1) * tenth == k * tenth + tenth;
    LinearStepFrom(first, k * tenth, price, next);
  }

  lemma LinearStepFrom(first: nat, gained: nat, price: nat, next: nat)
    requires price >= first + gained && next >= 110 * price / 100
    ensures next >= first + gained + first / 10
  {
  }

  lemma {:induction false} RetriesGrowLinearly(config: BumpConfig, s: Sender, attempts: seq<Attempt>)
    requires s.priced && config.limit >= 10
    ensures AfterAll(config, s, attempts).priced
    ensures AfterAll(config, s, attempts).price >= s.price + Quoted(attempts) * (s.price / 10)
  {
    if attempts != [] {
      var before, a := attempts[..|attempts| - 1], attempts[|attempts| - 1];
      var t := AfterAll(config, s, before);
      RetriesGrowLinearly(config, s, before);
      if a.quoted {
        RetryRaisesPrice(config, t, a.quote);
        LinearStep(s.price, Quoted(before), t.price, AfterAttempt(config, t, a).price);
      }
    }
  }

  /** `k` attempts that time out at one quote. */
  ghost function TimedOut(quote: nat, k: nat): seq<Attempt> {
    seq(k, _ => Attempt(true, quote, true))
  }

  lemma {:induction false} RetryIsCounted(config: BumpConfig, quote: nat, k: nat)
    ensures AfterAll(config, Sender(false, 0, 0), TimedOut(quote, k)).retry == k
    ensures AfterAll(config, Sender(false, 0, 0), TimedOut(quote, k)).priced <==> k > 0
  {
    if k > 0 {
      RetryIsCounted(config, quote, k - 1);
      assert TimedOut(quote, k)[..k - 1] == TimedOut(quote, k - 1);
    }
  }

  /** After `k` timed-out attempts at one quote the next price carries the k-th percentage. */
  lemma KthRetry(config: BumpConfig, quote: nat, k: nat)
    ensures var s := AfterAll(config, Sender(false, 0, 0), TimedOut(quote, k));
            s.retry == k && RaisedBy(config, s, quote, NextPrice(config, s, quote))
    ensures var s := AfterAll(config, Sender(false, 0, 0), TimedOut(quote, k));
            100 * NextPrice(config, s, quote) + 99 >= (100 + Percentage(config, k)) * quote
  {
    var s := AfterAll(config, Sender(false, 0, 0), TimedOut(quote, k));
    RetryIsCounted(config, quote, k);
    NextPriceExactly(config, s, quote);
  }

  class ResponseSender {
    var priced: bool
    var gasPrice: nat
    var i: nat

    ghost function State(): Sender
      reads this
    {
      Sender(priced, gasPrice, i)
    }

    constructor ()
      ensures State() == Sender(false, 0, 0)
    {
      priced, gasPrice, i := false, 0, 0;
    }

    /** The pricing part of one call of the retried closure, and its outcome. */
    method Try(config: BumpConfig, a: Attempt)
      modifies this
      ensures State() == AfterAttempt(config, old(State()), a)
      ensures old(priced) && config.limit >= 10 && a.quoted ==> gasPrice >= 110 * old(gasPrice) / 100
      ensures a.quoted ==> priced && RaisedBy(config, old(State()), a.quote, gasPrice)
      ensures i == old(i) + if a.quoted && a.timedOut then 1 else 0
      ensures !a.quoted ==> gasPrice == old(gasPrice) && priced == old(priced)
    {
      if !a.quoted {
        return;
      }
      RetryRaisesPrice(config, State(), a.quote);
      NextPriceExactly(config, State(), a.quote);
      var previousTxGasPrice := a.quote;
      if priced {
        previousTxGasPrice := gasPrice;
      }
      var minimumGasPriceBump := BumpOnRetry(previousTxGasPrice, 10, 0, config.limit, 0);
      var suggestedBumpedGasPrice := BumpOnRetry(a.quote, config.base, config.perRetry, config.limit, i);
      if suggestedBumpedGasPrice > minimumGasPriceBump {
        gasPrice := suggestedBumpedGasPrice;
      } else {
        gasPrice := minimumGasPriceBump;
      }
      priced := true;
      if a.timedOut {
        i := i + 1;
      }
    }
  }

  // --- The batcher's loop ---

  const OVERRIDE_GAS_PRICE_PERCENTAGE_MULTIPLIER: nat := 120
  const GAS_PRICE_INCREMENT_PERCENTAGE_PER_ITERATION: nat := 5

  /** `calculate_bumped_gas_price`. */
  function BumpedGasPrice(previous: nat, current: nat, iteration: nat): nat {
    var multiplier := OVERRIDE_GAS_PRICE_PERCENTAGE_MULTIPLIER +
        GAS_PRICE_INCREMENT_PERCENTAGE_PER_ITERATION * iteration;
    var bumpedPrevious := previous * multiplier / PERCENTAGE_DIVIDER;
    var bumpedCurrent := current * multiplier / PERCENTAGE_DIVIDER;
    if bumpedCurrent > bumpedPrevious then bumpedCurrent else bumpedPrevious
  }

  /** The override of iteration k is the larger of the two prices times 120 and 5 k hundredths, rounded down. */
  lemma OverrideExactly(previous: nat, current: nat, iteration: nat)
    ensures var r := BumpedGasPrice(previous, current, iteration);
            100 * r <= (120 + 5 * iteration) * Larger(previous, current) < 100 * r + 100
  {
    var m := 120 + 5 * iteration;
    if previous < current {
      MulMono(previous, current, m);
      assert previous * m / 100 <= current * m / 100;
    } else {
      MulMono(current, previous, m);
      assert current * m / 100 <= previous * m / 100;
    }
    assert m * Larger(previous, current) == Larger(previous, current) * m;
  }

  /** Along the loop: the k-th transaction is priced by the larger of the one before and the node's price. */
  lemma KthOverride(price: nat, quotes: seq<nat>, k: nat)
    requires k < |quotes|
    ensures var r := AfterOverrides(price, quotes[..k + 1]);
            100 * r <= (120 + 5 * k) * Larger(AfterOverrides(price, quotes[..k]), quotes[k]) < 100 * r + 100
  {
    assert quotes[..k + 1][..k] == quotes[..k];
    OverrideExactly(AfterOverrides(price, quotes[..k]), quotes[k], k);
  }

  /** A price that can replace another: at least 120 hundredths of it, rounded down. */
  predicate Overrides(price: nat, next: nat) {
    next >= 120 * price / 100
  }

  /** An override is at least the override multiplier times the previous price and times the node's price. */
  lemma OverrideRaisesPrice(previous: nat, current: nat, iteration: nat)
    ensures Overrides(previous, BumpedGasPrice(previous, current, iteration))
    ensures Overrides(current, BumpedGasPrice(previous, current, iteration))
  {
    var multiplier := OVERRIDE_GAS_PRICE_PERCENTAGE_MULTIPLIER +
        GAS_PRICE_INCREMENT_PERCENTAGE_PER_ITERATION * iteration;
    MulMono(120, multiplier, previous);
    MulMono(120, multiplier, current);
    DivMono(previous * multiplier, 120 * previous);
    DivMono(current * multiplier, 120 * current);
  }

  lemma DivMono(x: nat, y: nat)
    requires x >= y
    ensures x / PERCENTAGE_DIVIDER >= y / 100
  {
  }

  /** The price after overriding once for each node price, from iteration 0. */
  function AfterOverrides(price: nat, quotes: seq<nat>): nat {
    if quotes == [] then price
    else BumpedGasPrice(AfterOverrides(price, quotes[..|quotes| - 1]), quotes[|quotes| - 1], |quotes| - 1)
  }

  /** For every sequence of node prices, k overrides multiply the price by at least 1.2 to the k, up to a constant of
  four units. */
  lemma {:induction false} OverridesGrowGeometrically(price: nat, quotes: seq<nat>)
    ensures Power(5, |quotes|) * (AfterOverrides(price, quotes) - 4) >= Power(6, |quotes|) * (price - 4)
  {
    if quotes != [] {
      var before := quotes[..|quotes| - 1];
      var p: int := AfterOverrides(price, before);
      OverridesGrowGeometrically(price, before);
      OverrideRaisesPrice(p, quotes[|quotes| - 1], |quotes| - 1);
      GeometricStep(6, 5, |before|, price - 4, p - 4, AfterOverrides(price, quotes) - 4);
    }
  }

  /** Every transaction the loop sends overrides the one before it and the node's price. */
  lemma EveryOverrideReplaces(price: nat, quotes: seq<nat>, k: nat)
    requires k < |quotes|
    ensures Overrides(AfterOverrides(price, quotes[..k]), AfterOverrides(price, quotes[..k + 1]))
    ensures Overrides(quotes[k], AfterOverrides(price, quotes[..k + 1]))
  {
    assert quotes[..k + 1][..k] == quotes[..k];
    OverrideRaisesPrice(AfterOverrides(price, quotes[..k]), quotes[k], k);
  }

  /** The retried closure: quotes that fail leave the iteration and the price alone, so the loop sees the others. */
  method CancelTask(oldGasPrice: nat, quotes: seq<nat>) returns (sent: seq<nat>)
    ensures |sent| == |quotes|
    ensures forall k :: 0 <= k < |sent| ==> sent[k] == AfterOverrides(oldGasPrice, quotes[..k + 1])
  {
    var iteration, previous := 0, oldGasPrice;
    sent := [];
    while iteration < |quotes|
      invariant iteration <= |quotes| && |sent| == iteration
      invariant previous == AfterOverrides(oldGasPrice, quotes[..iteration])
      invariant forall k :: 0 <= k < |sent| ==> sent[k] == AfterOverrides(oldGasPrice, quotes[..k + 1])
    {
      assert quotes[..iteration + 1][..iteration] == quotes[..iteration];
      var bumped := BumpedGasPrice(previous, quotes[iteration], iteration);
      iteration := iteration + 1;
      previous := bumped;
      sent := sent + [bumped];
    }
  }
}
