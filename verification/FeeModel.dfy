/** Gas and fee formulas of batch submission
(crates/batcher/src/lib.rs, crates/batcher/src/types/batch_queue.rs).
Machine integers are unbounded here; division is integer division of naturals, as in the source. */
module FeeModel {
  import opened Basics

  const ADDITIONAL_SUBMISSION_GAS_COST_PER_PROOF: nat := 2_000
  const BATCHER_SUBMISSION_BASE_GAS_COST: nat := 125_000
  const PERCENTAGE_DIVIDER: nat := 100

  function ConstantGasCost(feeMultiplier: nat, aggregatorGas: nat): nat {
    feeMultiplier * aggregatorGas / PERCENTAGE_DIVIDER + BATCHER_SUBMISSION_BASE_GAS_COST
  }

  function FeePerProof(n: nat, gasPrice: nat, constantGas: nat): nat
    requires n > 0
  {
    (constantGas + ADDITIONAL_SUBMISSION_GAS_COST_PER_PROOF * n) / n * gasPrice
  }

  function FeeForAggregator(aggregatorGas: nat, gasPrice: nat, feeMultiplier: nat): nat {
    aggregatorGas * gasPrice * feeMultiplier / PERCENTAGE_DIVIDER
  }

  // --- Integer division ---

  lemma QuotientBounds(c: nat, n: nat)
    requires n > 0
    ensures c / n * n <= c < c / n * n + n
  {
  }

  lemma QuotientAtLeast(c: nat, n: nat, q: nat)
    requires n > 0 && q * n <= c
    ensures q <= c / n
  {
    QuotientBounds(c, n);
    var d := c / n;
    assert q >= d + 1 ==> q * n >= (d + 1) * n;
  }

  lemma QuotientFalls(c: nat, n: nat, m: nat)
    requires 0 < n <= m
    ensures c / m <= c / n
  {
    var q := c / m;
    QuotientBounds(c, m);
    assert q * n <= q * m;
    QuotientAtLeast(c, n, q);
  }

  lemma GasPerProofFalls(c: nat, n: nat, m: nat)
    requires 0 < n <= m
    ensures (c + ADDITIONAL_SUBMISSION_GAS_COST_PER_PROOF * m) / m <=
              (c + ADDITIONAL_SUBMISSION_GAS_COST_PER_PROOF * n) / n
  {
    SplitShare(c, n);
    SplitShare(c, m);
    QuotientFalls(c, n, m);
  }

  lemma SplitShare(c: nat, n: nat)
    requires n > 0
    ensures (c + ADDITIONAL_SUBMISSION_GAS_COST_PER_PROOF * n) / n == c / n + ADDITIONAL_SUBMISSION_GAS_COST_PER_PROOF
  {
    var a := ADDITIONAL_SUBMISSION_GAS_COST_PER_PROOF;
    var total := c + a * n;
    QuotientBounds(c, n);
    assert (c / n + a) * n == c / n * n + a * n;
    assert (c / n + a) * n <= total < (c / n + a) * n + n;
    QuotientAtLeast(total, n, c / n + a);
    QuotientBounds(total, n);
    var d, t := c / n + a, total / n;
    assert t >= d + 1 ==> t * n >= (d + 1) * n;
  }

  // --- What the formulas are ---

  /** The gas that does not depend on the batch: the multiplier's hundredths of the aggregator's gas, rounded down, and
  125000 for the submission. */
  lemma ConstantGasExactly(feeMultiplier: nat, aggregatorGas: nat)
    ensures var c := ConstantGasCost(feeMultiplier, aggregatorGas);
            c >= 125_000 && 100 * (c - 125_000) <= feeMultiplier * aggregatorGas < 100 * (c - 125_000) + 100
  {
  }

  /** Each proof pays the gas price for its whole gas units of an equal share of the constant gas and 2000 per proof. */
  lemma FeePerProofExactly(n: nat, gasPrice: nat, constantGas: nat, share: nat)
    requires share * n <= constantGas + 2_000 * n < share * n + n
    ensures FeePerProof(n, gasPrice, constantGas) == share * gasPrice
  {
    QuotientBounds(constantGas + 2_000 * n, n);
    QuotientAtLeast(constantGas + 2_000 * n, n, share);
    var q := (constantGas + 2_000 * n) / n;
    assert q >= share + 1 ==> q * n >= (share + 1) * n;
  }

  /** What is forwarded to the aggregator: the multiplier's hundredths of its gas cost, rounded down. */
  lemma FeeForAggregatorExactly(aggregatorGas: nat, gasPrice: nat, feeMultiplier: nat)
    ensures var f := FeeForAggregator(aggregatorGas, gasPrice, feeMultiplier);
            100 * f <= aggregatorGas * gasPrice * feeMultiplier < 100 * f + 100
  {
  }

  // --- The fee charged per proof ---

  /** Larger batches are never dearer per proof. */
  lemma FeePerProofFalls(n: nat, m: nat, gasPrice: nat, constantGas: nat)
    requires 0 < n <= m
    ensures FeePerProof(m, gasPrice, constantGas) <= FeePerProof(n, gasPrice, constantGas)
  {
    GasPerProofFalls(constantGas, n, m);
    MulMono((constantGas + ADDITIONAL_SUBMISSION_GAS_COST_PER_PROOF * m) / m,
            (constantGas + ADDITIONAL_SUBMISSION_GAS_COST_PER_PROOF * n) / n, gasPrice);
  }

  /** The batch collects at most its gas cost, and misses it by less than one gas-price unit per proof. */
  lemma CollectedWithinCost(n: nat, gasPrice: nat, constantGas: nat)
    requires n > 0
    ensures n * FeePerProof(n, gasPrice, constantGas) <=
              (constantGas + ADDITIONAL_SUBMISSION_GAS_COST_PER_PROOF * n) * gasPrice
    ensures gasPrice > 0 ==>
              (constantGas + ADDITIONAL_SUBMISSION_GAS_COST_PER_PROOF * n) * gasPrice <
                  n * FeePerProof(n, gasPrice, constantGas) + n * gasPrice
  {
    var total := constantGas + ADDITIONAL_SUBMISSION_GAS_COST_PER_PROOF * n;
    var share := total / n;
    QuotientBounds(total, n);
    assert n * (share * gasPrice) == share * n * gasPrice;
    MulMono(share * n, total, gasPrice);
    if gasPrice > 0 {
      MulMono(total + 1, share * n + n, gasPrice);
      assert (total + 1) * gasPrice == total * gasPrice + gasPrice;
      assert (share * n + n) * gasPrice == share * n * gasPrice + n * gasPrice;
    }
  }

  /** What the payment contract demands of `createNewTask`'s fees: the per-proof fee is not zero and
  the batch collects strictly more than it forwards to the aggregator. Both hold exactly when gas is not free. */
  lemma CollectedExceedsAggregatorFee(n: nat, gasPrice: nat, feeMultiplier: nat, aggregatorGas: nat)
    requires n > 0
    ensures var fee := FeePerProof(n, gasPrice, ConstantGasCost(feeMultiplier, aggregatorGas));
            gasPrice > 0 <==> fee > 0 && n * fee > FeeForAggregator(aggregatorGas, gasPrice, feeMultiplier)
  {
    var g := feeMultiplier * aggregatorGas;
    var c := ConstantGasCost(feeMultiplier, aggregatorGas);
    var fee := FeePerProof(n, gasPrice, c);
    var share := (c + ADDITIONAL_SUBMISSION_GAS_COST_PER_PROOF * n) / n;
    assert fee == share * gasPrice;
    if gasPrice > 0 {
      SplitShare(c, n);
      assert share >= ADDITIONAL_SUBMISSION_GAS_COST_PER_PROOF;
      MulMono(1, share, gasPrice);
      CollectedWithinCost(n, gasPrice, c);
      // collected > (c + 1999 n) gasPrice >= (g/100 + 1) gasPrice > forwarded
      var cost := c + ADDITIONAL_SUBMISSION_GAS_COST_PER_PROOF * n;
      assert cost * gasPrice == (cost - n) * gasPrice + n * gasPrice;
      QuotientBounds(g, PERCENTAGE_DIVIDER);
      MulMono(g / PERCENTAGE_DIVIDER + 1, cost - n, gasPrice);
      assert aggregatorGas * gasPrice * feeMultiplier == g * gasPrice;
      MulMono(g, (g / PERCENTAGE_DIVIDER + 1) * PERCENTAGE_DIVIDER, gasPrice);
      assert (g / PERCENTAGE_DIVIDER + 1) * PERCENTAGE_DIVIDER * gasPrice ==
          (g / PERCENTAGE_DIVIDER + 1) * gasPrice * PERCENTAGE_DIVIDER;
      QuotientBounds(g * gasPrice, PERCENTAGE_DIVIDER);
      assert FeeForAggregator(aggregatorGas, gasPrice, feeMultiplier) <= (g / PERCENTAGE_DIVIDER + 1) * gasPrice;
    }
  }
}
