/** The payment contract's `createNewTask` (contracts/src/core/BatcherPaymentService.sol): the only place where
the batcher's users are charged. Storage reads of unknown users give the zero record. */
module PaymentService {
  import opened Basics
  import opened BatchQueue

  datatype Account = Account(nonce: nat, balance: nat)

  type Accounts = map<Address, Account>

  datatype Outcome =
    | Charged(accounts: Accounts)
    | NoProofSubmitters
    | NoFeePerProof
    | InsufficientFeeForAggregator
    | SubmissionInsufficientBalance(user: Address)

  function AccountOf(accounts: Accounts, a: Address): (r: Account)
    ensures a in accounts ==> r == accounts[a]
    ensures a !in accounts ==> r.nonce == 0 && r.balance == 0
  {
    if a in accounts then accounts[a] else Account(0, 0)
  }

  /** How many of the submitted proofs belong to `a`. */
  ghost function Times(submitters: seq<Address>, a: Address): nat {
    if submitters == [] then 0 else
      Times(submitters[..|submitters| - 1], a) + if submitters[|submitters| - 1] == a then 1 else 0
  }

  lemma {:induction false} TimesPrefix(submitters: seq<Address>, i: nat, a: Address)
    requires i <= |submitters|
    ensures Times(submitters[..i], a) <= Times(submitters, a)
  {
    if i == |submitters| {
      assert submitters[..i] == submitters;
    } else {
      var shorter := submitters[..|submitters| - 1];
      TimesPrefix(shorter, i, a);
      assert shorter[..i] == submitters[..i];
    }
  }

  /** Each of `a`'s proofs bumps its nonce once and takes the fee once. */
  ghost predicate ChargedFor(before: Accounts, after: Accounts, submitters: seq<Address>, fee: nat, a: Address) {
    && AccountOf(after, a).nonce == AccountOf(before, a).nonce + Times(submitters, a)
    && AccountOf(after, a).balance + fee * Times(submitters, a) == AccountOf(before, a).balance
  }

  ghost predicate AllCharged(before: Accounts, after: Accounts, submitters: seq<Address>, fee: nat) {
    forall a :: ChargedFor(before, after, submitters, fee, a)
  }

  lemma ChargeStep(before: Accounts, mid: Accounts, after: Accounts, submitters: seq<Address>, i: nat, fee: nat)
    requires i < |submitters| && AllCharged(before, mid, submitters[..i], fee)
    requires var u := AccountOf(mid, submitters[i]);
             fee <= u.balance && after == mid[submitters[i] := Account(u.nonce + 1, u.balance - fee)]
    ensures AllCharged(before, after, submitters[..i + 1], fee)
  {
    var longer := submitters[..i + 1];
    assert longer[..i] == submitters[..i];
    forall a ensures ChargedFor(before, after, longer, fee, a) {
      assert ChargedFor(before, mid, submitters[..i], fee, a);
      var t := Times(submitters[..i], a);
      assert fee * (t + 1) == fee * t + fee;
    }
  }

  /** Submitter number `i` is the first whose proofs up to there cost more than their balance. */
  ghost predicate FirstUnpaid(accounts: Accounts, submitters: seq<Address>, fee: nat, i: nat) {
    && i < |submitters|
    && fee * Times(submitters[..i + 1], submitters[i]) > AccountOf(accounts, submitters[i]).balance
    && forall a :: fee * Times(submitters[..i], a) <= AccountOf(accounts, a).balance
  }

  lemma AllCanPay(before: Accounts, after: Accounts, submitters: seq<Address>, fee: nat)
    requires AllCharged(before, after, submitters, fee)
    ensures forall a :: fee * Times(submitters, a) <= AccountOf(before, a).balance
  {
    forall a ensures fee * Times(submitters, a) <= AccountOf(before, a).balance {
      assert ChargedFor(before, after, submitters, fee, a);
    }
  }

  lemma CannotPay(before: Accounts, mid: Accounts, submitters: seq<Address>, fee: nat, i: nat)
    requires i < |submitters| && AllCharged(before, mid, submitters[..i], fee)
    requires AccountOf(mid, submitters[i]).balance < fee
    ensures FirstUnpaid(before, submitters, fee, i)
    ensures fee * Times(submitters, submitters[i]) > AccountOf(before, submitters[i]).balance
  {
    var user, shorter, longer := submitters[i], submitters[..i], submitters[..i + 1];
    AllCanPay(before, mid, shorter, fee);
    assert ChargedFor(before, mid, shorter, fee, user);
    assert longer[..i] == shorter && Times(longer, user) == Times(shorter, user) + 1;
    TimesPrefix(submitters, i + 1, user);
    OneMoreCosts(fee, Times(shorter, user), Times(longer, user));
    OneMoreCosts(fee, Times(shorter, user), Times(submitters, user));
  }

  lemma OneMoreCosts(fee: nat, t: nat, n: nat)
    requires t < n
    ensures fee * t + fee <= fee * n
  {
    MulMono(t + 1, n, fee);
    assert (t + 1) * fee == fee * t + fee && n * fee == fee * n;
  }

  /** The task is created exactly when the fees are well formed and every submitter can pay for all of their
  proofs; then every account is charged for exactly its own proofs. */
  method CreateNewTask(accounts: Accounts, submitters: seq<Address>, feeForAggregator: nat, feePerProof: nat)
    returns (r: Outcome)
    ensures r.Charged? <==>
              && submitters != []
              && feePerProof > 0
              && feePerProof * |submitters| > feeForAggregator
              && forall a :: feePerProof * Times(submitters, a) <= AccountOf(accounts, a).balance
    ensures r.Charged? ==> AllCharged(accounts, r.accounts, submitters, feePerProof)
    ensures r.NoProofSubmitters? <==> submitters == []
    ensures r.NoFeePerProof? <==> submitters != [] && feePerProof == 0
    ensures r.InsufficientFeeForAggregator? <==>
              submitters != [] && feePerProof > 0 && feePerProof * |submitters| <= feeForAggregator
    ensures r.SubmissionInsufficientBalance? ==>
              && feePerProof * Times(submitters, r.user) > AccountOf(accounts, r.user).balance
              && exists i: nat :: FirstUnpaid(accounts, submitters, feePerProof, i) && submitters[i] == r.user
  {
    if |submitters| == 0 { return NoProofSubmitters; }
    if feePerProof == 0 { return NoFeePerProof; }
    if feePerProof * |submitters| <= feeForAggregator { return InsufficientFeeForAggregator; }
    var cur := accounts;
    for i := 0 to |submitters|
      invariant AllCharged(accounts, cur, submitters[..i], feePerProof)
    {
      var user := submitters[i];
      var info := AccountOf(cur, user);
      if info.balance < feePerProof {
        CannotPay(accounts, cur, submitters, feePerProof, i);
        return SubmissionInsufficientBalance(user);
      }
      var next := cur[user := Account(info.nonce + 1, info.balance - feePerProof)];
      ChargeStep(accounts, cur, next, submitters, i, feePerProof);
      cur := next;
    }
    assert submitters[..|submitters|] == submitters;
    AllCanPay(accounts, cur, submitters, feePerProof);
    return Charged(cur);
  }
}
