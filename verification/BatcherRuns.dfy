/** What holds over whole runs of the batcher, in every interleaving of its steps. */
module BatcherRuns {
  import opened Basics
  import opened BatchQueue
  import opened BatchExtraction
  import opened FeeModel
  import opened PaymentService
  import opened BatcherState
  import opened BatcherSteps
  import opened BatcherHazards
  import opened BatchRestore
  import opened RestoreInvariant
  import opened RestoreSafety

  // --- Steps ---

  datatype Step =
    | InsertUser(a: Address, nonceRead: nat)
    | Submit(a: Address, nonce: nat, proof: Proof, balanceRead: nat)
    | SubmitEvicting(a: Address, nonce: nat, proof: Proof, balanceRead: nat, victim: Key, last: nat)
    | Replace(a: Address, nonce: nat, proof: Proof, balanceRead: nat)
    | ExtractBatch(batch: seq<Key>, gasPrice: nat)
    | Charge(batch: seq<Key>, accounts: Accounts)
    | Settle(a: Address)
    | Finish
    | Restore(batch: seq<Key>, m: Merge)
    | RemoveUser(a: Address)
    | FlushQueue(nonPaying: Option<Address>)
    | FlushAndGiveUp(nonPaying: Option<Address>)
    | Deposit(a: Address, amount: nat)

  ghost predicate Enabled(s: State, step: Step) {
    match step
    case InsertUser(a, nonceRead) => true
    case Submit(a, nonce, proof, balanceRead) => CanSubmit(s, a, nonce, proof, balanceRead)
    case SubmitEvicting(a, nonce, proof, balanceRead, victim, last) =>
        CanSubmitEvicting(s, a, nonce, proof, balanceRead, victim, last)
    case Replace(a, nonce, proof, balanceRead) => CanReplace(s, a, nonce, proof, balanceRead)
    case ExtractBatch(batch, gasPrice) => CanExtract(s, batch, gasPrice)
    case Charge(batch, accounts) => CanCharge(s, batch, accounts)
    case Settle(a) => s.paid
    case Finish => s.paid && s.inflight == map[]
    case Restore(batch, m) => s.posting && !s.paid && RestoreRuns(s, batch, m)
    case RemoveUser(a) => true
    case FlushQueue(nonPaying) => true
    case FlushAndGiveUp(nonPaying) => !s.paid
    case Deposit(a, amount) => true
  }

  ghost function Apply(s: State, step: Step): State
    requires Enabled(s, step)
  {
    match step
    case InsertUser(a, nonceRead) => AfterInsert(s, a, nonceRead)
    case Submit(a, nonce, proof, balanceRead) => AfterSubmit(s, a, proof)
    case SubmitEvicting(a, nonce, proof, balanceRead, victim, last) => AfterSubmitEvicting(s, a, proof, victim, last)
    case Replace(a, nonce, proof, balanceRead) => AfterReplace(s, a, nonce, proof)
    case ExtractBatch(batch, gasPrice) => AfterExtract(s, batch, gasPrice)
    case Charge(batch, accounts) => s.(accounts := accounts, paid := true)
    case Settle(a) => AfterSettle(s, a)
    case Finish => s.(posting := false, paid := false)
    case Restore(batch, m) => AfterMerge(s, m)
    case RemoveUser(a) => AfterRemove(s, a)
    case FlushQueue(nonPaying) => AfterFlushQueue(s, nonPaying)
    case FlushAndGiveUp(nonPaying) => AfterFlush(s, nonPaying)
    case Deposit(a, amount) => AfterDeposit(s, a, amount)
  }

  /** What a step must meet to keep the invariant; most steps always do. */
  ghost predicate Safe(s: State, step: Step)
    requires Enabled(s, step)
  {
    match step
    case InsertUser(a, nonceRead) => LaneOf(s.queue, a) == map[] && LaneOf(s.inflight, a) == map[] &&
        nonceRead == NonceOf(s, a)
    case SubmitEvicting(a, nonce, proof, balanceRead, victim, last) =>
        EvictionIsClean(ViewOf(s, victim.sender), victim.nonce, last)
    case Restore(batch, m) => RestoreIsClean(s, m)
    case RemoveUser(a) => LaneOf(s.inflight, a) == map[]
    case FlushQueue(nonPaying) => s.inflight == map[]
    case _ => true
  }

  // --- Runs ---

  ghost predicate Init(s: State) {
    s.queue == map[] && s.inflight == map[] && s.users == map[] && !s.posting && !s.paid
  }

  ghost predicate Run(states: seq<State>, steps: seq<Step>) {
    && |states| == |steps| + 1
    && Init(states[0])
    && forall i :: 0 <= i < |steps| ==> Enabled(states[i], steps[i]) && states[i + 1] == Apply(states[i], steps[i])
  }

  lemma InitInv(s: State)
    requires Init(s)
    ensures Inv(s) && AllCrossOrdered(s)
  {
    forall a ensures ViewInv(ViewOf(s, a)) && CrossOrdered(ViewOf(s, a)) {
      FreshView(ViewOf(s, a), ViewOf(s, a));
    }
  }

  /** A step keeps the invariant exactly when it is safe. */
  lemma StepKeepsInv(s: State, step: Step)
    requires Inv(s) && Enabled(s, step)
    ensures Inv(Apply(s, step)) <==> Safe(s, step)
  {
    match step
    case InsertUser(a, nonceRead) => InsertUserKeepsInv(s, a, nonceRead);
    case Submit(a, nonce, proof, balanceRead) => SubmitKeepsInv(s, a, nonce, proof, balanceRead);
    case SubmitEvicting(a, nonce, proof, balanceRead, victim, last) =>
        EvictSubmitExact(s, a, nonce, proof, balanceRead, victim, last);
    case Replace(a, nonce, proof, balanceRead) => ReplaceKeepsInv(s, a, nonce, proof, balanceRead);
    case ExtractBatch(batch, gasPrice) => ExtractKeepsInv(s, batch, gasPrice);
    case Charge(batch, accounts) => ChargeKeepsInv(s, batch, accounts);
    case Settle(a) => SettleKeepsInv(s, a);
    case Finish => FinishKeepsInv(s);
    case Restore(batch, m) => RestoreExact(s, batch, m);
    case RemoveUser(a) => RemoveUserExact(s, a);
    case FlushQueue(nonPaying) => FlushExact(s, nonPaying);
    case FlushAndGiveUp(nonPaying) => FlushKeepsInv(s, nonPaying);
    case Deposit(a, amount) => DepositKeepsInv(s, a, amount);
  }

  ghost predicate AllSafe(states: seq<State>, steps: seq<Step>)
    requires Run(states, steps)
  {
    forall j :: 0 <= j < |steps| ==> Safe(states[j], steps[j])
  }

  /** A run of safe steps, whatever is replaced, evicted or put back, goes through states with the invariant. */
  lemma {:induction false} RunKeepsInv(states: seq<State>, steps: seq<Step>, i: nat)
    requires Run(states, steps) && AllSafe(states, steps) && i <= |steps|
    ensures Inv(states[i])
  {
    if i == 0 {
      InitInv(states[0]);
    } else {
      RunKeepsInv(states, steps, i - 1);
      StepKeepsInv(states[i - 1], steps[i - 1]);
    }
  }

  /** The invariant holds all along a run exactly when every step of it is safe. */
  lemma RunKeepsInvExactly(states: seq<State>, steps: seq<Step>)
    requires Run(states, steps)
    ensures (forall i :: 0 <= i <= |steps| ==> Inv(states[i])) <==> AllSafe(states, steps)
  {
    if AllSafe(states, steps) {
      forall i | 0 <= i <= |steps| ensures Inv(states[i]) { RunKeepsInv(states, steps, i); }
    }
    if forall i :: 0 <= i <= |steps| ==> Inv(states[i]) {
      forall j | 0 <= j < |steps| ensures Safe(states[j], steps[j]) {
        assert Inv(states[j + 1]);
        StepKeepsInv(states[j], steps[j]);
      }
    }
  }

  // --- Runs in which restoring is always safe ---

  ghost predicate ReplaceIsSafe(s: State, step: Step) {
    step.Replace? ==> StaysBelowInflight(s, step.a, step.proof)
  }

  lemma StepKeepsCrossOrder(s: State, step: Step)
    requires Inv(s) && AllCrossOrdered(s) && Enabled(s, step) && Safe(s, step)
    ensures AllCrossOrdered(Apply(s, step)) <==> ReplaceIsSafe(s, step)
  {
    match step
    case InsertUser(a, nonceRead) => InsertKeepsCrossOrder(s, a, nonceRead);
    case Submit(a, nonce, proof, balanceRead) => SubmitKeepsInv(s, a, nonce, proof, balanceRead);
    case SubmitEvicting(a, nonce, proof, balanceRead, victim, last) =>
        EvictSubmitKeepsCrossOrder(s, a, nonce, proof, balanceRead, victim, last);
    case Replace(a, nonce, proof, balanceRead) => ReplaceKeepsInv(s, a, nonce, proof, balanceRead);
    case ExtractBatch(batch, gasPrice) => ExtractKeepsInv(s, batch, gasPrice);
    case Charge(batch, accounts) => ChargeKeepsInv(s, batch, accounts);
    case Settle(a) => SettleKeepsInv(s, a);
    case Finish => FinishKeepsInv(s);
    case Restore(batch, m) => NothingInFlight(AfterMerge(s, m));
    case RemoveUser(a) => RemoveUserKeepsInv(s, a);
    case FlushQueue(nonPaying) => NothingInFlight(AfterFlushQueue(s, nonPaying));
    case FlushAndGiveUp(nonPaying) => FlushKeepsInv(s, nonPaying);
    case Deposit(a, amount) => DepositKeepsInv(s, a, amount);
  }

  lemma NothingInFlight(s: State)
    requires s.inflight == map[]
    ensures AllCrossOrdered(s)
  {
    forall a ensures CrossOrdered(ViewOf(s, a)) { assert ViewOf(s, a).flying == map[]; }
  }

  lemma InsertKeepsCrossOrder(s: State, a: Address, nonceRead: nat)
    requires Inv(s) && AllCrossOrdered(s) && LaneOf(s.inflight, a) == map[]
    ensures AllCrossOrdered(AfterInsert(s, a, nonceRead))
  {
    var s' := AfterInsert(s, a, nonceRead);
    InsertUserKeepsInv(s, a, nonceRead);
    forall b ensures CrossOrdered(ViewOf(s', b)) {
      if b != a {
        assert ViewOf(s', b) == ViewOf(s, b);
        assert CrossOrdered(ViewOf(s, b));
      } else {
        assert ViewOf(s', b).flying == map[];
      }
    }
  }

  lemma EvictSubmitKeepsCrossOrder(s: State, a: Address, nonce: nat, proof: Proof, balanceRead: nat, k: Key, last: nat)
    requires Inv(s) && AllCrossOrdered(s) && CanSubmitEvicting(s, a, nonce, proof, balanceRead, k, last)
    requires EvictionIsClean(ViewOf(s, k.sender), k.nonce, last)
    ensures AllCrossOrdered(AfterSubmitEvicting(s, a, proof, k, last))
  {
    var s1 := AfterEvict(s, k, last);
    EvictKeepsCrossOrder(s, k, last);
    EvictKeepsInv(s, k, last);
    SubmitEvictingKeepsInv(s, a, nonce, proof, balanceRead, k, last);
    SubmitKeepsInv(s1, a, nonce, proof, balanceRead);
  }

  lemma EvictKeepsCrossOrder(s: State, k: Key, last: nat)
    requires AllCrossOrdered(s) && CanEvict(s, k, last)
    ensures AllCrossOrdered(AfterEvict(s, k, last))
  {
    var s' := AfterEvict(s, k, last);
    EvictedViews(s, k, last);
    forall b ensures CrossOrdered(ViewOf(s', b)) {
      assert CrossOrdered(ViewOf(s, b));
      if b != k.sender { assert ViewOf(s', b) == ViewOf(s, b); }
    }
  }

  /** What can be checked before a step: for a restore there is room, or the queue, the batch and the limit meet the
  condition. */
  ghost predicate SafeBefore(s: State, step: Step)
    requires Enabled(s, step)
  {
    if step.Restore? then CanRestore(s) || SafeToRestore(s, step.batch) else Safe(s, step)
  }

  /** When no replacement outbids one of its sender's in-flight proofs, failed batches may be put back whenever
  there is room for them, and without room when the condition is met. */
  lemma {:induction false} RunWithRestoresKeepsInv(states: seq<State>, steps: seq<Step>, i: nat)
    requires Run(states, steps) && i <= |steps|
    requires forall j :: 0 <= j < |steps| ==> ReplaceIsSafe(states[j], steps[j]) && SafeBefore(states[j], steps[j])
    ensures Inv(states[i]) && AllCrossOrdered(states[i])
  {
    if i == 0 {
      InitInv(states[0]);
    } else {
      RunWithRestoresKeepsInv(states, steps, i - 1);
      StepKeepsBoth(states[i - 1], steps[i - 1]);
    }
  }

  lemma RestoreStepIsClean(s: State, batch: seq<Key>, m: Merge)
    requires Inv(s) && AllCrossOrdered(s) && s.posting && !s.paid && RestoreRuns(s, batch, m)
    requires CanRestore(s) || SafeToRestore(s, batch)
    ensures RestoreIsClean(s, m)
  {
    if CanRestore(s) {
      CrossOrderedNothingOutbid(s);
      RoomIsClean(s, batch, m);
    } else {
      SafeKeepsInv(s, batch, m);
    }
  }

  lemma StepKeepsBoth(s: State, step: Step)
    requires Inv(s) && AllCrossOrdered(s) && Enabled(s, step) && ReplaceIsSafe(s, step) && SafeBefore(s, step)
    ensures Inv(Apply(s, step)) && AllCrossOrdered(Apply(s, step))
  {
    if step.Restore? { RestoreStepIsClean(s, step.batch, step.m); }
    StepKeepsInv(s, step);
    StepKeepsCrossOrder(s, step);
  }

  // --- Proofs are charged in nonce order, once each ---

  /** Only a charge moves contract nonces, each by the sender's in-flight proofs. */
  lemma StepNonce(states: seq<State>, steps: seq<Step>, i: nat, a: Address)
    requires Run(states, steps) && i < |steps|
    ensures NonceOf(states[i + 1], a) ==
              NonceOf(states[i], a) + if steps[i].Charge? then |LaneOf(states[i].inflight, a)| else 0
  {
    var s := states[i];
    match steps[i]
    case Charge(batch, accounts) =>
      InflightShare(s, batch, a);
      assert ChargedFor(s.accounts, accounts, SendersOf(batch), BatchFee(s), a);
    case _ =>
  }

  ghost predicate ChargedAt(states: seq<State>, steps: seq<Step>, i: nat, k: Key)
    requires |states| == |steps| + 1
  {
    i < |steps| && steps[i].Charge? && k in states[i].inflight
  }

  ghost predicate EverCharged(states: seq<State>, steps: seq<Step>, k: Key)
    requires |states| == |steps| + 1
  {
    exists i: nat :: ChargedAt(states, steps, i, k)
  }

  /** Over every run, the contract charges a proof exactly when its nonce lies between the sender's first and
  last contract nonce: none is skipped. */
  lemma {:induction false} ChargedExactly(states: seq<State>, steps: seq<Step>, k: Key)
    requires Run(states, steps) && AllSafe(states, steps)
    ensures EverCharged(states, steps, k) <==>
              NonceOf(states[0], k.sender) <= k.nonce < NonceOf(states[|steps|], k.sender)
    ensures NonceOf(states[0], k.sender) <= NonceOf(states[|steps|], k.sender)
    decreases |steps|
  {
    if steps != [] {
      var n := |steps| - 1;
      var states', steps' := states[..n + 1], steps[..n];
      assert Run(states', steps');
      ChargedExactly(states', steps', k);
      ChargedByStep(states, steps, n, k);
      assert states'[|steps'|] == states[n];
      ChargedSplit(states, steps, k);
    }
  }

  lemma ChargedByStep(states: seq<State>, steps: seq<Step>, n: nat, k: Key)
    requires Run(states, steps) && AllSafe(states, steps) && n < |steps|
    ensures NonceOf(states[n], k.sender) <= NonceOf(states[n + 1], k.sender)
    ensures ChargedAt(states, steps, n, k) <==>
              NonceOf(states[n], k.sender) <= k.nonce < NonceOf(states[n + 1], k.sender)
  {
    RunKeepsInv(states, steps, n);
    StepNonce(states, steps, n, k.sender);
    if steps[n].Charge? {
      InflightAreNextNonces(states[n], k.sender);
      assert k in states[n].inflight <==> k.nonce in LaneOf(states[n].inflight, k.sender) by {
        assert k == Key(k.sender, k.nonce);
      }
    }
  }

  lemma ChargedSplit(states: seq<State>, steps: seq<Step>, k: Key)
    requires |states| == |steps| + 1 && steps != []
    ensures var n := |steps| - 1;
            EverCharged(states, steps, k) <==>
                      EverCharged(states[..n + 1], steps[..n], k) || ChargedAt(states, steps, n, k)
  {
    var n := |steps| - 1;
    var states', steps' := states[..n + 1], steps[..n];
    if EverCharged(states, steps, k) {
      var i: nat :| ChargedAt(states, steps, i, k);
      assert i < n ==> ChargedAt(states', steps', i, k);
    }
    if EverCharged(states', steps', k) {
      var i: nat :| ChargedAt(states', steps', i, k);
      assert ChargedAt(states, steps, i, k);
    }
  }

  /** Nonces of a sender never go back. */
  lemma NoncesNeverFall(states: seq<State>, steps: seq<Step>, i: nat, j: nat, a: Address)
    requires Run(states, steps) && i <= j <= |steps|
    ensures NonceOf(states[i], a) <= NonceOf(states[j], a)
  {
    forall t | 0 <= t < |steps| ensures NonceOf(states[t], a) <= NonceOf(states[t + 1], a) {
      StepNonce(states, steps, t, a);
    }
    for t := i to j
      invariant NonceOf(states[i], a) <= NonceOf(states[t], a)
    {
    }
  }

  /** No proof is charged twice. */
  lemma ChargedOnce(states: seq<State>, steps: seq<Step>, i: nat, j: nat, k: Key)
    requires Run(states, steps) && AllSafe(states, steps)
    requires ChargedAt(states, steps, i, k) && ChargedAt(states, steps, j, k)
    ensures i == j
  {
    if i < j {
      ChargedBefore(states, steps, i, j, k);
    } else if j < i {
      ChargedBefore(states, steps, j, i, k);
    }
  }

  lemma ChargedBefore(states: seq<State>, steps: seq<Step>, i: nat, j: nat, k: Key)
    requires Run(states, steps) && AllSafe(states, steps)
    requires ChargedAt(states, steps, i, k) && i < j < |steps| && steps[j].Charge?
    ensures k !in states[j].inflight
  {
    RunKeepsInv(states, steps, i);
    RunKeepsInv(states, steps, j);
    assert k == Key(k.sender, k.nonce);
    InflightAreNextNonces(states[i], k.sender);
    InflightAreNextNonces(states[j], k.sender);
    StepNonce(states, steps, i, k.sender);
    NoncesNeverFall(states, steps, i + 1, j, k.sender);
    assert k.nonce in LaneOf(states[i].inflight, k.sender);
    assert k.nonce !in LaneOf(states[j].inflight, k.sender);
  }

  // --- Solvency ---

  /** In every state satisfying the invariant, the contract call for the in-flight batch cannot revert: every
  sender can pay for all of their proofs, and with a positive gas price the fees are well formed. */
  lemma ChargeNeverReverts(s: State, batch: seq<Key>)
    requires Inv(s) && s.posting && !s.paid && Lists(batch, s.inflight)
    ensures forall a :: BatchFee(s) * Times(SendersOf(batch), a) <= AccountOf(s.accounts, a).balance
    ensures batch != []
    ensures s.gasPrice > 0 <==>
              && BatchFee(s) > 0
              && BatchFee(s) * |SendersOf(batch)| >
                  FeeForAggregator(s.config.aggregatorGas, s.gasPrice, s.config.feeMultiplier)
  {
    var fee := BatchFee(s);
    forall a ensures fee * Times(SendersOf(batch), a) <= AccountOf(s.accounts, a).balance {
      ViewHolds(s, a);
      InflightShare(s, batch, a);
      FeesAtLeast(LaneOf(s.inflight, a), fee);
    }
    PartSize(s.inflight, batch);
    assert Part(s.inflight, s.inflight.Keys) == s.inflight;
    CollectedExceedsAggregatorFee(|batch|, s.gasPrice, s.config.feeMultiplier, s.config.aggregatorGas);
  }

  // --- The cached record against a recomputation ---

  lemma MinFeeUnique(m: Lane, v: nat, w: nat, default: nat)
    requires IsMinFee(m, v, default) && IsMinFee(m, w, default)
    ensures v == w
  {
  }

  /** Whenever a sender has nothing in flight, the record kept step by step is the one computed from the queue. */
  lemma CacheEqualsRecomputed(s: State, a: Address)
    requires Inv(s) && a in s.users && LaneOf(s.inflight, a) == map[]
    ensures s.users[a] == Recomputed(s.users[a].nonce, LaneOf(s.queue, a))
  {
    ViewHolds(s, a);
    var lane := LaneOf(s.queue, a);
    MinFeeUnique(lane, s.users[a].lastMaxFeeLimit, MinFee(lane, U256_MAX), U256_MAX);
  }

  /** `cleanup_user_states_after_successful_submission` resets the limit of users without proofs. It changes
  nothing: settling has already done it, and every later step keeps it. */
  lemma CleanupChangesNothing(s: State, a: Address)
    requires Inv(s) && a in s.users && LaneOf(s.inflight, a) == map[] && LaneOf(s.queue, a) == map[]
    ensures s.users[a := s.users[a].(lastMaxFeeLimit := U256_MAX)] == s.users
  {
    ViewHolds(s, a);
  }

  /** Extracting a batch and putting it straight back changes no queued proof and no record. */
  lemma ExtractRestoreRoundTrip(s: State, batch: seq<Key>, gasPrice: nat)
    requires Inv(s) && CanExtract(s, batch, gasPrice)
    ensures CanRestore(AfterExtract(s, batch, gasPrice))
    ensures AfterRestore(AfterExtract(s, batch, gasPrice)) == s.(gasPrice := gasPrice)
  {
    var s1 := AfterExtract(s, batch, gasPrice);
    SplitQueue(s.queue, batch);
    forall a | a in s.users ensures Recomputed(s.users[a].nonce, LaneOf(s.queue, a)) == s.users[a] {
      assert LaneOf(s.inflight, a) == map[];
      CacheEqualsRecomputed(s, a);
    }
    RestoreUnchanged(s1, s.queue);
  }

  lemma SplitQueue(q: Queue, batch: seq<Key>)
    requires NoDuplicates(batch) && KeySet(batch) <= q.Keys
    ensures (q - KeySet(batch)) + Part(q, KeySet(batch)) == q
    ensures |q - KeySet(batch)| + |Part(q, KeySet(batch))| == |q|
  {
    PartSize(q, batch);
    assert (q - KeySet(batch)).Keys == q.Keys - KeySet(batch);
  }

  lemma RestoreUnchanged(s: State, queue: Queue)
    requires s.queue + s.inflight == queue
    requires forall a :: a in s.users ==> Recomputed(s.users[a].nonce, LaneOf(queue, a)) == s.users[a]
    ensures AfterRestore(s) == s.(queue := queue, inflight := map[], posting := false)
  {
    assert AfterRestore(s).users == s.users;
  }
}
