/** The batcher's handlers (crates/batcher/src/lib.rs) over their shared fields. Each handler is proved to take
the state machine's step, so that everything proved of the steps and of runs holds of the code. */
module BatcherService {
  import opened Basics
  import opened BatchQueue
  import opened BatchExtraction
  import opened BatchChoice
  import opened FeeModel
  import opened PaymentService
  import opened BatcherState
  import opened BatcherSteps
  import opened BatcherHazards
  import opened BatchRestore
  import opened RestoreInvariant
  import opened RestoreSafety
  import opened BatcherRuns
  import opened UserTotals

  datatype Response =
    | Accepted
    | AcceptedEvicting(victim: Key, last: nat)
    | Replaced
    | InsufficientBalance
    | InvalidNonce
    | InvalidMaxFee
    | InvalidProof
    | UnderpricedProof
    | InvalidReplacementMessage

  /** The fee is below the old one raised by the percentage, rounded down. */
  ghost predicate BumpTooSmall(maxFee: nat, percentage: nat, fee: nat) {
    100 * fee + 99 < (100 + percentage) * maxFee
  }

  /** Every queued proof of the sender with a lower nonce pays at least this fee. */
  ghost predicate LowerPayAsMuch(q: Queue, a: Address, nonce: nat, fee: nat) {
    forall k :: k in q && k.sender == a && k.nonce < nonce ==> fee <= q[k].maxFee
  }

  /** The answer to a replacement message, each with its exact cause. */
  ghost predicate ReplacementAnswer(s: State, a: Address, nonce: nat, proof: Proof, verified: bool, r: Response) {
    var k := Key(a, nonce);
    if k !in s.queue then r.InvalidNonce?
    else if BumpTooSmall(s.queue[k].maxFee, s.config.minBumpPercentage, proof.maxFee) then r.UnderpricedProof?
    else if !verified then r.InvalidProof?
    else if !LowerPayAsMuch(s.queue, a, nonce, proof.maxFee) then r.InvalidReplacementMessage?
    else r.Replaced?
  }

  /** The answer to a message, each with its exact cause. `available` says that a full queue holds a proof to evict. */
  ghost predicate Answer(s: State, a: Address, nonce: nat, proof: Proof, balanceRead: nat, verified: bool,
      available: bool, r: Response)
    requires a in s.users
  {
    var u := s.users[a];
    if balanceRead < u.totalFeesInQueue + proof.maxFee then r.InsufficientBalance?
    else if nonce > u.nonce then r.InvalidNonce?
    else if nonce < u.nonce then ReplacementAnswer(s, a, nonce, proof, verified, r)
    else if proof.maxFee > u.lastMaxFeeLimit then r.InvalidMaxFee?
    else if !verified then r.InvalidProof?
    else if |s.queue| < s.config.maxSize then r.Accepted?
    else if available then r.AcceptedEvicting?
    else r.UnderpricedProof?
  }

  datatype BlockResult = NotReady | Posted | Failed

  // --- Reading the queue ---

  /** Lists the queue in some order. */
  method ListQueue(q: Queue) returns (order: seq<Key>)
    ensures Lists(order, q)
  {
    order := Drain(q);
  }

  ghost predicate CheaperAt(q: Queue, order: seq<Key>, i: int, fee: nat) {
    0 <= i < |order| && order[i] in q && q[order[i]].maxFee < fee
  }

  /** The proof at this place is cheaper and its sender's lock can be had. The submitter's own lock is held. */
  ghost predicate AvailableAt(q: Queue, order: seq<Key>, locks: seq<bool>, users: map<Address, UserState>,
      submitter: Address, fee: nat, i: int) {
    && CheaperAt(q, order, i, fee) && i < |locks| && locks[i]
    && order[i].sender in users && order[i].sender != submitter
  }

  ghost predicate Available(q: Queue, order: seq<Key>, locks: seq<bool>, users: map<Address, UserState>,
      submitter: Address, fee: nat) {
    exists i :: AvailableAt(q, order, locks, users, submitter, fee, i)
  }

  /** `k` is the first cheaper proof of its sender. */
  ghost predicate IsFirstCheaper(q: Queue, order: seq<Key>, k: Key, fee: nat) {
    exists j :: CheaperAt(q, order, j, fee) && order[j] == k &&
      forall i :: CheaperAt(q, order, i, fee) && order[i].sender == k.sender ==> j <= i
  }

  /** `sender` is that of the first available place. */
  ghost predicate IsFirstSender(q: Queue, order: seq<Key>, locks: seq<bool>, users: map<Address, UserState>,
      submitter: Address, fee: nat, sender: Address) {
    exists i :: AvailableAt(q, order, locks, users, submitter, fee, i) && order[i].sender == sender &&
      forall j :: AvailableAt(q, order, locks, users, submitter, fee, j) ==> i <= j
  }

  /** `k` is what the search evicts. */
  ghost predicate IsVictim(q: Queue, order: seq<Key>, locks: seq<bool>, users: map<Address, UserState>,
      submitter: Address, fee: nat, k: Key) {
    && k in q && q[k].maxFee < fee && k.sender in users && k.sender != submitter
    && IsFirstSender(q, order, locks, users, submitter, fee, k.sender)
    && IsFirstCheaper(q, order, k, fee)
  }

  /** The search for a proof to evict. The queue is walked in iteration order; a cheaper proof's sender is tried by
  `try_lock`, which may fail each time and always fails for the submitter, whose lock is held. On success the
  sender's first cheaper proof goes. */
  method FindVictim(q: Queue, order: seq<Key>, locks: seq<bool>, users: map<Address, UserState>, submitter: Address,
      fee: nat)
    returns (r: Option<Key>)
    requires Lists(order, q) && |locks| == |order|
    ensures r.Some? <==> Available(q, order, locks, users, submitter, fee)
    ensures r.Some? ==> IsVictim(q, order, locks, users, submitter, fee, r.value)
  {
    for i := 0 to |order|
      invariant forall j :: 0 <= j < i ==> !AvailableAt(q, order, locks, users, submitter, fee, j)
    {
      assert order[i] in KeySet(order);
      if q[order[i]].maxFee < fee && order[i].sender in users && order[i].sender != submitter && locks[i] {
        assert AvailableAt(q, order, locks, users, submitter, fee, i);
        var j := FirstCheaper(q, order, order[i].sender, fee, i);
        return Some(order[j]);
      }
    }
    return None;
  }

  method FirstCheaper(q: Queue, order: seq<Key>, sender: Address, fee: nat, at: nat) returns (j: nat)
    requires Lists(order, q) && CheaperAt(q, order, at, fee) && order[at].sender == sender
    ensures j <= at && CheaperAt(q, order, j, fee) && order[j].sender == sender
    ensures forall i :: CheaperAt(q, order, i, fee) && order[i].sender == sender ==> j <= i
  {
    j := 0;
    while !(order[j].sender == sender && q[order[j]].maxFee < fee)
      invariant j <= at && order[j] in q
      invariant forall i :: 0 <= i < j ==> !(CheaperAt(q, order, i, fee) && order[i].sender == sender)
      decreases at - j
    {
      j := j + 1;
      assert order[j] in KeySet(order);
    }
  }

  /** `last` is the nonce of the sender's proof that the queue iterates last, or 0 when there is none. */
  ghost predicate LastIterated(order: seq<Key>, sender: Address, last: nat) {
    || (last == 0 && forall j :: 0 <= j < |order| ==> order[j].sender != sender)
    || exists i :: 0 <= i < |order| && order[i] == Key(sender, last) && forall j :: i < j < |order| ==>
        order[j].sender != sender
  }

  /** The sender's last proof in iteration order. */
  method LastProof(order: seq<Key>, sender: Address) returns (r: Option<Key>)
    ensures r.None? <==> forall j :: 0 <= j < |order| ==> order[j].sender != sender
    ensures r.Some? ==> r.value in order && r.value.sender == sender && LastIterated(order, sender, r.value.nonce)
  {
    var i := |order|;
    while i > 0
      invariant 0 <= i <= |order| && forall j :: i <= j < |order| ==> order[j].sender != sender
    {
      i := i - 1;
      if order[i].sender == sender {
        assert order[i] == Key(sender, order[i].nonce);
        return Some(order[i]);
      }
    }
    return None;
  }

  /** All that an accepted message passes apart from room in the queue. */
  ghost predicate Admissible(s: State, a: Address, nonce: nat, proof: Proof, balanceRead: nat) {
    Funded(s, a, proof, balanceRead) && nonce == s.users[a].nonce && proof.maxFee <= s.users[a].lastMaxFeeLimit
  }

  const GAS_PRICE_PERCENTAGE_MULTIPLIER: nat := 110

  /** The quoted price raised by 10%, rounded down. */
  function SubmissionGasPrice(quoted: nat): (r: nat)
    ensures 100 * r <= 110 * quoted < 100 * r + 100
    ensures r > 0 <==> quoted > 0
  {
    quoted * GAS_PRICE_PERCENTAGE_MULTIPLIER / PERCENTAGE_DIVIDER
  }

  ghost predicate SameNonces(before: map<Address, UserState>, after: map<Address, UserState>) {
    after.Keys == before.Keys && forall a :: a in after ==> after[a].nonce == before[a].nonce
  }

  /** The terms of a batch at a quoted gas price: 110 hundredths of it, rounded down, the configured limits, and as
  constant gas the multiplier's hundredths of the aggregator's gas, rounded down, and 125000. */
  ghost predicate Terms(c: Config, quoted: nat, l: Limits) {
    && 100 * l.gasPrice <= 110 * quoted < 100 * l.gasPrice + 100
    && l.maxBytes == c.maxBytes && l.maxProofs == c.maxProofs
    && l.constantGas >= 125_000
    && 100 * (l.constantGas - 125_000) <= c.feeMultiplier * c.aggregatorGas < 100 * (l.constantGas - 125_000) + 100
  }

  lemma TermsExactly(c: Config, quoted: nat, l: Limits)
    ensures Terms(c, quoted, l) <==> l == LimitsOf(c, SubmissionGasPrice(quoted))
  {
    ConstantGasExactly(c.feeMultiplier, c.aggregatorGas);
  }

  /** Every sender pays, for each of their proofs, the gas price for the whole gas units of an equal share. */
  ghost predicate ChargedShares(before: Accounts, after: Accounts, batch: seq<Key>, l: Limits) {
    forall share: nat :: IsShare(share, |batch|, l) ==> AllCharged(before, after, SendersOf(batch), share * l.gasPrice)
  }

  ghost predicate IsShare(share: nat, n: nat, l: Limits) {
    share * n <= l.constantGas + 2_000 * n < share * n + n
  }

  lemma FeeIsShare(before: Accounts, after: Accounts, batch: seq<Key>, l: Limits)
    requires batch != []
    requires AllCharged(before, after, SendersOf(batch), FeePerProof(|batch|, l.gasPrice, l.constantGas))
    ensures ChargedShares(before, after, batch, l)
  {
    forall share: nat | IsShare(share, |batch|, l)
      ensures AllCharged(before, after, SendersOf(batch), share * l.gasPrice)
    {
      FeePerProofExactly(|batch|, l.gasPrice, l.constantGas, share);
    }
  }

  method TakePart(q: Queue, batch: seq<Key>) returns (part: Queue)
    requires KeySet(batch) <= q.Keys
    ensures part == Part(q, KeySet(batch))
  {
    assert forall k :: k in batch ==> k in KeySet(batch);
    part := map k | k in batch :: q[k];
  }

  method DropSender(q: Queue, a: Address) returns (left: Queue)
    ensures left == Without(q, a)
  {
    left := map k | k in q && k.sender != a :: q[k];
  }

  method RestoredSenders(f: Queue, dropped: Queue) returns (senders: set<Address>)
    ensures forall a :: a in senders <==> exists k :: k in f && k !in dropped && k.sender == a
  {
    senders := set k | k in f.Keys && k !in dropped :: k.sender;
  }

  /** The senders of restored proofs get their records rewritten from the merged queue. */
  method RewriteRestored(ghost s: State, m: Merge, f: Queue) returns (users: map<Address, UserState>)
    requires f == s.inflight
    ensures users == AfterMerge(s, m).users
  {
    var order := ListQueue(m.queue);
    var totals := CalculateTotals(m.queue, order);
    var restored := RestoredSenders(f, m.dropped);
    users := map a | a in m.users :: if a in restored then RecordFrom(m.users[a].nonce, totals, a) else m.users[a];
    RewrittenRecords(s, m, totals, restored, users);
  }

  lemma RewrittenRecords(s: State, m: Merge, totals: map<Address, Totals>, restored: set<Address>, users: map<Address,
      UserState>)
    requires AllTotals(m.queue, totals)
    requires forall a :: a in restored <==> WasRestored(s, m, a)
    requires users == map a | a in m.users :: if a in restored then RecordFrom(m.users[a].nonce, totals,
               a) else m.users[a]
    ensures users == AfterMerge(s, m).users
  {
    forall a | a in m.users ensures users[a] == AfterMerge(s, m).users[a] {
      RecordIsRecomputed(m.queue, totals, m.users[a].nonce, a);
    }
  }

  class Batcher {
    const config: Config
    const minBlockInterval: nat

    var queue: Queue
    var users: map<Address, UserState>
    var posting: bool
    var lastUploadedBatchBlock: nat

    /** The batch `handle_new_block` is finalizing, and the contract's storage. */
    var inflight: Queue
    var paid: bool
    var gasPrice: nat
    var accounts: Accounts

    ghost function Abs(): State
      reads this
    {
      State(config, queue, inflight, posting, paid, gasPrice, users, accounts)
    }

    constructor (config: Config, minBlockInterval: nat, lastBlock: nat, accounts: Accounts)
      ensures Init(Abs()) && Inv(Abs()) && this.accounts == accounts && this.config == config
      ensures lastUploadedBatchBlock == lastBlock
    {
      this.config, this.minBlockInterval, this.lastUploadedBatchBlock := config, minBlockInterval, lastBlock;
      this.queue, this.inflight, this.users := map[], map[], map[];
      this.posting, this.paid, this.gasPrice := false, false, 0;
      this.accounts := accounts;
      new;
      InitInv(Abs());
    }

    /** The insert the handler makes after finding no record and reading the nonce; it does not look again. */
    method InsertUser(a: Address, nonceRead: nat)
      requires Inv(Abs())
      modifies this`users
      ensures Abs() == AfterInsert(old(Abs()), a, nonceRead)
      ensures Inv(Abs()) <==>
                LaneOf(queue, a) == map[] && LaneOf(inflight, a) == map[] && nonceRead == NonceOf(Abs(), a)
    {
      InsertUserKeepsInv(Abs(), a, nonceRead);
      users := users[a := NewUser(nonceRead)];
    }

    /** First contact with no other handler in between: a record starting from the contract's nonce, if there is
    none. */
    method CreateUser(a: Address)
      requires Inv(Abs())
      modifies this`users
      ensures Abs() == AfterCreate(old(Abs()), a) && Inv(Abs())
    {
      CreateUserKeepsInv(Abs(), a);
      if a !in users {
        var nonce := AccountOf(accounts, a).nonce;
        InsertUser(a, nonce);
      }
    }

    /** `handle_submit_proof_msg` from the user lock on. A message is accepted, evicts or replaces a queued proof
    exactly when the corresponding step is possible and the proof verifies; every rejection leaves the state alone;
    and the invariant survives unless an eviction was not clean. `order` is the queue's iteration order, `after`
    that order once a proof has been removed. */
    method HandleSubmitProof(a: Address, nonce: nat, proof: Proof, balanceRead: nat, verified: bool, order: seq<Key>,
        locks: seq<bool>, after: Key -> seq<Key>)
      returns (r: Response)
      requires Inv(Abs()) && a in users && BalanceRead(ViewOf(Abs(), a), balanceRead)
      requires Lists(order, queue) && |locks| == |order| && forall k :: k in queue ==> Lists(after(k), queue - {k})
      modifies this`queue, this`users
      ensures r.Accepted? <==> verified && CanSubmit(old(Abs()), a, nonce, proof, balanceRead)
      ensures r.Accepted? ==> Abs() == AfterSubmit(old(Abs()), a, proof)
      ensures r.Replaced? <==> verified && CanReplace(old(Abs()), a, nonce, proof, balanceRead)
      ensures r.Replaced? ==> Abs() == AfterReplace(old(Abs()), a, nonce, proof)
      ensures r.AcceptedEvicting? <==>
                && verified && Admissible(old(Abs()), a, nonce, proof, balanceRead) && |old(queue)| >= config.maxSize
                && Available(old(queue), order, locks, old(users), a, proof.maxFee)
      ensures r.AcceptedEvicting? ==>
                && IsVictim(old(queue), order, locks, old(users), a, proof.maxFee, r.victim)
                && LastIterated(after(r.victim), r.victim.sender, r.last)
                && CanSubmitEvicting(old(Abs()), a, nonce, proof, balanceRead, r.victim, r.last)
                && Abs() == AfterSubmitEvicting(old(Abs()), a, proof, r.victim, r.last)
      ensures !r.Accepted? && !r.AcceptedEvicting? && !r.Replaced? ==> Abs() == old(Abs())
      ensures Answer(old(Abs()), a, nonce, proof, balanceRead, verified,
                     Available(old(queue), order, locks, old(users), a, proof.maxFee), r)
      ensures Inv(Abs()) <==>
                (r.AcceptedEvicting? ==> EvictionIsClean(ViewOf(old(Abs()), r.victim.sender), r.victim.nonce, r.last))
    {
      var u := users[a];
      if balanceRead < u.totalFeesInQueue + proof.maxFee { return InsufficientBalance; }
      if u.nonce < nonce { return InvalidNonce; }
      if nonce < u.nonce {
        r := HandleReplacementMessage(a, nonce, proof, balanceRead, verified);
        return;
      }
      if u.lastMaxFeeLimit < proof.maxFee { return InvalidMaxFee; }
      if !verified { return InvalidProof; }
      if |queue| >= config.maxSize {
        r := Evict(a, nonce, proof, balanceRead, order, locks, after);
      } else {
        SubmitKeepsInv(Abs(), a, nonce, proof, balanceRead);
        AddToBatch(a, proof);
        r := Accepted;
      }
    }

    /** Pushes the proof and updates the sender's record. */
    method AddToBatch(a: Address, proof: Proof)
      requires a in users
      modifies this`queue, this`users
      ensures Abs() == AfterSubmit(old(Abs()), a, proof)
    {
      var u := users[a];
      queue := queue[Key(a, u.nonce) := proof];
      users := users[a := UserState(u.nonce + 1, proof.maxFee, u.totalFeesInQueue + proof.maxFee, u.proofsInBatch + 1)];
    }

    /** The full-queue branch: evict a cheaper proof of a sender whose lock is free, or reject when there is none. */
    method Evict(a: Address, nonce: nat, proof: Proof, balanceRead: nat, order: seq<Key>, locks: seq<bool>,
        after: Key -> seq<Key>)
      returns (r: Response)
      requires Inv(Abs()) && Admissible(Abs(), a, nonce, proof, balanceRead) && |queue| >= config.maxSize
      requires Lists(order, queue) && |locks| == |order| && forall k :: k in queue ==> Lists(after(k), queue - {k})
      modifies this`queue, this`users
      ensures r.UnderpricedProof? || r.AcceptedEvicting?
      ensures r.AcceptedEvicting? <==> Available(old(queue), order, locks, old(users), a, proof.maxFee)
      ensures r.UnderpricedProof? ==> Abs() == old(Abs())
      ensures r.AcceptedEvicting? ==>
                && IsVictim(old(queue), order, locks, old(users), a, proof.maxFee, r.victim)
                && LastIterated(after(r.victim), r.victim.sender, r.last)
                && CanSubmitEvicting(old(Abs()), a, nonce, proof, balanceRead, r.victim, r.last)
                && Abs() == AfterSubmitEvicting(old(Abs()), a, proof, r.victim, r.last)
                && (Inv(Abs()) <==> EvictionIsClean(ViewOf(old(Abs()), r.victim.sender), r.victim.nonce, r.last))
    {
      ghost var s := Abs();
      var victim := FindVictim(queue, order, locks, users, a, proof.maxFee);
      if victim.None? { return UnderpricedProof; }
      var k := victim.value;
      QueuedIsEvictable(s, k);
      var last := UpdateEvicted(k, after(k));
      AddToBatch(a, proof);
      EvictSubmitExact(s, a, nonce, proof, balanceRead, k, last);
      r := AcceptedEvicting(k, last);
    }

    /** Removes `k` and applies `update_evicted_user_state_with_lock`; no counter underflows. */
    method UpdateEvicted(k: Key, order: seq<Key>) returns (last: nat)
      requires Evictable(Abs(), k) && Lists(order, queue - {k})
      modifies this`queue, this`users
      ensures CanEvict(old(Abs()), k, last) && Abs() == AfterEvict(old(Abs()), k, last)
      ensures LastIterated(order, k.sender, last)
    {
      ghost var s := Abs();
      var fee := queue[k].maxFee;
      queue := queue - {k};
      var other := LastProof(order, k.sender);
      OtherIsQueued(queue, order, k.sender, other);
      if other.Some? {
        var x := other.value;
        EvictedStateWith(s, k, x);
        var u := users[k.sender];
        users := users[k.sender := UserState(u.nonce - 1, queue[x].maxFee, u.totalFeesInQueue - fee,
            u.proofsInBatch - 1)];
        last := x.nonce;
      } else {
        EvictedStateWithout(s, k);
        users := users - {k.sender};
        last := 0;
      }
    }

    /** Swaps the entry and updates the sender's limit and fee total. */
    method ReplaceEntry(a: Address, nonce: nat, proof: Proof)
      requires a in users && Key(a, nonce) in queue && queue[Key(a, nonce)].maxFee <= proof.maxFee
      modifies this`queue, this`users
      ensures Abs() == AfterReplace(old(Abs()), a, nonce, proof)
    {
      var k := Key(a, nonce);
      var originalFee := queue[k].maxFee;
      queue := queue[k := proof];
      var order := ListQueue(queue);
      var limit := MinFeeInQueue(queue, order, a);
      var u := users[a];
      users := users[a := u.(lastMaxFeeLimit := limit, totalFeesInQueue :=
          u.totalFeesInQueue + (proof.maxFee - originalFee))];
    }

    /** `handle_replacement_message`. */
    method HandleReplacementMessage(a: Address, nonce: nat, proof: Proof, balanceRead: nat, verified: bool)
      returns (r: Response)
      requires Inv(Abs()) && Funded(Abs(), a, proof, balanceRead) && nonce < users[a].nonce
      modifies this`queue, this`users
      ensures r.Replaced? <==> verified && CanReplace(old(Abs()), a, nonce, proof, balanceRead)
      ensures r.Replaced? ==> Abs() == AfterReplace(old(Abs()), a, nonce, proof)
      ensures !r.Replaced? ==> Abs() == old(Abs()) && !r.Accepted? && !r.AcceptedEvicting?
      ensures ReplacementAnswer(old(Abs()), a, nonce, proof, verified, r)
      ensures Inv(Abs())
    {
      var k := Key(a, nonce);
      if k !in queue { return InvalidNonce; }
      var originalFee := queue[k].maxFee;
      MinBumpExactly(originalFee, config.minBumpPercentage, proof.maxFee);
      if proof.maxFee < MinBump(originalFee, config.minBumpPercentage) { return UnderpricedProof; }
      if !verified { return InvalidProof; }
      if !ReplacementIsValid(queue, a, nonce, proof.maxFee) { return InvalidReplacementMessage; }
      ReplaceKeepsInv(Abs(), a, nonce, proof, balanceRead);
      ReplaceEntry(a, nonce, proof);
      r := Replaced;
    }

    /** `extract_batch_if_ready`: a batch leaves the queue when a block interval has passed and none is being
    posted; otherwise, and when no batch pays for itself, nothing changes. */
    method ExtractBatchIfReady(blockNumber: nat, gasPrice: nat) returns (r: Option<seq<Key>>)
      requires Inv(Abs())
      modifies this`queue, this`inflight, this`posting, this`gasPrice
      ensures r.Some? ==>
                CanExtract(old(Abs()), r.value, gasPrice) && Abs() == AfterExtract(old(Abs()), r.value, gasPrice)
      ensures r.Some? ==> blockNumber >= old(lastUploadedBatchBlock) + minBlockInterval
      ensures r.Some? ==> Chosen(old(queue), r.value, LimitsOf(config, gasPrice))
      ensures r.None? ==> Abs() == old(Abs())
      ensures r.None? && !old(posting) && blockNumber >= old(lastUploadedBatchBlock) + minBlockInterval ==>
                Chosen(queue, [], LimitsOf(config, gasPrice))
      ensures Inv(Abs())
    {
      EmptyQueueHasNoBatch(queue, LimitsOf(config, gasPrice));
      if |queue| < 1 || blockNumber < lastUploadedBatchBlock + minBlockInterval || posting { return None; }
      r := ExtractBatch(gasPrice);
    }

    /** Sets the posting flag and extracts, or clears it again. */
    method ExtractBatch(gasPrice: nat) returns (r: Option<seq<Key>>)
      requires Inv(Abs()) && !posting
      modifies this`queue, this`inflight, this`posting, this`gasPrice
      ensures r.Some? ==>
                CanExtract(old(Abs()), r.value, gasPrice) && Abs() == AfterExtract(old(Abs()), r.value, gasPrice)
      ensures r.Some? ==> Chosen(old(queue), r.value, LimitsOf(config, gasPrice))
      ensures r.None? ==> Abs() == old(Abs()) && Chosen(queue, [], LimitsOf(config, gasPrice))
      ensures Inv(Abs())
    {
      ghost var s := Abs();
      posting := true;
      var batch, rest := Choose(queue, LimitsOf(config, gasPrice));
      if batch.None? {
        posting := false;
        return None;
      }
      TakeBatch(batch.value, rest, gasPrice);
      ExtractKeepsInv(s, batch.value, gasPrice);
      r := batch;
    }

    /** Moves the batch out of the queue. */
    method TakeBatch(batch: seq<Key>, rest: Queue, gasPrice: nat)
      requires KeySet(batch) <= queue.Keys && rest == queue - KeySet(batch) && posting && !paid
      modifies this`queue, this`inflight, this`gasPrice
      ensures Abs() == AfterExtract(old(Abs()), batch, gasPrice)
    {
      inflight := TakePart(queue, batch);
      queue := rest;
      this.gasPrice := gasPrice;
    }

    /** One turn of `update_user_states_from_queue_state`: the user's record is rewritten from the queue. */
    method SettleUser(a: Address)
      requires Inv(Abs()) && paid
      modifies this`inflight, this`users
      ensures Abs() == AfterSettle(old(Abs()), a) && Inv(Abs())
    {
      SettleKeepsInv(Abs(), a);
      if a in users {
        var order := ListQueue(queue);
        var totals := CalculateTotals(queue, order);
        RecordIsRecomputed(queue, totals, users[a].nonce, a);
        users := users[a := RecordFrom(users[a].nonce, totals, a)];
      }
      inflight := DropSender(inflight, a);
    }

    /** The whole loop over the batch's senders, in any order. */
    method SettleAll(senders: set<Address>)
      requires Inv(Abs()) && paid && forall k :: k in inflight ==> k.sender in senders
      modifies this`inflight, this`users
      ensures inflight == map[] && Inv(Abs())
      ensures users.Keys == old(users).Keys && forall a :: a in users ==> users[a].nonce == old(users)[a].nonce
    {
      var todo := senders;
      while todo != {}
        invariant Inv(Abs())
        invariant forall k :: k in inflight ==> k.sender in todo
        invariant users.Keys == old(users).Keys && forall a :: a in users ==> users[a].nonce == old(users)[a].nonce
        decreases todo
      {
        var a :| a in todo;
        SettleUser(a);
        todo := todo - {a};
      }
      assert inflight.Keys == {};
    }

    /** `restore_proofs_after_batch_failure`. */
    method RestoreProofs(batch: seq<Key>) returns (m: Merge)
      requires Lists(batch, inflight)
      modifies this`queue, this`inflight, this`posting, this`users
      ensures RestoreRuns(old(Abs()), batch, m) && Abs() == AfterMerge(old(Abs()), m)
    {
      m := RestoreQueue(queue, users, batch, inflight, config.maxSize);
      users := RewriteRestored(Abs(), m, inflight);
      queue, inflight, posting := m.queue, map[], false;
    }

    /** `submit_batch`: the fees of the batch and the contract call, if it is made at all. */
    method SubmitBatch(batch: seq<Key>, reached: bool) returns (outcome: Outcome)
      requires Inv(Abs()) && posting && !paid && inflight != map[] && Lists(batch, inflight) && |batch| == |inflight|
      ensures outcome.Charged? <==> reached && gasPrice > 0
      ensures outcome.Charged? ==> AllCharged(accounts, outcome.accounts, SendersOf(batch), BatchFee(Abs()))
      ensures !outcome.SubmissionInsufficientBalance?
    {
      if !reached { return NoProofSubmitters; }
      ChargeNeverReverts(Abs(), batch);
      var fee := FeePerProof(|batch|, gasPrice, ConstantGasCost(config.feeMultiplier, config.aggregatorGas));
      outcome := CreateNewTask(accounts, SendersOf(batch),
          FeeForAggregator(config.aggregatorGas, gasPrice, config.feeMultiplier), fee);
    }

    /** After the charge: the batch's senders are settled and the posting flag is cleared. */
    method ConfirmBatch(batch: seq<Key>, charged: Accounts)
      requires Inv(Abs()) && CanCharge(Abs(), batch, charged)
      modifies this`inflight, this`posting, this`paid, this`users, this`accounts
      ensures accounts == charged && inflight == map[] && !posting && !paid && Inv(Abs())
      ensures users.Keys == old(users).Keys && forall a :: a in users ==> users[a].nonce == old(users)[a].nonce
    {
      ChargeKeepsInv(Abs(), batch, charged);
      accounts, paid := charged, true;
      assert forall k :: k in inflight ==> k in KeySet(batch);
      SettleAll(set k | k in batch :: k.sender);
      ghost var settled := Abs();
      FinishKeepsInv(settled);
      posting, paid := false, false;
      assert Abs() == settled.(posting := false, paid := false);
    }

    /** `finalize_batch` and what follows it: submits the extracted batch and settles its senders, or puts it back
    into a queue that may have filled up. The flush the source keeps for a sender who cannot pay, which it says
    should never happen, is never reached. */
    method FinalizeBatch(batch: seq<Key>, reached: bool) returns (posted: bool, m: Merge)
      requires Inv(Abs()) && posting && !paid && inflight != map[] && Lists(batch, inflight) && |batch| == |inflight|
      modifies this`queue, this`inflight, this`posting, this`paid, this`users, this`accounts
      ensures posted <==> reached && gasPrice > 0
      ensures !posted ==> RestoreRuns(old(Abs()), batch, m) && Abs() == AfterMerge(old(Abs()), m)
      ensures !posted ==> (Inv(Abs()) <==> RestoreIsClean(old(Abs()), m))
      ensures !posted && SafeToRestore(old(Abs()), batch) ==> Inv(Abs())
      ensures posted ==> queue == old(queue) && inflight == map[] && !posting && !paid && Inv(Abs())
      ensures posted ==> SameNonces(old(users), users)
      ensures posted ==> AllCharged(old(accounts), accounts, SendersOf(batch), BatchFee(old(Abs())))
    {
      m := Merge(map[], map[], map[], map[]);
      var outcome := SubmitBatch(batch, reached);
      posted := outcome.Charged?;
      if posted {
        ConfirmBatch(batch, outcome.accounts);
      } else if outcome.SubmissionInsufficientBalance? {
        assert false;
      } else {
        ghost var s := Abs();
        m := RestoreProofs(batch);
        RestoreExact(s, batch, m);
        if SafeToRestore(s, batch) { SafeKeepsInv(s, batch, m); }
      }
    }

    /** The same while there is room for the batch: a failure puts all of it back. */
    method FinalizeWithRoom(batch: seq<Key>, reached: bool) returns (posted: bool)
      requires Inv(Abs()) && CanRestore(Abs()) && inflight != map[] && Lists(batch, inflight) && |batch| == |inflight|
      modifies this`queue, this`inflight, this`posting, this`paid, this`users, this`accounts
      ensures posted <==> reached && gasPrice > 0
      ensures !posted ==> Abs() == AfterRestore(old(Abs()))
      ensures posted ==> queue == old(queue) && inflight == map[] && !posting && !paid && Inv(Abs())
      ensures posted ==> SameNonces(old(users), users)
      ensures posted ==> AllCharged(old(accounts), accounts, SendersOf(batch), BatchFee(old(Abs())))
    {
      ghost var s := Abs();
      var m;
      posted, m := FinalizeBatch(batch, reached);
      if !posted { RestoreWithRoomIsAtomic(s, batch, m); }
    }

    /** Finalizing a batch that was extracted from `s` just before. */
    method FinalizeExtracted(ghost s: State, batch: seq<Key>, price: nat, reached: bool) returns (posted: bool)
      requires Inv(s) && CanExtract(s, batch, price) && Abs() == AfterExtract(s, batch, price)
      modifies this`queue, this`inflight, this`posting, this`paid, this`users, this`accounts
      ensures posted <==> reached && price > 0
      ensures Inv(Abs())
      ensures !posted ==> Abs() == s.(gasPrice := price)
      ensures posted ==>
                && queue == s.queue - KeySet(batch) && inflight == map[] && !posting && SameNonces(s.users, users)
                && AllCharged(s.accounts, accounts, SendersOf(batch),
                              FeePerProof(|batch|, price, ConstantGasCost(config.feeMultiplier, config.aggregatorGas)))
    {
      ExtractedIsListed(s, batch, price);
      ExtractRestoreRoundTrip(s, batch, price);
      GasPriceIsFree(s, price);
      posted := FinalizeWithRoom(batch, reached);
    }

    /** `handle_new_block`: extract, submit, then settle or put back. `reached` says whether the contract call was
    made at all; uploading the batch may fail before it. No batch is posted exactly when one is being posted already,
    the block interval has not passed or no batch can be chosen. A positive gas price and a call that is made always
    end in a posted batch; a failure leaves the queue, the records and the accounts as they were. */
    method HandleNewBlock(blockNumber: nat, quotedGasPrice: nat, reached: bool)
      returns (r: BlockResult, batch: seq<Key>)
      requires Inv(Abs())
      modifies this
      ensures Inv(Abs())
      ensures r.NotReady? ==> Abs() == old(Abs()) && lastUploadedBatchBlock == old(lastUploadedBatchBlock)
      ensures r.NotReady? && !old(posting) && blockNumber >= old(lastUploadedBatchBlock) + minBlockInterval ==>
                ChosenOnTerms(config, quotedGasPrice, old(queue), [])
      ensures !r.NotReady? ==> lastUploadedBatchBlock == blockNumber
      ensures !r.NotReady? ==> !old(posting) && blockNumber >= old(lastUploadedBatchBlock) + minBlockInterval
      ensures !r.NotReady? ==> CanExtract(old(Abs()), batch, SubmissionGasPrice(quotedGasPrice))
      ensures !r.NotReady? ==> ChosenOnTerms(config, quotedGasPrice, old(queue), batch)
      ensures !r.NotReady? ==> (r.Posted? <==> reached && quotedGasPrice > 0)
      ensures r.Failed? ==> Abs() == old(Abs()).(gasPrice := SubmissionGasPrice(quotedGasPrice))
      ensures r.Posted? ==> queue == old(queue) - KeySet(batch) && inflight == map[] && !posting
      ensures r.Posted? ==> SameNonces(old(users), users)
      ensures r.Posted? ==> ChargedOnTerms(config, quotedGasPrice, old(accounts), accounts, batch)
    {
      ghost var s := Abs();
      var extracted := ExtractOnTerms(blockNumber, quotedGasPrice);
      r, batch := NotReady, [];
      if extracted.Some? {
        batch := extracted.value;
        lastUploadedBatchBlock := blockNumber;
        r := PostExtracted(s, batch, quotedGasPrice, reached);
      }
    }

    method ExtractOnTerms(blockNumber: nat, quoted: nat) returns (r: Option<seq<Key>>)
      requires Inv(Abs())
      modifies this`queue, this`inflight, this`posting, this`gasPrice
      ensures r.None? ==> Abs() == old(Abs()) && Inv(Abs())
      ensures r.None? && !old(posting) && blockNumber >= old(lastUploadedBatchBlock) + minBlockInterval ==>
                ChosenOnTerms(config, quoted, old(queue), [])
      ensures r.Some? ==> blockNumber >= old(lastUploadedBatchBlock) + minBlockInterval
      ensures r.Some? ==> CanExtract(old(Abs()), r.value, SubmissionGasPrice(quoted))
      ensures r.Some? ==> Abs() == AfterExtract(old(Abs()), r.value, SubmissionGasPrice(quoted))
      ensures r.Some? ==> ChosenOnTerms(config, quoted, old(queue), r.value)
    {
      ghost var q := queue;
      r := ExtractBatchIfReady(blockNumber, SubmissionGasPrice(quoted));
      OnTerms(config, quoted, q, if r.Some? then r.value else []);
    }

    method PostExtracted(ghost s: State, batch: seq<Key>, quoted: nat, reached: bool) returns (r: BlockResult)
      requires Inv(s) && CanExtract(s, batch, SubmissionGasPrice(quoted))
      requires Abs() == AfterExtract(s, batch, SubmissionGasPrice(quoted))
      modifies this`queue, this`inflight, this`posting, this`paid, this`users, this`accounts
      ensures Inv(Abs()) && !r.NotReady?
      ensures r.Posted? <==> reached && quoted > 0
      ensures r.Failed? ==> Abs() == s.(gasPrice := SubmissionGasPrice(quoted))
      ensures r.Posted? ==> queue == s.queue - KeySet(batch) && inflight == map[] && !posting
      ensures r.Posted? ==> SameNonces(s.users, users) && ChargedOnTerms(config, quoted, s.accounts, accounts, batch)
    {
      var posted := FinalizeExtracted(s, batch, SubmissionGasPrice(quoted), reached);
      ChargesOnTerms(config, quoted, s.accounts, accounts, batch);
      r := if posted then Posted else Failed;
    }

    /** `remove_user_proofs_and_reset_state`. */
    method RemoveUserProofs(a: Address)
      requires Inv(Abs())
      modifies this`queue, this`users
      ensures Abs() == AfterRemove(old(Abs()), a)
      ensures Inv(Abs()) <==> LaneOf(inflight, a) == map[]
    {
      RemoveUserExact(Abs(), a);
      queue := DropSender(queue, a);
      users := users - {a};
    }

    /** `flush_queue_and_clear_nonce_cache`; a batch in flight goes on. */
    method FlushQueue(nonPaying: Option<Address>)
      requires Inv(Abs())
      modifies this`queue, this`users
      ensures Abs() == AfterFlushQueue(old(Abs()), nonPaying)
      ensures Inv(Abs()) <==> inflight == map[]
    {
      FlushExact(Abs(), nonPaying);
      queue, users := map[], map[];
      if nonPaying.Some? {
        users := map[nonPaying.value := NewUser(AccountOf(accounts, nonPaying.value).nonce)];
      }
    }
  }

  lemma OtherIsQueued(q: Queue, order: seq<Key>, sender: Address, other: Option<Key>)
    requires Lists(order, q)
    requires other.None? <==> forall j :: 0 <= j < |order| ==> order[j].sender != sender
    requires other.Some? ==> other.value in order
    ensures other.Some? ==> other.value in q
    ensures other.None? ==> forall x :: x in q ==> x.sender != sender
  {
    assert other.Some? ==> other.value in KeySet(order);
    forall x | x in q && other.None? ensures x.sender != sender { assert x in KeySet(order); }
  }

  /** How good the extracted batch is: the first acceptable rest of the popped queue, or empty when there is none, the
  biggest batch exactly when the dearest proofs of that number fit, and while the byte limit does not bind no smaller
  than any affordable choice. */
  ghost predicate Chosen(q: Queue, batch: seq<Key>, l: Limits) {
    IsChosen(q, batch, l) && (BytesFit(q, l) ==> NoLargerBatch(q, |batch|, l))
  }

  ghost predicate ChosenOnTerms(c: Config, quoted: nat, q: Queue, batch: seq<Key>) {
    forall l :: Terms(c, quoted, l) ==> Chosen(q, batch, l)
  }

  ghost predicate ChargedOnTerms(c: Config, quoted: nat, before: Accounts, after: Accounts, batch: seq<Key>) {
    forall l :: Terms(c, quoted, l) ==> ChargedShares(before, after, batch, l)
  }

  lemma OnTerms(c: Config, quoted: nat, q: Queue, batch: seq<Key>)
    ensures Chosen(q, batch, LimitsOf(c, SubmissionGasPrice(quoted))) ==> ChosenOnTerms(c, quoted, q, batch)
  {
    forall l | Terms(c, quoted, l) ensures l == LimitsOf(c, SubmissionGasPrice(quoted)) { TermsExactly(c, quoted, l); }
  }

  lemma ChargesOnTerms(c: Config, quoted: nat, before: Accounts, after: Accounts, batch: seq<Key>)
    ensures var l := LimitsOf(c, SubmissionGasPrice(quoted));
            batch != [] &&
            AllCharged(before, after, SendersOf(batch), FeePerProof(|batch|, l.gasPrice, l.constantGas)) ==>
              ChargedOnTerms(c, quoted, before, after, batch)
  {
    var l := LimitsOf(c, SubmissionGasPrice(quoted));
    if batch != [] && AllCharged(before, after, SendersOf(batch), FeePerProof(|batch|, l.gasPrice, l.constantGas)) {
      FeeIsShare(before, after, batch, l);
      forall k | Terms(c, quoted, k) ensures ChargedShares(before, after, batch, k) { TermsExactly(c, quoted, k); }
    }
  }

  method Choose(q: Queue, l: Limits) returns (r: Option<seq<Key>>, rest: Queue)
    ensures r.Some? ==> IsExtraction(q, r.value, rest, l) && Chosen(q, r.value, l)
    ensures r.None? ==> rest == q && Chosen(q, [], l)
  {
    r, rest := Extract(q, l);
  }

  lemma EmptyQueueHasNoBatch(q: Queue, l: Limits)
    ensures |q| == 0 ==> Chosen(q, [], l)
  {
    if |q| == 0 { NothingToChoose(q, l); }
  }

  lemma NothingToChoose(q: Queue, l: Limits)
    requires |q| == 0
    ensures Chosen(q, [], l)
  {
    assert NothingBefore(q, [], 0, l);
    FirstIsChosen(q, [], l, []);
    forall s: set<Key> | Affordable(q, s, l) ensures |s| <= 0 { SubsetSize(s, q.Keys); }
  }

  lemma ExtractedIsListed(s: State, batch: seq<Key>, gasPrice: nat)
    requires Inv(s) && CanExtract(s, batch, gasPrice)
    ensures var s1 := AfterExtract(s, batch, gasPrice);
            && Inv(s1) && s1.inflight != map[] && Lists(batch, s1.inflight) && |s1.inflight| == |batch|
            && BatchFee(s1) == FeePerProof(|batch|, gasPrice,
                ConstantGasCost(s.config.feeMultiplier, s.config.aggregatorGas))
  {
    ExtractKeepsInv(s, batch, gasPrice);
    PartSize(s.queue, batch);
  }

  /** The remembered gas price only matters while a batch is in flight. */
  lemma GasPriceIsFree(s: State, gasPrice: nat)
    requires Inv(s) && !s.posting
    ensures Inv(s.(gasPrice := gasPrice))
  {
    var s' := s.(gasPrice := gasPrice);
    forall a ensures ViewInv(ViewOf(s', a)) {
      assert ViewOf(s', a) == ViewOf(s, a);
      ViewHolds(s, a);
    }
  }

  /** The victim's counters can be lowered. */
  ghost predicate Evictable(s: State, k: Key) {
    && k in s.queue && k.sender in s.users
    && 1 <= s.users[k.sender].nonce
    && 1 <= s.users[k.sender].proofsInBatch
    && s.queue[k].maxFee <= s.users[k.sender].totalFeesInQueue
  }

  lemma QueuedIsEvictable(s: State, k: Key)
    requires Inv(s) && k in s.queue && k.sender in s.users
    ensures Evictable(s, k)
  {
    ViewHolds(s, k.sender);
    assert k == Key(k.sender, k.nonce);
    EvictionNeverUnderflows(ViewOf(s, k.sender), k.nonce);
  }

  lemma EvictedLane(q: Queue, k: Key, x: Key)
    requires k in q && x in q - {k} && x.sender == k.sender
    ensures var lane := LaneOf(q, k.sender);
            && k.nonce in lane && lane[k.nonce] == q[k]
            && x.nonce in lane - {k.nonce} && (lane - {k.nonce})[x.nonce] == q[x]
  {
    assert x == Key(k.sender, x.nonce) && k == Key(k.sender, k.nonce);
  }

  lemma EvictedStateWith(s: State, k: Key, x: Key)
    requires Evictable(s, k) && x in s.queue - {k} && x.sender == k.sender
    ensures CanEvict(s, k, x.nonce)
    ensures var u := s.users[k.sender];
            AfterEvict(s, k, x.nonce) ==
              s.(queue := s.queue - {k},
                 users := s.users[k.sender := UserState(u.nonce - 1, s.queue[x].maxFee,
                     u.totalFeesInQueue - s.queue[k].maxFee, u.proofsInBatch - 1)])
  {
    EvictedLane(s.queue, k, x);
  }

  lemma EvictedStateWithout(s: State, k: Key)
    requires k in s.queue && k.sender in s.users && forall x :: x in s.queue - {k} ==> x.sender != k.sender
    ensures CanEvict(s, k, 0)
    ensures AfterEvict(s, k, 0) == s.(queue := s.queue - {k}, users := s.users - {k.sender})
  {
    LaneOfRemove(s.queue, k);
    forall n ensures n !in LaneOf(s.queue - {k}, k.sender) {
      assert Key(k.sender, n) !in s.queue - {k};
    }
    assert LaneOf(s.queue, k.sender) - {k.nonce} == map[];
  }
}
