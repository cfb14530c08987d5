/** The batcher's shared state (crates/batcher/src/lib.rs, crates/batcher/src/types) next to the payment
contract's accounts, and what its handlers do to it. One step is what one handler does between taking the
user lock and releasing it; extraction, which takes no user lock, is one step under the queue lock. */
module BatcherState {
  import opened Basics
  import opened BatchQueue
  import opened BatchExtraction
  import opened FeeModel
  import opened PaymentService

  /** `U256::max_value()`: the fee limit of a user without proofs. */
  const U256_MAX: nat := 0xFFFF_FFFF_FFFF_FFFF_FFFF_FFFF_FFFF_FFFF_FFFF_FFFF_FFFF_FFFF_FFFF_FFFF_FFFF_FFFF

  datatype UserState = UserState(nonce: nat, lastMaxFeeLimit: nat, totalFeesInQueue: nat, proofsInBatch: nat)

  function NewUser(nonce: nat): UserState {
    UserState(nonce, U256_MAX, 0, 0)
  }

  datatype Config = Config(
    maxSize: nat,
    minBumpPercentage: nat,
    feeMultiplier: nat,
    aggregatorGas: nat,
    maxBytes: nat,
    maxProofs: nat)

  function LimitsOf(c: Config, gasPrice: nat): Limits {
    Limits(gasPrice, c.maxBytes, c.maxProofs, ConstantGasCost(c.feeMultiplier, c.aggregatorGas))
  }

  /** `inflight` holds the extracted proofs that are not yet settled or restored; `paid` says that the contract
  has charged for them; `gasPrice` is the one they were extracted for. */
  datatype State = State(
    config: Config,
    queue: Queue,
    inflight: Queue,
    posting: bool,
    paid: bool,
    gasPrice: nat,
    users: map<Address, UserState>,
    accounts: Accounts)

  /** The fee per proof the in-flight batch is submitted with. */
  ghost function BatchFee(s: State): nat
    requires s.inflight != map[]
  {
    FeePerProof(|s.inflight|, s.gasPrice, ConstantGasCost(s.config.feeMultiplier, s.config.aggregatorGas))
  }

  function NonceOf(s: State, a: Address): nat {
    AccountOf(s.accounts, a).nonce
  }

  // --- The invariant, one sender at a time ---

  /** Everything the state holds about one sender. */
  datatype View = View(user: Option<UserState>, queued: Lane, flying: Lane, paid: bool, account: Account)

  ghost function ViewOf(s: State, a: Address): View {
    View(if a in s.users then Some(s.users[a]) else None,
         LaneOf(s.queue, a), LaneOf(s.inflight, a), s.paid, AccountOf(s.accounts, a))
  }

  /** The sender's nonces are gap free: the in-flight ones fill [lo, mid), the queued ones [mid, hi).
  The contract's nonce is the first one it has not charged for. */
  ghost predicate Window(v: View, lo: nat, mid: nat, hi: nat) {
    && Interval(v.flying, lo, mid)
    && Interval(v.queued, mid, hi)
    && v.account.nonce == (if v.paid then mid else lo)
  }

  ghost predicate GapFree(v: View) {
    match v.user
    case None => v.queued == map[] && v.flying == map[]
    case Some(u) => exists lo, mid :: Window(v, lo, mid, u.nonce)
  }

  /** The cached count and fee total are those of the sender's queued and in-flight proofs. */
  ghost predicate Tallied(v: View) {
    v.user.Some? ==>
      && v.user.value.proofsInBatch == |v.queued| + |v.flying|
      && v.user.value.totalFeesInQueue == Fees(v.queued) + Fees(v.flying)
  }

  /** The cached fee limit is the least queued fee; without any proof it is unlimited. */
  ghost predicate Limited(v: View) {
    v.user.Some? && (v.queued != map[] || v.flying == map[]) ==>
      IsMinFee(v.queued, v.user.value.lastMaxFeeLimit, U256_MAX)
  }

  /** What the sender may still be charged. */
  ghost function Owed(v: View): nat {
    Fees(v.queued) + if v.paid then 0 else Fees(v.flying)
  }

  ghost predicate ViewInv(v: View) {
    && GapFree(v)
    && FeesFall(v.queued)
    && FeesFall(v.flying)
    && Tallied(v)
    && Limited(v)
    && Owed(v) <= v.account.balance
  }

  ghost predicate Inv(s: State) {
    && (forall a :: ViewInv(ViewOf(s, a)))
    && |s.queue| <= s.config.maxSize
    && (!s.posting ==> s.inflight == map[] && !s.paid)
    && (s.posting && !s.paid ==> s.inflight != map[] && AllCover(s.inflight, BatchFee(s)))
  }

  /** No queued proof, and no proof the sender may still submit, pays more than one of their in-flight proofs. */
  ghost predicate CrossOrdered(v: View) {
    forall f :: f in v.flying ==>
      && (forall n :: n in v.queued ==> v.queued[n].maxFee <= v.flying[f].maxFee)
      && (v.user.Some? ==> v.user.value.lastMaxFeeLimit <= v.flying[f].maxFee)
  }

  ghost predicate AllCrossOrdered(s: State) {
    forall a :: CrossOrdered(ViewOf(s, a))
  }

  // --- Steps ---

  /** The balance was read from the chain under the user lock, perhaps before the in-flight batch was charged:
  it can be stale by at most what that batch took from the sender. */
  ghost predicate BalanceRead(v: View, balance: nat) {
    balance <= v.account.balance + if v.paid then Fees(v.flying) else 0
  }

  function MinBump(maxFee: nat, percentage: nat): (r: nat)
    ensures maxFee <= r
  {
    maxFee + maxFee * percentage / 100
  }

  /** A fee is below the minimum exactly when it is below the old one raised by the percentage, rounded down. */
  lemma MinBumpExactly(maxFee: nat, percentage: nat, fee: nat)
    ensures fee < MinBump(maxFee, percentage) <==> 100 * fee + 99 < (100 + percentage) * maxFee
  {
    assert (100 + percentage) * maxFee == 100 * maxFee + maxFee * percentage;
  }

  /** `replacement_entry_is_valid`: no queued proof of the sender with a lower nonce pays less. */
  predicate ReplacementIsValid(q: Queue, a: Address, nonce: nat, fee: nat) {
    !exists k :: k in q && k.sender == a && k.nonce < nonce && q[k].maxFee < fee
  }

  function SendersOf(batch: seq<Key>): (r: seq<Address>)
    ensures |r| == |batch| && forall i :: 0 <= i < |batch| ==> r[i] == batch[i].sender
  {
    seq(|batch|, i requires 0 <= i < |batch| => batch[i].sender)
  }

  ghost predicate Lists(batch: seq<Key>, q: Queue) {
    NoDuplicates(batch) && KeySet(batch) == q.Keys
  }

  /** What every accepted message passes: the balance covers all the sender's proofs plus this one. */
  ghost predicate Funded(s: State, a: Address, proof: Proof, balanceRead: nat) {
    && a in s.users
    && BalanceRead(ViewOf(s, a), balanceRead)
    && s.users[a].totalFeesInQueue + proof.maxFee <= balanceRead
  }

  ghost predicate CanSubmit(s: State, a: Address, nonce: nat, proof: Proof, balanceRead: nat) {
    && Funded(s, a, proof, balanceRead)
    && nonce == s.users[a].nonce
    && proof.maxFee <= s.users[a].lastMaxFeeLimit
    && |s.queue| < s.config.maxSize
  }

  ghost predicate CanReplace(s: State, a: Address, nonce: nat, proof: Proof, balanceRead: nat) {
    && Funded(s, a, proof, balanceRead)
    && nonce < s.users[a].nonce
    && Key(a, nonce) in s.queue
    && MinBump(s.queue[Key(a, nonce)].maxFee, s.config.minBumpPercentage) <= proof.maxFee
    && ReplacementIsValid(s.queue, a, nonce, proof.maxFee)
  }

  ghost predicate CanExtract(s: State, batch: seq<Key>, gasPrice: nat) {
    !s.posting && IsExtraction(s.queue, batch, s.queue - KeySet(batch), LimitsOf(s.config, gasPrice))
  }

  ghost predicate CanCharge(s: State, batch: seq<Key>, accounts: Accounts) {
    && s.posting && !s.paid && s.inflight != map[]
    && Lists(batch, s.inflight)
    && AllCharged(s.accounts, accounts, SendersOf(batch), BatchFee(s))
  }

  ghost predicate CanRestore(s: State) {
    s.posting && !s.paid && |s.queue| + |s.inflight| <= s.config.maxSize
  }

  /** The record `update_user_states_from_queue_state` writes for a sender with these queued proofs. */
  ghost function Recomputed(nonce: nat, queued: Lane): UserState {
    UserState(nonce, MinFee(queued, U256_MAX), Fees(queued), |queued|)
  }

  ghost function AfterSubmit(s: State, a: Address, proof: Proof): State
    requires a in s.users
  {
    var u := s.users[a];
    s.(queue := s.queue[Key(a, u.nonce) := proof],
       users := s.users[a := UserState(u.nonce + 1, proof.maxFee, u.totalFeesInQueue + proof.maxFee, u.proofsInBatch +
           1)])
  }

  ghost function AfterReplace(s: State, a: Address, nonce: nat, proof: Proof): State
    requires a in s.users && Key(a, nonce) in s.queue && s.queue[Key(a, nonce)].maxFee <= proof.maxFee
  {
    var u := s.users[a];
    var k := Key(a, nonce);
    var queue := s.queue[k := proof];
    s.(queue := queue,
       users := s.users[a := u.(lastMaxFeeLimit := MinFee(LaneOf(queue, a), U256_MAX),
                                totalFeesInQueue := u.totalFeesInQueue + (proof.maxFee - s.queue[k].maxFee))])
  }

  ghost function AfterExtract(s: State, batch: seq<Key>, gasPrice: nat): State
    requires KeySet(batch) <= s.queue.Keys
  {
    s.(queue := s.queue - KeySet(batch),
       inflight := Part(s.queue, KeySet(batch)),
       posting := true,
       paid := false,
       gasPrice := gasPrice)
  }

  ghost function Without(q: Queue, a: Address): Queue {
    map k | k in q && k.sender != a :: q[k]
  }

  ghost function AfterSettle(s: State, a: Address): State {
    s.(inflight := Without(s.inflight, a),
       users := if a in s.users then s.users[a := Recomputed(s.users[a].nonce, LaneOf(s.queue, a))] else s.users)
  }

  /** Restoring with room for everything: the in-flight proofs go back and their senders' records are recomputed. */
  ghost function AfterRestore(s: State): State {
    var queue := s.queue + s.inflight;
    s.(queue := queue,
       inflight := map[],
       posting := false,
       users := map a | a in s.users ::
                  if LaneOf(s.inflight, a) != map[] then Recomputed(s.users[a].nonce, LaneOf(queue, a)) else s.users[a])
  }

  ghost function AfterFlush(s: State, nonPaying: Option<Address>): State {
    s.(queue := map[], inflight := map[], posting := false,
       users := match nonPaying case None => map[] case Some(a) => map[a := NewUser(AccountOf(s.accounts, a).nonce)])
  }

  /** The flush itself: a batch in flight goes on. */
  ghost function AfterFlushQueue(s: State, nonPaying: Option<Address>): State {
    s.(queue := map[],
       users := match nonPaying case None => map[] case Some(a) => map[a := NewUser(AccountOf(s.accounts, a).nonce)])
  }

  ghost function AfterInsert(s: State, a: Address, nonceRead: nat): State {
    s.(users := s.users[a := NewUser(nonceRead)])
  }

  ghost function AfterCreate(s: State, a: Address): State {
    if a in s.users then s else s.(users := s.users[a := NewUser(AccountOf(s.accounts, a).nonce)])
  }

  ghost function AfterRemove(s: State, a: Address): State {
    s.(queue := Without(s.queue, a), users := s.users - {a})
  }

  ghost function AfterDeposit(s: State, a: Address, amount: nat): State {
    var u := AccountOf(s.accounts, a);
    s.(accounts := s.accounts[a := u.(balance := u.balance + amount)])
  }
}
