/** The batcher steps that keep the invariant only sometimes, each with the exact condition. */
module BatcherHazards {
  import opened Basics
  import opened BatchQueue
  import opened PaymentService
  import opened BatcherState
  import opened SenderSteps
  import opened BatcherSteps

  // --- Eviction of a queued proof by a better paying one ---

  /** The victim's record after losing the proof `n`: dropped when no proof of theirs stays queued; otherwise its
  limit becomes the fee of `last`, whichever of their proofs the queue happens to iterate last. */
  ghost function EvictedView(v: View, n: nat, last: nat): View
    requires v.user.Some? && n in v.queued
    requires v.queued - {n} != map[] ==> last in v.queued - {n}
  {
    var queued := v.queued - {n};
    var u := v.user.value;
    if queued == map[] then v.(queued := queued, user := None)
    else v.(queued := queued,
            user := Some(UserState(Minus(u.nonce, 1), queued[last].maxFee,
                                   Minus(u.totalFeesInQueue, v.queued[n].maxFee), Minus(u.proofsInBatch, 1))))
  }

  /** Subtraction of naturals; `EvictionNeverUnderflows` shows that it is never cut off. */
  function Minus(x: nat, y: nat): nat {
    if y <= x then x - y else 0
  }

  lemma EvictionNeverUnderflows(v: View, n: nat)
    requires ViewInv(v) && v.user.Some? && n in v.queued
    ensures 1 <= v.user.value.nonce && 1 <= v.user.value.proofsInBatch
    ensures v.queued[n].maxFee <= v.user.value.totalFeesInQueue
  {
    FeesRemove(v.queued, n);
    SizeRemove(v.queued, n);
    var lo, mid :| Window(v, lo, mid, v.user.value.nonce);
  }

  /** The victim's count and fee total are right after every eviction. */
  lemma EvictionKeepsTally(v: View, n: nat, last: nat)
    requires ViewInv(v) && v.user.Some? && n in v.queued
    requires v.queued - {n} != map[] ==> last in v.queued - {n}
    ensures Tallied(EvictedView(v, n, last)) && Owed(EvictedView(v, n, last)) + v.queued[n].maxFee == Owed(v)
  {
    EvictionNeverUnderflows(v, n);
    FeesRemove(v.queued, n);
    SizeRemove(v.queued, n);
  }

  /** An eviction leaves the victim's nonces gap free and their limit right exactly when it takes the victim's
  highest nonce and the queue iterates one of the cheapest remaining proofs last, or, when it takes their only
  queued proof, exactly when they have nothing in flight. */
  ghost predicate EvictionIsClean(v: View, n: nat, last: nat)
    requires v.user.Some? && n in v.queued
    requires v.queued - {n} != map[] ==> last in v.queued - {n}
  {
    var queued := v.queued - {n};
    if queued == map[] then v.flying == map[]
    else n + 1 == v.user.value.nonce && IsMinFee(queued, queued[last].maxFee, U256_MAX)
  }

  lemma EvictView(v: View, n: nat, last: nat)
    requires ViewInv(v) && v.user.Some? && n in v.queued
    requires v.queued - {n} != map[] ==> last in v.queued - {n}
    ensures ViewInv(EvictedView(v, n, last)) <==> EvictionIsClean(v, n, last)
  {
    EvictionKeepsTally(v, n, last);
    EvictionNeverUnderflows(v, n);
    if v.queued - {n} != map[] {
      EvictWindow(v, n, last);
    }
  }

  lemma EvictWindow(v: View, n: nat, last: nat)
    requires GapFree(v) && v.user.Some? && n in v.queued && last in v.queued - {n} && 1 <= v.user.value.nonce
    ensures GapFree(EvictedView(v, n, last)) <==> n + 1 == v.user.value.nonce
  {
    var v' := EvictedView(v, n, last);
    var hi := v.user.value.nonce;
    var lo, mid :| Window(v, lo, mid, hi);
    if n + 1 == hi {
      assert Window(v', lo, mid, hi - 1);
    } else {
      assert hi - 1 in v'.queued;
    }
  }

  ghost function AfterEvict(s: State, k: Key, last: nat): State
    requires k in s.queue && k.sender in s.users
    requires LaneOf(s.queue, k.sender) - {k.nonce} != map[] ==> last in LaneOf(s.queue, k.sender) - {k.nonce}
  {
    var v' := EvictedView(ViewOf(s, k.sender), k.nonce, last);
    s.(queue := s.queue - {k},
       users := if v'.user.Some? then s.users[k.sender := v'.user.value] else s.users - {k.sender})
  }

  ghost predicate CanEvict(s: State, k: Key, last: nat) {
    && k in s.queue && k.sender in s.users
    && (LaneOf(s.queue, k.sender) - {k.nonce} != map[] ==> last in LaneOf(s.queue, k.sender) - {k.nonce})
  }

  lemma EvictedViews(s: State, k: Key, last: nat)
    requires CanEvict(s, k, last)
    ensures ViewOf(AfterEvict(s, k, last), k.sender) == EvictedView(ViewOf(s, k.sender), k.nonce, last)
    ensures forall b :: b != k.sender ==> ViewOf(AfterEvict(s, k, last), b) == ViewOf(s, b)
  {
    LaneOfRemove(s.queue, k);
  }

  lemma EvictKeepsInv(s: State, k: Key, last: nat)
    requires Inv(s) && CanEvict(s, k, last)
    ensures Inv(AfterEvict(s, k, last)) <==> EvictionIsClean(ViewOf(s, k.sender), k.nonce, last)
    ensures |AfterEvict(s, k, last).queue| == |s.queue| - 1
  {
    var s' := AfterEvict(s, k, last);
    ViewHolds(s, k.sender);
    EvictView(ViewOf(s, k.sender), k.nonce, last);
    EvictedViews(s, k, last);
    assert s'.queue.Keys == s.queue.Keys - {k};
    if ViewInv(ViewOf(s', k.sender)) {
      OneSenderChanged(s, s', k.sender);
    } else if Inv(s') {
      ViewHolds(s', k.sender);
    }
  }

  /** A submitter never evicts a proof of their own: what passes the fee limit pays no more than any of theirs. */
  lemma OwnProofsAreSafe(s: State, a: Address, proof: Proof)
    requires Inv(s) && a in s.users && proof.maxFee <= s.users[a].lastMaxFeeLimit
    ensures forall k :: k in s.queue && k.sender == a ==> proof.maxFee <= s.queue[k].maxFee
  {
    ViewHolds(s, a);
    forall k | k in s.queue && k.sender == a ensures proof.maxFee <= s.queue[k].maxFee {
      assert k == Key(a, k.nonce) && k.nonce in LaneOf(s.queue, a);
    }
  }

  /** A submission to a full queue: clean eviction, then the ordinary submission. */
  lemma SubmitEvictingKeepsInv(s: State, a: Address, nonce: nat, proof: Proof, balanceRead: nat, k: Key, last: nat)
    requires Inv(s) && Funded(s, a, proof, balanceRead) && nonce == s.users[a].nonce
    requires proof.maxFee <= s.users[a].lastMaxFeeLimit
    requires CanEvict(s, k, last) && s.queue[k].maxFee < proof.maxFee
    requires EvictionIsClean(ViewOf(s, k.sender), k.nonce, last)
    ensures k.sender != a
    ensures CanSubmit(AfterEvict(s, k, last), a, nonce, proof, balanceRead)
    ensures Inv(AfterSubmit(AfterEvict(s, k, last), a, proof))
  {
    var s' := AfterEvict(s, k, last);
    OwnProofsAreSafe(s, a, proof);
    EvictKeepsInv(s, k, last);
    EvictedViews(s, k, last);
    assert ViewOf(s', a) == ViewOf(s, a);
    SubmitKeepsInv(s', a, nonce, proof, balanceRead);
  }

  /** A submission to a full queue that evicts `k`. */
  ghost predicate CanSubmitEvicting(s: State, a: Address, nonce: nat, proof: Proof, balanceRead: nat, k: Key,
      last: nat) {
    && Funded(s, a, proof, balanceRead)
    && nonce == s.users[a].nonce
    && proof.maxFee <= s.users[a].lastMaxFeeLimit
    && |s.queue| >= s.config.maxSize
    && CanEvict(s, k, last)
    && s.queue[k].maxFee < proof.maxFee
    && k.sender != a
  }

  ghost function AfterSubmitEvicting(s: State, a: Address, proof: Proof, k: Key, last: nat): State
    requires a in s.users && CanEvict(s, k, last) && k.sender != a
  {
    AfterSubmit(AfterEvict(s, k, last), a, proof)
  }

  /** A submission that evicts keeps the invariant exactly when the eviction is clean. */
  lemma EvictSubmitExact(s: State, a: Address, nonce: nat, proof: Proof, balanceRead: nat, k: Key, last: nat)
    requires Inv(s) && CanSubmitEvicting(s, a, nonce, proof, balanceRead, k, last)
    ensures Inv(AfterSubmitEvicting(s, a, proof, k, last)) <==> EvictionIsClean(ViewOf(s, k.sender), k.nonce, last)
  {
    var s1 := AfterEvict(s, k, last);
    EvictedViews(s, k, last);
    assert ViewOf(s1, a) == ViewOf(s, a);
    var s2 := AfterSubmit(s1, a, proof);
    if EvictionIsClean(ViewOf(s, k.sender), k.nonce, last) {
      SubmitEvictingKeepsInv(s, a, nonce, proof, balanceRead, k, last);
    } else {
      ViewHolds(s, k.sender);
      EvictView(ViewOf(s, k.sender), k.nonce, last);
      LaneOfPut(s1.queue, Key(a, nonce), proof);
      assert ViewOf(s2, k.sender) == ViewOf(s1, k.sender);
      if Inv(s2) { ViewHolds(s2, k.sender); }
    }
  }

  // --- Records that are overwritten or forgotten ---

  /** The submission handler inserts a new record without looking again whether one appeared since it last
  looked. That is harmless exactly when the sender has no proof and the nonce it read is still current. */
  lemma InsertUserKeepsInv(s: State, a: Address, nonceRead: nat)
    requires Inv(s)
    ensures Inv(AfterInsert(s, a, nonceRead)) <==>
              LaneOf(s.queue, a) == map[] && LaneOf(s.inflight, a) == map[] && nonceRead == NonceOf(s, a)
    ensures forall b :: b != a ==> ViewOf(AfterInsert(s, a, nonceRead), b) == ViewOf(s, b)
  {
    var s' := AfterInsert(s, a, nonceRead);
    var v' := ViewOf(s', a);
    forall b | b != a ensures ViewOf(s', b) == ViewOf(s, b) { }
    InsertedView(v', nonceRead);
    if ViewInv(v') {
      OneSenderChanged(s, s', a);
    } else if Inv(s') {
      ViewHolds(s', a);
    }
  }

  lemma InsertedView(v': View, nonceRead: nat)
    requires v'.user == Some(NewUser(nonceRead))
    ensures ViewInv(v') <==> v'.queued == map[] && v'.flying == map[] && nonceRead == v'.account.nonce
  {
    var n := v'.account.nonce;
    if v'.queued == map[] && v'.flying == map[] && nonceRead == n {
      assert Window(v', n, n, n);
    }
    if ViewInv(v') {
      var lo, mid :| Window(v', lo, mid, nonceRead);
      EmptyInterval(v'.flying, lo, mid);
      EmptyInterval(v'.queued, mid, nonceRead);
    }
  }

  /** Removing a user whose funds are unlocked forgets their record; in-flight proofs must not be left behind. */
  lemma RemoveUserExact(s: State, a: Address)
    requires Inv(s)
    ensures Inv(AfterRemove(s, a)) <==> LaneOf(s.inflight, a) == map[]
  {
    if LaneOf(s.inflight, a) == map[] {
      RemoveUserKeepsInv(s, a);
    } else if Inv(AfterRemove(s, a)) {
      ViewHolds(AfterRemove(s, a), a);
    }
  }

  /** A flush clears the queue and all records. It keeps the invariant exactly when no batch is in flight, whose
  senders would lose their records. */
  lemma FlushExact(s: State, nonPaying: Option<Address>)
    requires Inv(s)
    ensures Inv(AfterFlushQueue(s, nonPaying)) <==> s.inflight == map[]
  {
    var s' := AfterFlushQueue(s, nonPaying);
    if s.inflight == map[] {
      forall b ensures ViewInv(ViewOf(s', b)) {
        FreshView(ViewOf(s', b), ViewOf(s', b));
      }
    } else {
      var k :| k in s.inflight;
      assert k == Key(k.sender, k.nonce);
      var v := ViewOf(s', k.sender);
      assert k.nonce in v.flying;
      if Inv(s') {
        ViewHolds(s', k.sender);
        if v.user.Some? { InsertedView(v, NonceOf(s, k.sender)); }
      }
    }
  }

  /** No queued proof has been charged. */
  lemma QueuedProofsAreUncharged(s: State, k: Key)
    requires Inv(s) && k in s.queue
    ensures NonceOf(s, k.sender) <= k.nonce
  {
    ViewHolds(s, k.sender);
    assert k == Key(k.sender, k.nonce);
    var v := ViewOf(s, k.sender);
    assert k.nonce in v.queued;
    var lo, mid :| Window(v, lo, mid, v.user.value.nonce);
  }

  /** Putting a batch back after its charge, as the handler does when sending the inclusion responses fails,
  always breaks the invariant, whatever else has happened meanwhile. */
  lemma ChargedProofsCannotReturn(s: State, batch: seq<Key>, accounts: Accounts, k: Key, later: State)
    requires Inv(s) && CanCharge(s, batch, accounts) && k in s.inflight
    requires NonceOf(later, k.sender) >= AccountOf(accounts, k.sender).nonce && k in later.queue
    ensures !Inv(later)
  {
    InflightAreNextNonces(s, k.sender);
    InflightShare(s, batch, k.sender);
    assert ChargedFor(s.accounts, accounts, SendersOf(batch), BatchFee(s), k.sender);
    assert k == Key(k.sender, k.nonce);
    assert k.nonce in LaneOf(s.inflight, k.sender);
    if Inv(later) {
      QueuedProofsAreUncharged(later, k);
    }
  }
}
