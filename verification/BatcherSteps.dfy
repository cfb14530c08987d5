/** Every batcher step keeps the invariant of the whole state. */
module BatcherSteps {
  import opened Basics
  import opened BatchQueue
  import opened BatchExtraction
  import opened PaymentService
  import opened BatcherState
  import opened SenderSteps

  /** Both invariants of one sender survive a step. */
  ghost predicate Kept(v: View, v': View) {
    ViewInv(v') && (CrossOrdered(v) ==> CrossOrdered(v'))
  }

  ghost predicate AllKept(s: State, s': State) {
    forall a :: Kept(ViewOf(s, a), ViewOf(s', a))
  }

  /** What is left to show once every sender is looked after. */
  lemma AllKeptKeepsInv(s: State, s': State)
    requires AllKept(s, s')
    requires |s'.queue| <= s'.config.maxSize
    requires !s'.posting ==> s'.inflight == map[] && !s'.paid
    requires s'.posting && !s'.paid ==> s'.inflight != map[] && AllCover(s'.inflight, BatchFee(s'))
    ensures Inv(s') && (AllCrossOrdered(s) ==> AllCrossOrdered(s'))
  {
    forall a ensures ViewInv(ViewOf(s', a)) && (AllCrossOrdered(s) ==> CrossOrdered(ViewOf(s', a))) {
      assert Kept(ViewOf(s, a), ViewOf(s', a));
    }
  }

  lemma ViewHolds(s: State, a: Address)
    requires Inv(s)
    ensures ViewInv(ViewOf(s, a))
  {
  }

  // --- Steps of one sender ---

  lemma CreateUserKeepsInv(s: State, a: Address)
    requires Inv(s)
    ensures Inv(AfterCreate(s, a)) && (AllCrossOrdered(s) ==> AllCrossOrdered(AfterCreate(s, a)))
  {
    var s' := AfterCreate(s, a);
    forall b ensures Kept(ViewOf(s, b), ViewOf(s', b)) {
      ViewHolds(s, b);
      if b == a && a !in s.users {
        NewUserView(ViewOf(s, a), ViewOf(s', a));
      } else {
        assert ViewOf(s', b) == ViewOf(s, b);
      }
    }
    AllKeptKeepsInv(s, s');
  }

  lemma NewUserView(v: View, v': View)
    requires ViewInv(v) && v.user.None? && v' == v.(user := Some(NewUser(v.account.nonce)))
    ensures Kept(v, v')
  {
    assert Window(v', v.account.nonce, v.account.nonce, v.account.nonce);
  }

  lemma SubmitKeepsInv(s: State, a: Address, nonce: nat, proof: Proof, balanceRead: nat)
    requires Inv(s) && CanSubmit(s, a, nonce, proof, balanceRead)
    ensures Inv(AfterSubmit(s, a, proof)) && (AllCrossOrdered(s) ==> AllCrossOrdered(AfterSubmit(s, a, proof)))
  {
    var s' := AfterSubmit(s, a, proof);
    var k := Key(a, nonce);
    LaneOfPut(s.queue, k, proof);
    forall b ensures Kept(ViewOf(s, b), ViewOf(s', b)) {
      ViewHolds(s, b);
      if b == a {
        SubmitOwnView(s, a, nonce, proof, balanceRead);
      } else {
        assert ViewOf(s', b) == ViewOf(s, b);
      }
    }
    PutSize(s.queue, k, proof);
    AllKeptKeepsInv(s, s');
  }

  lemma PutSize(q: Queue, k: Key, p: Proof)
    ensures |q[k := p]| <= |q| + 1
    ensures k in q ==> |q[k := p]| == |q|
  {
    assert q[k := p].Keys == q.Keys + {k};
    if k in q { assert q.Keys + {k} == q.Keys; }
  }

  lemma SubmitOwnView(s: State, a: Address, nonce: nat, proof: Proof, balanceRead: nat)
    requires ViewInv(ViewOf(s, a)) && CanSubmit(s, a, nonce, proof, balanceRead)
    ensures Kept(ViewOf(s, a), ViewOf(AfterSubmit(s, a, proof), a))
  {
    SubmittedView(s, a, proof);
    SubmitView(ViewOf(s, a), proof, balanceRead);
  }

  lemma SubmittedView(s: State, a: Address, proof: Proof)
    requires a in s.users
    ensures ViewOf(AfterSubmit(s, a, proof), a) == Submitted(ViewOf(s, a), proof)
  {
    LaneOfPut(s.queue, Key(a, s.users[a].nonce), proof);
  }

  /** A replacement that outbids none of the sender's in-flight proofs. */
  ghost predicate StaysBelowInflight(s: State, a: Address, proof: Proof) {
    var flying := LaneOf(s.inflight, a);
    forall f :: f in flying ==> proof.maxFee <= flying[f].maxFee
  }

  lemma ReplaceKeepsInv(s: State, a: Address, nonce: nat, proof: Proof, balanceRead: nat)
    requires Inv(s) && CanReplace(s, a, nonce, proof, balanceRead)
    ensures Inv(AfterReplace(s, a, nonce, proof))
    ensures AllCrossOrdered(s) ==> (AllCrossOrdered(AfterReplace(s, a, nonce, proof)) <==>
              StaysBelowInflight(s, a, proof))
  {
    var s' := AfterReplace(s, a, nonce, proof);
    ViewHolds(s, a);
    ReplaceOwnView(s, a, nonce, proof, balanceRead);
    ReplaceOtherViews(s, a, nonce, proof);
    OneSenderChanged(s, s', a);
    PutSize(s.queue, Key(a, nonce), proof);
    ReplaceCrossOrder(s, s', a, StaysBelowInflight(s, a, proof));
  }

  lemma OneSenderChanged(s: State, s': State, a: Address)
    requires Inv(s) && ViewInv(ViewOf(s', a))
    requires forall b :: b != a ==> ViewOf(s', b) == ViewOf(s, b)
    ensures forall b :: ViewInv(ViewOf(s', b))
  {
    forall b ensures ViewInv(ViewOf(s', b)) { ViewHolds(s, b); }
  }

  lemma ReplaceOtherViews(s: State, a: Address, nonce: nat, proof: Proof)
    requires a in s.users && Key(a, nonce) in s.queue && s.queue[Key(a, nonce)].maxFee <= proof.maxFee
    ensures forall b :: b != a ==> ViewOf(AfterReplace(s, a, nonce, proof), b) == ViewOf(s, b)
  {
    LaneOfPut(s.queue, Key(a, nonce), proof);
  }

  lemma ReplaceCrossOrder(s: State, s': State, a: Address, safe: bool)
    requires forall b :: b != a ==> ViewOf(s', b) == ViewOf(s, b)
    requires CrossOrdered(ViewOf(s, a)) ==> (CrossOrdered(ViewOf(s', a)) <==> safe)
    ensures AllCrossOrdered(s) ==> (AllCrossOrdered(s') <==> safe)
  {
    if AllCrossOrdered(s) {
      assert CrossOrdered(ViewOf(s, a));
      if safe {
        forall b ensures CrossOrdered(ViewOf(s', b)) {
          assert CrossOrdered(ViewOf(s, b));
        }
      }
    }
  }

  lemma ReplaceOwnView(s: State, a: Address, nonce: nat, proof: Proof, balanceRead: nat)
    requires ViewInv(ViewOf(s, a)) && CanReplace(s, a, nonce, proof, balanceRead)
    ensures ViewInv(ViewOf(AfterReplace(s, a, nonce, proof), a))
    ensures CrossOrdered(ViewOf(s, a)) ==>
              (CrossOrdered(ViewOf(AfterReplace(s, a, nonce, proof), a)) <==> StaysBelowInflight(s, a, proof))
  {
    var v := ViewOf(s, a);
    ReplacementBelow(s.queue, a, nonce, proof.maxFee);
    ReplaceView(v, nonce, proof, balanceRead);
    ReplacedView(s, a, nonce, proof);
  }

  lemma ReplacedView(s: State, a: Address, nonce: nat, proof: Proof)
    requires a in s.users && Key(a, nonce) in s.queue && s.queue[Key(a, nonce)].maxFee <= proof.maxFee
    ensures ViewOf(AfterReplace(s, a, nonce, proof), a) == Replaced(ViewOf(s, a), nonce, proof)
  {
    LaneOfPut(s.queue, Key(a, nonce), proof);
  }

  lemma ReplacementBelow(q: Queue, a: Address, nonce: nat, fee: nat)
    requires ReplacementIsValid(q, a, nonce, fee)
    ensures forall n :: n in LaneOf(q, a) && n < nonce ==> fee <= LaneOf(q, a)[n].maxFee
  {
    forall n | n in LaneOf(q, a) && n < nonce ensures fee <= LaneOf(q, a)[n].maxFee {
      assert Key(a, n) in q;
    }
  }

  lemma LaneOfWithout(q: Queue, a: Address)
    ensures LaneOf(Without(q, a), a) == map[]
    ensures forall b :: b != a ==> LaneOf(Without(q, a), b) == LaneOf(q, b)
    ensures |Without(q, a)| <= |q|
  {
    SubsetSize(Without(q, a).Keys, q.Keys);
  }

  lemma SettleKeepsInv(s: State, a: Address)
    requires Inv(s) && s.paid
    ensures Inv(AfterSettle(s, a)) && (AllCrossOrdered(s) ==> AllCrossOrdered(AfterSettle(s, a)))
  {
    var s' := AfterSettle(s, a);
    LaneOfWithout(s.inflight, a);
    forall b ensures Kept(ViewOf(s, b), ViewOf(s', b)) {
      ViewHolds(s, b);
      if b == a {
        SettleView(ViewOf(s, a), ViewOf(s', a));
      } else {
        assert ViewOf(s', b) == ViewOf(s, b);
      }
    }
    AllKeptKeepsInv(s, s');
  }

  lemma RemoveUserKeepsInv(s: State, a: Address)
    requires Inv(s) && LaneOf(s.inflight, a) == map[]
    ensures Inv(AfterRemove(s, a)) && (AllCrossOrdered(s) ==> AllCrossOrdered(AfterRemove(s, a)))
  {
    var s' := AfterRemove(s, a);
    LaneOfWithout(s.queue, a);
    forall b ensures Kept(ViewOf(s, b), ViewOf(s', b)) {
      ViewHolds(s, b);
      if b == a {
        NoUserView(ViewOf(s, a), ViewOf(s', a));
      } else {
        assert ViewOf(s', b) == ViewOf(s, b);
      }
    }
    AllKeptKeepsInv(s, s');
  }

  lemma NoUserView(v: View, v': View)
    requires v'.user.None? && v'.queued == map[] && v'.flying == map[]
    ensures Kept(v, v')
  {
  }

  lemma DepositKeepsInv(s: State, a: Address, amount: nat)
    requires Inv(s)
    ensures Inv(AfterDeposit(s, a, amount)) && (AllCrossOrdered(s) ==> AllCrossOrdered(AfterDeposit(s, a, amount)))
  {
    var s' := AfterDeposit(s, a, amount);
    forall b ensures Kept(ViewOf(s, b), ViewOf(s', b)) {
      ViewHolds(s, b);
      RicherView(ViewOf(s, b), ViewOf(s', b));
    }
    AllKeptKeepsInv(s, s');
  }

  lemma RicherView(v: View, v': View)
    requires ViewInv(v) && v' == v.(account := v'.account)
    requires v'.account.nonce == v.account.nonce && v'.account.balance >= v.account.balance
    ensures Kept(v, v')
  {
    if v.user.Some? {
      var lo, mid :| Window(v, lo, mid, v.user.value.nonce);
      assert Window(v', lo, mid, v.user.value.nonce);
    }
  }

  // --- The batch's life ---

  lemma PartSize(q: Queue, batch: seq<Key>)
    requires NoDuplicates(batch) && KeySet(batch) <= q.Keys
    ensures |Part(q, KeySet(batch))| == |batch| == |KeySet(batch)|
  {
    KeySetSize(batch);
    assert Part(q, KeySet(batch)).Keys == KeySet(batch);
  }

  lemma ExtractKeepsInv(s: State, batch: seq<Key>, gasPrice: nat)
    requires Inv(s) && CanExtract(s, batch, gasPrice)
    ensures Inv(AfterExtract(s, batch, gasPrice)) && AllCrossOrdered(AfterExtract(s, batch, gasPrice))
  {
    var s' := AfterExtract(s, batch, gasPrice);
    var taken := KeySet(batch);
    forall b ensures Kept(ViewOf(s, b), ViewOf(s', b)) && CrossOrdered(ViewOf(s', b)) {
      ViewHolds(s, b);
      ExtractOwnView(s, s', taken, b);
    }
    PartSize(s.queue, batch);
    SubsetSize(s'.queue.Keys, s.queue.Keys);
    assert batch[0] in taken;
    AllKeptKeepsInv(s, s');
  }

  lemma ExtractOwnView(s: State, s': State, taken: set<Key>, b: Address)
    requires ViewInv(ViewOf(s, b)) && s.inflight == map[] && !s.paid
    requires taken <= s.queue.Keys && IsCut(s.queue, taken)
    requires s'.queue == s.queue - taken && s'.inflight == Part(s.queue, taken)
    requires s'.users == s.users && s'.accounts == s.accounts && !s'.paid
    ensures ViewInv(ViewOf(s', b)) && CrossOrdered(ViewOf(s', b))
  {
    var v, v' := ViewOf(s, b), ViewOf(s', b);
    assert v.flying == map[];
    CutLanes(s.queue, taken, b);
    ExtractView(v, v');
  }

  lemma CutLanes(q: Queue, taken: set<Key>, b: Address)
    requires taken <= q.Keys && IsCut(q, taken)
    ensures var rest, part := LaneOf(q - taken, b), LaneOf(Part(q, taken), b);
            && Splits(LaneOf(q, b), rest, part)
            && forall i, j :: i in rest && j in part ==>
                 rest[i].maxFee < part[j].maxFee || (rest[i].maxFee == part[j].maxFee && j <= i)
  {
    var rest, part := LaneOf(q - taken, b), LaneOf(Part(q, taken), b);
    forall i, j | i in rest && j in part
      ensures rest[i].maxFee < part[j].maxFee || (rest[i].maxFee == part[j].maxFee && j <= i)
    {
      var r, k := Key(b, i), Key(b, j);
      assert r in q && r !in taken && k in taken;
      assert !PopsBefore(q, k, r);
    }
  }

  /** The contract charges each sender once per in-flight proof of theirs. */
  lemma {:induction false} SenderShare(q: Queue, batch: seq<Key>, a: Address)
    requires NoDuplicates(batch) && KeySet(batch) <= q.Keys
    ensures Times(SendersOf(batch), a) == |LaneOf(Part(q, KeySet(batch)), a)|
  {
    if batch == [] {
      assert LaneOf(Part(q, KeySet(batch)), a) == map[];
    } else {
      var last := batch[|batch| - 1];
      var shorter := batch[..|batch| - 1];
      PartOfLast(q, batch);
      SenderShare(q, shorter, a);
      assert SendersOf(batch)[..|batch| - 1] == SendersOf(shorter);
      LaneGrows(Part(q, KeySet(shorter)), last, q[last], a);
    }
  }

  lemma PartOfLast(q: Queue, batch: seq<Key>)
    requires NoDuplicates(batch) && KeySet(batch) <= q.Keys && batch != []
    ensures var last, shorter := batch[|batch| - 1], batch[..|batch| - 1];
            && KeySet(shorter) <= q.Keys
            && last in q && last !in Part(q, KeySet(shorter))
            && Part(q, KeySet(batch)) == Part(q, KeySet(shorter))[last := q[last]]
  {
    var last, shorter := batch[|batch| - 1], batch[..|batch| - 1];
    assert KeySet(batch) == KeySet(shorter) + {last};
  }

  lemma LaneGrows(q: Queue, k: Key, p: Proof, a: Address)
    requires k !in q
    ensures |LaneOf(q[k := p], a)| == |LaneOf(q, a)| + if k.sender == a then 1 else 0
  {
    LaneOfPut(q, k, p);
    if k.sender == a {
      var lane := LaneOf(q, a);
      assert lane[k.nonce := p].Keys == lane.Keys + {k.nonce};
    }
  }

  lemma InflightShare(s: State, batch: seq<Key>, a: Address)
    requires Lists(batch, s.inflight)
    ensures Times(SendersOf(batch), a) == |LaneOf(s.inflight, a)|
  {
    SenderShare(s.inflight, batch, a);
    assert Part(s.inflight, s.inflight.Keys) == s.inflight;
  }

  lemma ChargeKeepsInv(s: State, batch: seq<Key>, accounts: Accounts)
    requires Inv(s) && CanCharge(s, batch, accounts)
    ensures var s' := s.(accounts := accounts, paid := true);
            Inv(s') && (AllCrossOrdered(s) ==> AllCrossOrdered(s'))
  {
    var s' := s.(accounts := accounts, paid := true);
    var fee := BatchFee(s);
    forall b ensures Kept(ViewOf(s, b), ViewOf(s', b)) {
      ViewHolds(s, b);
      InflightShare(s, batch, b);
      assert ChargedFor(s.accounts, accounts, SendersOf(batch), fee, b);
      ChargeView(ViewOf(s, b), ViewOf(s', b), fee);
    }
    AllKeptKeepsInv(s, s');
  }

  lemma FinishKeepsInv(s: State)
    requires Inv(s) && s.paid && s.inflight == map[]
    ensures var s' := s.(posting := false, paid := false);
            Inv(s') && AllCrossOrdered(s')
  {
    var s' := s.(posting := false, paid := false);
    forall b ensures Kept(ViewOf(s, b), ViewOf(s', b)) && CrossOrdered(ViewOf(s', b)) {
      ViewHolds(s, b);
      assert ViewOf(s, b).flying == map[];
      FinishView(ViewOf(s, b), ViewOf(s', b));
    }
    AllKeptKeepsInv(s, s');
  }

  ghost predicate NothingOutbid(s: State) {
    forall a :: NoOutbid(ViewOf(s, a).queued, ViewOf(s, a).flying)
  }

  /** Restoring a failed batch with room for all of it re-establishes the invariant exactly when no queued
  proof outbids an in-flight proof of the same sender. */
  lemma RestoreKeepsInv(s: State)
    requires Inv(s) && CanRestore(s)
    ensures Inv(AfterRestore(s)) <==> NothingOutbid(s)
    ensures AllCrossOrdered(AfterRestore(s))
  {
    var s' := AfterRestore(s);
    forall b
      ensures ViewInv(ViewOf(s', b)) <==> NoOutbid(ViewOf(s, b).queued, ViewOf(s, b).flying)
      ensures CrossOrdered(ViewOf(s', b))
    {
      ViewHolds(s, b);
      LaneOfMerge(s.queue, s.inflight, b);
      assert ViewOf(s', b) == Restored(ViewOf(s, b));
      RestoreView(ViewOf(s, b));
    }
    MergeSize(s.queue, s.inflight);
    RestoreInv(s, s');
  }

  lemma RestoreInv(s: State, s': State)
    requires forall b :: ViewInv(ViewOf(s', b)) <==> NoOutbid(ViewOf(s, b).queued, ViewOf(s, b).flying)
    requires |s'.queue| <= s'.config.maxSize && !s'.posting && s'.inflight == map[] && !s'.paid
    ensures Inv(s') <==> NothingOutbid(s)
  {
    if Inv(s') {
      forall b ensures NoOutbid(ViewOf(s, b).queued, ViewOf(s, b).flying) { ViewHolds(s', b); }
    }
    if NothingOutbid(s) {
      forall b ensures ViewInv(ViewOf(s', b)) {
        assert NoOutbid(ViewOf(s, b).queued, ViewOf(s, b).flying);
      }
    }
  }

  lemma MergeSize(q: Queue, f: Queue)
    ensures |q + f| <= |q| + |f|
  {
    assert (q + f).Keys == q.Keys + f.Keys;
    assert q.Keys + f.Keys == q.Keys + (f.Keys - q.Keys);
    SubsetSize(f.Keys - q.Keys, f.Keys);
  }

  lemma CrossOrderedNothingOutbid(s: State)
    requires AllCrossOrdered(s)
    ensures NothingOutbid(s)
  {
    forall a ensures NoOutbid(ViewOf(s, a).queued, ViewOf(s, a).flying) {
      assert CrossOrdered(ViewOf(s, a));
    }
  }

  lemma FlushKeepsInv(s: State, nonPaying: Option<Address>)
    requires Inv(s) && !s.paid
    ensures Inv(AfterFlush(s, nonPaying)) && AllCrossOrdered(AfterFlush(s, nonPaying))
  {
    var s' := AfterFlush(s, nonPaying);
    forall b ensures Kept(ViewOf(s, b), ViewOf(s', b)) && CrossOrdered(ViewOf(s', b)) {
      FreshView(ViewOf(s, b), ViewOf(s', b));
    }
    AllKeptKeepsInv(s, s');
  }

  lemma FreshView(v: View, v': View)
    requires v'.queued == map[] && v'.flying == map[]
    requires v'.user.Some? ==> v'.user.value == NewUser(v'.account.nonce)
    ensures Kept(v, v') && CrossOrdered(v')
  {
    var n := v'.account.nonce;
    assert v'.user.Some? ==> Window(v', n, n, n);
  }

  /** What the contract is about to charge a sender for are exactly its next nonces. */
  lemma InflightAreNextNonces(s: State, a: Address)
    requires Inv(s) && !s.paid
    ensures Interval(LaneOf(s.inflight, a), NonceOf(s, a), NonceOf(s, a) + |LaneOf(s.inflight, a)|)
  {
    ViewHolds(s, a);
    var v := ViewOf(s, a);
    if v.user.Some? {
      var lo, mid :| Window(v, lo, mid, v.user.value.nonce);
      IntervalSize(v.flying, lo, mid);
    }
  }
}
