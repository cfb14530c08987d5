/** What each batcher step does to one sender's view of the state. */
module SenderSteps {
  import opened Basics
  import opened BatchQueue
  import opened BatcherState

  // --- Lanes ---

  lemma EmptyInterval(m: Lane, lo: nat, mid: nat)
    requires Interval(m, lo, mid)
    ensures m == map[] <==> lo == mid
  {
    if lo < mid { assert lo in m; }
  }

  /** Appending a proof that pays at most the limit. */
  lemma AppendLane(m: Lane, n: nat, proof: Proof, limit: nat)
    requires FeesFall(m) && (forall i :: i in m ==> i < n)
    requires m != map[] ==> IsMinFee(m, limit, U256_MAX)
    requires proof.maxFee <= limit
    ensures FeesFall(m[n := proof]) && IsMinFee(m[n := proof], proof.maxFee, U256_MAX)
    ensures |m[n := proof]| == |m| + 1
  {
    var m' := m[n := proof];
    assert n in m' && m'[n].maxFee == proof.maxFee;
    assert m'.Keys == m.Keys + {n};
  }

  /** Raising one proof's fee without passing a proof of lower nonce. */
  lemma RaiseLane(m: Lane, n: nat, proof: Proof)
    requires FeesFall(m) && n in m && m[n].maxFee <= proof.maxFee
    requires forall i :: i in m && i < n ==> proof.maxFee <= m[i].maxFee
    ensures FeesFall(m[n := proof]) && m[n := proof].Keys == m.Keys && |m[n := proof]| == |m|
  {
  }

  // --- Submission ---

  ghost function Submitted(v: View, proof: Proof): View
    requires v.user.Some?
  {
    var u := v.user.value;
    v.(queued := v.queued[u.nonce := proof],
       user := Some(UserState(u.nonce + 1, proof.maxFee, u.totalFeesInQueue + proof.maxFee, u.proofsInBatch + 1)))
  }

  lemma SubmitView(v: View, proof: Proof, balanceRead: nat)
    requires ViewInv(v) && v.user.Some?
    requires BalanceRead(v, balanceRead) && v.user.value.totalFeesInQueue + proof.maxFee <= balanceRead
    requires proof.maxFee <= v.user.value.lastMaxFeeLimit
    ensures ViewInv(Submitted(v, proof))
    ensures CrossOrdered(v) ==> CrossOrdered(Submitted(v, proof))
  {
    SubmitWindow(v, proof);
    SubmitOrder(v, proof);
    SubmitTally(v, proof, balanceRead);
  }

  lemma SubmitWindow(v: View, proof: Proof)
    requires GapFree(v) && v.user.Some?
    ensures GapFree(Submitted(v, proof))
    ensures forall n :: n in v.queued ==> n < v.user.value.nonce
  {
    var lo, mid :| Window(v, lo, mid, v.user.value.nonce);
    assert Window(Submitted(v, proof), lo, mid, v.user.value.nonce + 1);
  }

  lemma SubmitOrder(v: View, proof: Proof)
    requires FeesFall(v.queued) && Limited(v) && v.user.Some?
    requires forall n :: n in v.queued ==> n < v.user.value.nonce
    requires proof.maxFee <= v.user.value.lastMaxFeeLimit
    ensures FeesFall(Submitted(v, proof).queued) && Limited(Submitted(v, proof))
    ensures CrossOrdered(v) ==> CrossOrdered(Submitted(v, proof))
  {
    AppendLane(v.queued, v.user.value.nonce, proof, v.user.value.lastMaxFeeLimit);
  }

  lemma SubmitTally(v: View, proof: Proof, balanceRead: nat)
    requires Tallied(v) && v.user.Some? && v.user.value.nonce !in v.queued
    requires BalanceRead(v, balanceRead) && v.user.value.totalFeesInQueue + proof.maxFee <= balanceRead
    ensures Tallied(Submitted(v, proof)) && Owed(Submitted(v, proof)) <= v.account.balance
  {
    FeesPut(v.queued, v.user.value.nonce, proof);
    SizePut(v.queued, v.user.value.nonce, proof);
  }

  lemma SizePut(m: Lane, n: nat, p: Proof)
    requires n !in m
    ensures |m[n := p]| == |m| + 1
  {
    assert m[n := p].Keys == m.Keys + {n};
  }

  // --- Replacement ---

  ghost function Replaced(v: View, nonce: nat, proof: Proof): View
    requires v.user.Some? && nonce in v.queued && v.queued[nonce].maxFee <= proof.maxFee
  {
    var u := v.user.value;
    var queued := v.queued[nonce := proof];
    v.(queued := queued,
       user := Some(u.(lastMaxFeeLimit := MinFee(queued, U256_MAX),
                       totalFeesInQueue := u.totalFeesInQueue + (proof.maxFee - v.queued[nonce].maxFee))))
  }

  lemma ReplaceView(v: View, nonce: nat, proof: Proof, balanceRead: nat)
    requires ViewInv(v) && v.user.Some? && nonce in v.queued && v.queued[nonce].maxFee <= proof.maxFee
    requires BalanceRead(v, balanceRead) && v.user.value.totalFeesInQueue + proof.maxFee <= balanceRead
    requires forall n :: n in v.queued && n < nonce ==> proof.maxFee <= v.queued[n].maxFee
    ensures ViewInv(Replaced(v, nonce, proof))
    ensures CrossOrdered(v) ==>
              (CrossOrdered(Replaced(v, nonce, proof)) <==>
                  forall f :: f in v.flying ==> proof.maxFee <= v.flying[f].maxFee)
  {
    var v' := Replaced(v, nonce, proof);
    RaiseLane(v.queued, nonce, proof);
    ReplaceWindow(v, v');
    ReplaceTally(v, nonce, proof, balanceRead);
    ReplaceCross(v, v', nonce, proof);
  }

  lemma ReplaceWindow(v: View, v': View)
    requires GapFree(v) && v.user.Some? && v'.user.Some? && v'.user.value.nonce == v.user.value.nonce
    requires v'.queued.Keys == v.queued.Keys && v'.flying == v.flying && v'.paid == v.paid && v'.account == v.account
    ensures GapFree(v')
  {
    var lo, mid :| Window(v, lo, mid, v.user.value.nonce);
    assert Window(v', lo, mid, v.user.value.nonce);
  }

  lemma ReplaceTally(v: View, nonce: nat, proof: Proof, balanceRead: nat)
    requires Tallied(v) && v.user.Some? && nonce in v.queued && v.queued[nonce].maxFee <= proof.maxFee
    requires BalanceRead(v, balanceRead) && v.user.value.totalFeesInQueue + proof.maxFee <= balanceRead
    ensures Tallied(Replaced(v, nonce, proof)) && Owed(Replaced(v, nonce, proof)) <= v.account.balance
  {
    FeesPut(v.queued, nonce, proof);
    assert Replaced(v, nonce, proof).queued.Keys == v.queued.Keys;
  }

  lemma ReplaceCross(v: View, v': View, nonce: nat, proof: Proof)
    requires nonce in v.queued && v.user.Some? && v'.user.Some?
    requires v'.queued == v.queued[nonce := proof] && v'.flying == v.flying
    requires v'.user.value.lastMaxFeeLimit == MinFee(v'.queued, U256_MAX)
    ensures CrossOrdered(v) ==> (CrossOrdered(v') <==> forall f :: f in v.flying ==> proof.maxFee <= v.flying[f].maxFee)
  {
    assert v'.queued[nonce] == proof;
    assert forall n :: n in v'.queued && n != nonce ==> n in v.queued && v.queued[n] == v'.queued[n];
  }

  // --- Extraction ---

  /** A part of a gap-free lane that is closed towards lower nonces is itself gap free. */
  lemma {:induction false} LowerPart(m: Lane, lo: nat, hi: nat, part: Lane) returns (mid: nat)
    requires Interval(m, lo, hi) && part.Keys <= m.Keys
    requires forall i, j :: i in m && j in part && i < j ==> i in part
    ensures lo <= mid <= hi && Interval(part, lo, mid)
    decreases hi - lo
  {
    if lo == hi {
      mid := hi;
    } else if hi - 1 in part {
      mid := hi;
    } else {
      mid := LowerPart(m - {hi - 1}, lo, hi - 1, part);
    }
  }

  ghost predicate Splits(queued: Lane, rest: Lane, taken: Lane) {
    rest.Keys !! taken.Keys && rest + taken == queued
  }

  lemma ExtractView(v: View, v': View)
    requires ViewInv(v) && v.flying == map[] && !v.paid
    requires v'.user == v.user && v'.account == v.account && !v'.paid
    requires Splits(v.queued, v'.queued, v'.flying)
    requires forall i, j :: i in v'.queued && j in v'.flying ==>
               v'.queued[i].maxFee < v'.flying[j].maxFee || (v'.queued[i].maxFee == v'.flying[j].maxFee && j <= i)
    ensures ViewInv(v') && CrossOrdered(v')
  {
    ExtractBelow(v.queued, v'.queued, v'.flying);
    ExtractOrder(v, v');
    ExtractTally(v, v');
    if v.user.Some? {
      ExtractWindow(v, v');
      ExtractLimit(v, v');
    } else {
      assert v.queued == map[];
    }
  }

  /** The cut takes the lower nonces of each sender. */
  lemma ExtractBelow(queued: Lane, rest: Lane, taken: Lane)
    requires FeesFall(queued) && Splits(queued, rest, taken)
    requires forall i, j :: i in rest && j in taken ==>
               rest[i].maxFee < taken[j].maxFee || (rest[i].maxFee == taken[j].maxFee && j <= i)
    ensures forall i, j :: i in rest && j in taken ==> j < i
  {
    forall i, j | i in rest && j in taken ensures j < i {
      assert i in queued && queued[i] == rest[i];
      assert j in queued && queued[j] == taken[j];
    }
  }

  lemma ExtractTally(v: View, v': View)
    requires Tallied(v) && v.flying == map[] && !v.paid && !v'.paid
    requires v'.user == v.user && Splits(v.queued, v'.queued, v'.flying)
    ensures Tallied(v') && Owed(v') == Owed(v)
  {
    FeesMerge(v'.queued, v'.flying);
    SizeMerge(v'.queued, v'.flying);
  }

  lemma ExtractWindow(v: View, v': View)
    requires GapFree(v) && v.user.Some? && v.flying == map[] && !v.paid && !v'.paid
    requires v'.user == v.user && v'.account == v.account && Splits(v.queued, v'.queued, v'.flying)
    requires forall i, j :: i in v'.queued && j in v'.flying ==> j < i
    ensures GapFree(v')
  {
    var hi := v.user.value.nonce;
    var lo, mid :| Window(v, lo, mid, hi);
    EmptyInterval(v.flying, lo, mid);
    assert v.queued.Keys == v'.queued.Keys + v'.flying.Keys;
    var m := LowerPart(v.queued, lo, hi, v'.flying);
    assert Window(v', lo, m, hi);
  }

  lemma ExtractOrder(v: View, v': View)
    requires FeesFall(v.queued) && Splits(v.queued, v'.queued, v'.flying)
    ensures FeesFall(v'.queued) && FeesFall(v'.flying)
  {
    assert forall n :: n in v'.queued ==> n in v.queued && v.queued[n] == v'.queued[n];
    assert forall n :: n in v'.flying ==> n in v.queued && v.queued[n] == v'.flying[n];
  }

  lemma ExtractLimit(v: View, v': View)
    requires FeesFall(v.queued) && Limited(v) && v.flying == map[] && v.user.Some? && v'.user == v.user
    requires Splits(v.queued, v'.queued, v'.flying)
    requires forall i, j :: i in v'.queued && j in v'.flying ==> j < i
    ensures Limited(v') && CrossOrdered(v')
  {
    var limit := v.user.value.lastMaxFeeLimit;
    assert forall n :: n in v'.queued ==> n in v.queued && v.queued[n] == v'.queued[n];
    assert forall n :: n in v'.flying ==> n in v.queued && v.queued[n] == v'.flying[n];
    if v'.queued != map[] {
      var n :| n in v.queued && v.queued[n].maxFee == limit;
      var r :| r in v'.queued;
      assert n in v'.flying ==> v'.queued[r].maxFee == limit;
    }
  }

  lemma ChargeView(v: View, v': View, fee: nat)
    requires ViewInv(v) && !v.paid
    requires forall n :: n in v.flying ==> fee <= v.flying[n].maxFee
    requires v' == v.(paid := true, account := v'.account)
    requires v'.account.nonce == v.account.nonce + |v.flying|
    requires v'.account.balance + fee * |v.flying| == v.account.balance
    ensures ViewInv(v')
    ensures CrossOrdered(v) ==> CrossOrdered(v')
  {
    FeesAtLeast(v.flying, fee);
    if v.user.Some? {
      var lo, mid :| Window(v, lo, mid, v.user.value.nonce);
      IntervalSize(v.flying, lo, mid);
      assert Window(v', lo, mid, v.user.value.nonce);
    }
  }

  lemma SettleView(v: View, v': View)
    requires ViewInv(v) && v.paid
    requires v' == v.(flying := map[],
                      user := if v.user.Some? then Some(Recomputed(v.user.value.nonce, v.queued)) else None)
    ensures ViewInv(v') && CrossOrdered(v')
  {
    if v.user.Some? {
      var lo, mid :| Window(v, lo, mid, v.user.value.nonce);
      assert Window(v', mid, mid, v.user.value.nonce);
    }
  }

  lemma FinishView(v: View, v': View)
    requires ViewInv(v) && v.paid && v.flying == map[]
    requires v' == v.(paid := false)
    ensures ViewInv(v') && CrossOrdered(v')
  {
    if v.user.Some? {
      var lo, mid :| Window(v, lo, mid, v.user.value.nonce);
      EmptyInterval(v.flying, lo, mid);
      assert Window(v', lo, mid, v.user.value.nonce);
    }
  }

  // --- Restoring a failed batch ---

  ghost function Restored(v: View): View {
    var queued := v.queued + v.flying;
    v.(queued := queued, flying := map[],
       user := if v.user.Some? && v.flying != map[] then Some(Recomputed(v.user.value.nonce, queued)) else v.user)
  }

  ghost predicate NoOutbid(queued: Lane, flying: Lane) {
    forall i, j :: i in queued && j in flying ==> queued[i].maxFee <= flying[j].maxFee
  }

  /** Putting a failed batch back keeps the invariant exactly when no queued proof outbids an in-flight one. */
  lemma RestoreView(v: View)
    requires ViewInv(v) && !v.paid
    ensures ViewInv(Restored(v)) <==> NoOutbid(v.queued, v.flying)
    ensures CrossOrdered(Restored(v))
  {
    if v.user.Some? {
      RestoreWindow(v);
      RestoreTally(v);
    } else {
      assert Restored(v).queued == map[];
    }
  }

  lemma RestoreWindow(v: View)
    requires GapFree(v) && !v.paid && v.user.Some? && FeesFall(v.queued) && FeesFall(v.flying)
    ensures GapFree(Restored(v)) && v.queued.Keys !! v.flying.Keys
    ensures FeesFall(Restored(v).queued) <==> NoOutbid(v.queued, v.flying)
  {
    var hi := v.user.value.nonce;
    var lo, mid :| Window(v, lo, mid, hi);
    RestoreOrder(v.queued, v.flying, lo, mid, hi);
    assert Window(Restored(v), lo, lo, hi);
  }

  lemma RestoreTally(v: View)
    requires Tallied(v) && Limited(v) && !v.paid && v.user.Some? && v.queued.Keys !! v.flying.Keys
    ensures Tallied(Restored(v)) && Limited(Restored(v)) && Owed(Restored(v)) == Owed(v)
  {
    FeesMerge(v.queued, v.flying);
    if v.flying == map[] { assert Restored(v).queued == v.queued; }
  }

  lemma RestoreOrder(queued: Lane, flying: Lane, lo: nat, mid: nat, hi: nat)
    requires Interval(flying, lo, mid) && Interval(queued, mid, hi)
    requires FeesFall(queued) && FeesFall(flying)
    ensures FeesFall(queued + flying) <==> NoOutbid(queued, flying)
    ensures Interval(queued + flying, lo, hi)
  {
    var all := queued + flying;
    if FeesFall(all) {
      forall i, j | i in queued && j in flying ensures queued[i].maxFee <= flying[j].maxFee {
        assert all[i] == queued[i] && all[j] == flying[j];
      }
    }
  }
}
