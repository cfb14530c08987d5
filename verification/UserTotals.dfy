/** `calculate_new_user_states_data` and `get_user_min_fee_in_batch`: folds over the queue in iteration order. */
module UserTotals {
  import opened Basics
  import opened BatchQueue
  import opened BatchExtraction
  import opened BatcherState
  import opened BatcherSteps

  datatype Totals = Totals(count: nat, minFee: nat, fees: nat)

  /** `t` holds a sender exactly when the sender has a queued proof, with the right count, minimum and sum. */
  ghost predicate TotalsFor(q: Queue, t: map<Address, Totals>, a: Address) {
    var lane := LaneOf(q, a);
    && (a in t <==> lane != map[])
    && (a in t ==> t[a].count == |lane| && t[a].fees == Fees(lane) && IsMinFee(lane, t[a].minFee, U256_MAX))
  }

  ghost predicate AllTotals(q: Queue, t: map<Address, Totals>) {
    forall a :: TotalsFor(q, t, a)
  }

  function AddProof(t: map<Address, Totals>, k: Key, p: Proof): map<Address, Totals> {
    var prior := if k.sender in t then t[k.sender] else Totals(0, p.maxFee, 0);
    t[k.sender := Totals(prior.count + 1, if p.maxFee < prior.minFee then p.maxFee else prior.minFee, prior.fees +
        p.maxFee)]
  }

  lemma MinFeePut(m: Lane, n: nat, p: Proof, v: nat)
    requires n !in m && (m != map[] ==> IsMinFee(m, v, U256_MAX)) && (m == map[] ==> v == p.maxFee)
    ensures IsMinFee(m[n := p], if p.maxFee < v then p.maxFee else v, U256_MAX)
  {
    var m' := m[n := p];
    assert m'[n] == p;
    if m != map[] {
      var i :| i in m && m[i].maxFee == v;
      assert m'[i] == m[i];
    }
  }

  lemma AddProofTotals(q: Queue, t: map<Address, Totals>, k: Key, p: Proof, a: Address)
    requires TotalsFor(q, t, a) && k !in q
    ensures TotalsFor(q[k := p], AddProof(t, k, p), a)
  {
    LaneOfPut(q, k, p);
    if a == k.sender {
      var lane := LaneOf(q, a);
      LaneGrows(q, k, p, a);
      FeesPut(lane, k.nonce, p);
      MinFeePut(lane, k.nonce, p, if a in t then t[a].minFee else p.maxFee);
    }
  }

  /** The fold gives the same totals for every order in which the queue can be walked. */
  method CalculateTotals(q: Queue, order: seq<Key>) returns (t: map<Address, Totals>)
    requires Lists(order, q)
    ensures AllTotals(q, t)
  {
    t := map[];
    assert Part(q, KeySet(order[..0])) == map[];
    assert AllTotals(Part(q, KeySet(order[..0])), t) by {
      forall a ensures TotalsFor(map[], map[], a) { assert LaneOf(map[], a) == map[]; }
    }
    for i := 0 to |order|
      invariant KeySet(order[..i]) <= q.Keys && AllTotals(Part(q, KeySet(order[..i])), t)
    {
      var k := order[i];
      assert k in KeySet(order);
      TotalsStep(q, order, i, t);
      t := AddProof(t, k, q[k]);
    }
    assert order[..|order|] == order;
    assert Part(q, q.Keys) == q;
  }

  lemma GrowPart(q: Queue, order: seq<Key>, i: nat)
    requires Lists(order, q) && i < |order| && KeySet(order[..i]) <= q.Keys && order[i] in q
    ensures KeySet(order[..i + 1]) <= q.Keys && order[i] !in Part(q, KeySet(order[..i]))
    ensures Part(q, KeySet(order[..i + 1])) == Part(q, KeySet(order[..i]))[order[i] := q[order[i]]]
  {
    assert order[..i + 1] == order[..i] + [order[i]];
    assert KeySet(order[..i + 1]) == KeySet(order[..i]) + {order[i]};
  }

  lemma TotalsStep(q: Queue, order: seq<Key>, i: nat, t: map<Address, Totals>)
    requires Lists(order, q) && i < |order| && KeySet(order[..i]) <= q.Keys && order[i] in q
    requires AllTotals(Part(q, KeySet(order[..i])), t)
    ensures KeySet(order[..i + 1]) <= q.Keys
    ensures AllTotals(Part(q, KeySet(order[..i + 1])), AddProof(t, order[i], q[order[i]]))
  {
    var k := order[i];
    var part := Part(q, KeySet(order[..i]));
    GrowPart(q, order, i);
    var part', t' := part[k := q[k]], AddProof(t, k, q[k]);
    forall a ensures TotalsFor(part', t', a) {
      assert TotalsFor(part, t, a);
      AddProofTotals(part, t, k, q[k], a);
    }
  }

  /** The record written from the totals is the recomputed one; without a queued proof it is the default. */
  function RecordFrom(nonce: nat, t: map<Address, Totals>, a: Address): UserState {
    if a in t then UserState(nonce, t[a].minFee, t[a].fees, t[a].count) else UserState(nonce, U256_MAX, 0, 0)
  }

  lemma RecordIsRecomputed(q: Queue, t: map<Address, Totals>, nonce: nat, a: Address)
    requires AllTotals(q, t)
    ensures RecordFrom(nonce, t, a) == Recomputed(nonce, LaneOf(q, a))
  {
    assert TotalsFor(q, t, a);
    var lane := LaneOf(q, a);
    var v := MinFee(lane, U256_MAX);
    assert a in t ==> IsMinFee(lane, t[a].minFee, U256_MAX) && IsMinFee(lane, v, U256_MAX);
  }

  ghost predicate BestSoFar(lane: Lane, best: Option<nat>) {
    match best
    case None => lane == map[]
    case Some(v) => lane != map[] && IsMinFee(lane, v, U256_MAX)
  }

  function Better(best: Option<nat>, a: Address, k: Key, fee: nat): Option<nat> {
    if k.sender != a then best
    else if best.Some? && best.value <= fee then best
    else Some(fee)
  }

  /** `get_user_min_fee_in_batch`, walking the queue in any order. */
  method MinFeeInQueue(q: Queue, order: seq<Key>, a: Address) returns (v: nat)
    requires Lists(order, q)
    ensures v == MinFee(LaneOf(q, a), U256_MAX)
  {
    var best: Option<nat> := None;
    assert Part(q, KeySet(order[..0])) == map[];
    assert LaneOf(Part(q, KeySet(order[..0])), a) == map[];
    for i := 0 to |order|
      invariant KeySet(order[..i]) <= q.Keys && BestSoFar(LaneOf(Part(q, KeySet(order[..i])), a), best)
    {
      assert order[i] in KeySet(order);
      BetterStep(q, order, i, a, best);
      best := Better(best, a, order[i], q[order[i]].maxFee);
    }
    assert order[..|order|] == order;
    assert Part(q, q.Keys) == q;
    v := match best case None => U256_MAX case Some(b) => b;
  }

  lemma BetterStep(q: Queue, order: seq<Key>, i: nat, a: Address, best: Option<nat>)
    requires Lists(order, q) && i < |order| && KeySet(order[..i]) <= q.Keys && order[i] in q
    requires BestSoFar(LaneOf(Part(q, KeySet(order[..i])), a), best)
    ensures KeySet(order[..i + 1]) <= q.Keys
    ensures BestSoFar(LaneOf(Part(q, KeySet(order[..i + 1])), a), Better(best, a, order[i], q[order[i]].maxFee))
  {
    var k := order[i];
    var part := Part(q, KeySet(order[..i]));
    GrowPart(q, order, i);
    LaneOfPut(part, k, q[k]);
    if k.sender == a {
      MinFeePut(LaneOf(part, a), k.nonce, q[k], if best.Some? then best.value else q[k].maxFee);
    }
  }
}
