/** Which batch sizes a queue allows at all, and the batch that `extract_batch_directly` chooses
(crates/batcher/src/types/batch_queue.rs). */
module BatchChoice {
  import opened Basics
  import opened BatchQueue
  import opened FeeModel
  import opened BatchExtraction

  // --- The fewest bytes that n proofs take ---

  lemma SlimmestExists(q: Queue)
    requires q != map[]
    ensures exists k :: k in q && forall x :: x in q ==> q[k].bytes <= q[x].bytes
    decreases |q|
  {
    var k := Pick(q);
    var rest := q - {k};
    assert rest.Keys == q.Keys - {k};
    if rest != map[] {
      SlimmestExists(rest);
      var l :| l in rest && forall x :: x in rest ==> rest[l].bytes <= rest[x].bytes;
      var w := if q[k].bytes < q[l].bytes then k else l;
      assert forall x :: x in q ==> x == k || x in rest;
      assert forall x :: x in q ==> q[w].bytes <= q[x].bytes;
    } else {
      assert q.Keys == {k};
    }
  }

  ghost function Slimmest(q: Queue): (k: Key)
    requires q != map[]
    ensures k in q && forall x :: x in q ==> q[k].bytes <= q[x].bytes
  {
    SlimmestExists(q);
    var k :| k in q && forall x :: x in q ==> q[k].bytes <= q[x].bytes; k
  }

  lemma SizeWithout(q: Queue, k: Key)
    requires k in q
    ensures |q - {k}| == |q| - 1 && (q - {k}).Keys == q.Keys - {k}
  {
  }

  /** The bytes of the `n` smallest proofs. */
  ghost function SmallestBytes(q: Queue, n: nat): nat
    requires n <= |q|
    decreases n
  {
    if n == 0 then 0 else
      var k := Slimmest(q);
      SizeWithout(q, k);
      q[k].bytes + SmallestBytes(q - {k}, n - 1)
  }

  lemma BytesOfPart(q: Queue, s: set<Key>, e: Key)
    requires s <= q.Keys && e in s
    ensures Bytes(Part(q, s)) == q[e].bytes + Bytes(Part(q, s - {e})) && |s - {e}| == |s| - 1
  {
    BytesRemove(Part(q, s), e);
    assert Part(q, s) - {e} == Part(q, s - {e});
  }

  lemma SamePart(q: Queue, k: Key, s: set<Key>)
    requires s <= q.Keys && k !in s
    ensures s <= (q - {k}).Keys && Part(q - {k}, s) == Part(q, s)
  {
  }

  /** No `n` proofs take fewer bytes. */
  lemma {:induction false} SmallestIsLeast(q: Queue, n: nat, s: set<Key>)
    requires s <= q.Keys && |s| == n && n <= |q|
    ensures SmallestBytes(q, n) <= Bytes(Part(q, s))
    decreases n
  {
    if n > 0 {
      var k := Slimmest(q);
      var e := if k in s then k else var e :| e in s; e;
      SizeWithout(q, k);
      BytesOfPart(q, s, e);
      SamePart(q, k, s - {e});
      SmallestIsLeast(q - {k}, n - 1, s - {e});
    }
  }

  lemma {:induction false} SmallestIsReached(q: Queue, n: nat) returns (s: set<Key>)
    requires n <= |q|
    ensures s <= q.Keys && |s| == n && Bytes(Part(q, s)) == SmallestBytes(q, n)
    decreases n
  {
    if n == 0 {
      s := {};
      assert Part(q, s) == map[];
    } else {
      var k := Slimmest(q);
      SizeWithout(q, k);
      var rest := SmallestIsReached(q - {k}, n - 1);
      s := rest + {k};
      AddSlimmest(q, k, rest);
    }
  }

  lemma AddSlimmest(q: Queue, k: Key, rest: set<Key>)
    requires k in q && rest <= (q - {k}).Keys
    ensures rest + {k} <= q.Keys && |rest + {k}| == |rest| + 1
    ensures Bytes(Part(q, rest + {k})) == q[k].bytes + Bytes(Part(q - {k}, rest))
  {
    BytesOfPart(q, rest + {k}, k);
    assert rest + {k} - {k} == rest;
    SamePart(q, k, rest);
  }

  // --- The sizes that can be reached ---

  /** The proofs that pay at least `fee`. */
  ghost function Payers(q: Queue, fee: nat): Queue {
    map k | k in q && fee <= q[k].maxFee :: q[k]
  }

  /** Enough proofs pay the fee of a batch of this size, and the smallest of them fit. */
  ghost predicate Achievable(q: Queue, n: nat, l: Limits) {
    && 1 <= n <= l.maxProofs
    && var payers := Payers(q, FeePerProof(n, l.gasPrice, l.constantGas));
       n <= |payers| && 9 + SmallestBytes(payers, n) <= l.maxBytes
  }

  lemma PartOfPayers(q: Queue, fee: nat, s: set<Key>)
    requires s <= Payers(q, fee).Keys
    ensures s <= q.Keys && Part(Payers(q, fee), s) == Part(q, s)
  {
  }

  lemma AcceptableIsAchievable(q: Queue, s: set<Key>, l: Limits)
    requires Acceptable(q, s, l)
    ensures Achievable(q, |s|, l)
  {
    var fee := FeePerProof(|s|, l.gasPrice, l.constantGas);
    var payers := Payers(q, fee);
    assert s <= payers.Keys;
    SubsetSize(s, payers.Keys);
    PartOfPayers(q, fee, s);
    SmallestIsLeast(payers, |s|, s);
  }

  lemma AchievableIsAcceptable(q: Queue, n: nat, l: Limits) returns (s: set<Key>)
    requires Achievable(q, n, l)
    ensures Acceptable(q, s, l) && |s| == n
  {
    var fee := FeePerProof(n, l.gasPrice, l.constantGas);
    s := SmallestIsReached(Payers(q, fee), n);
    PartOfPayers(q, fee, s);
  }

  /** A batch of `n` proofs can be chosen exactly when at least `n` pay for that size and the `n` smallest fit. */
  lemma AchievableExactly(q: Queue, n: nat, l: Limits)
    ensures (exists s: set<Key> :: Acceptable(q, s, l) && |s| == n) <==> Achievable(q, n, l)
  {
    if s: set<Key> :| Acceptable(q, s, l) && |s| == n {
      AcceptableIsAchievable(q, s, l);
    }
    if Achievable(q, n, l) {
      var s := AchievableIsAcceptable(q, n, l);
    }
  }

  /** A batch of `n` proofs is as big as possible exactly when no larger size can be reached. */
  lemma BiggestExactly(q: Queue, n: nat, l: Limits)
    ensures (forall s: set<Key> :: Acceptable(q, s, l) ==> |s| <= n) <==> forall m :: n < m ==> !Achievable(q, m, l)
  {
    if forall s: set<Key> :: Acceptable(q, s, l) ==> |s| <= n {
      forall m | n < m ensures !Achievable(q, m, l) {
        if Achievable(q, m, l) { var s := AchievableIsAcceptable(q, m, l); }
      }
    }
    if forall m :: n < m ==> !Achievable(q, m, l) {
      forall s: set<Key> | Acceptable(q, s, l) ensures |s| <= n {
        AcceptableIsAchievable(q, s, l);
      }
    }
  }

  // --- When the first acceptable rest is the biggest batch ---

  ghost predicate Biggest(q: Queue, b: nat, l: Limits) {
    Achievable(q, b, l) && forall n :: b < n ==> !Achievable(q, n, l)
  }

  /** The last `b` popped are the dearest. */
  ghost predicate DearestFit(q: Queue, order: seq<Key>, b: nat, l: Limits)
    requires KeySet(order) == q.Keys
  {
    b <= |order| && KeySet(order[|order| - b..]) <= q.Keys && BytesFit(Part(q, KeySet(order[|order| - b..])), l)
  }

  lemma RestKeys(q: Queue, order: seq<Key>, i: nat)
    requires NoDuplicates(order) && KeySet(order) == q.Keys && i <= |order|
    ensures KeySet(order[i..]) == q.Keys - KeySet(order[..i]) && |KeySet(order[i..])| == |order| - i
  {
    assert order == order[..i] + order[i..];
    assert KeySet(order) == KeySet(order[..i]) + KeySet(order[i..]);
    KeySetSize(order[i..]);
  }

  lemma RestMember(order: seq<Key>, i: nat, j: nat)
    requires i <= j < |order|
    ensures order[j] in KeySet(order[i..])
  {
    assert order[i..][j - i] == order[j];
  }

  /** When `b` proofs pay a fee, the last `b` popped do. */
  lemma DearestPayAt(q: Queue, order: seq<Key>, b: nat, fee: nat, at: nat)
    requires NoDuplicates(order) && KeySet(order) == q.Keys && InPopOrder(q, order)
    requires b <= |Payers(q, fee)| && |order| - b <= at < |order|
    ensures fee <= q[order[at]].maxFee
  {
    if q[order[at]].maxFee < fee {
      RestKeys(q, order, at + 1);
      PayersComeAfter(q, order, fee, at);
      SubsetSize(Payers(q, fee).Keys, KeySet(order[at + 1..]));
    }
  }

  lemma FromRest(order: seq<Key>, i: nat, e: Key) returns (at: nat)
    requires i <= |order| && e in KeySet(order[i..])
    ensures i <= at < |order| && order[at] == e
  {
    var part := order[i..];
    var x :| 0 <= x < |part| && part[x] == e;
    at := i + x;
  }

  lemma DearestPay(q: Queue, order: seq<Key>, b: nat, fee: nat, e: Key)
    requires NoDuplicates(order) && KeySet(order) == q.Keys && InPopOrder(q, order)
    requires b <= |Payers(q, fee)| && b <= |order| && e in KeySet(order[|order| - b..])
    ensures e in q && fee <= q[e].maxFee
  {
    var at := FromRest(order, |order| - b, e);
    DearestPayAt(q, order, b, fee, at);
  }

  lemma PayersComeAfter(q: Queue, order: seq<Key>, fee: nat, at: nat)
    requires KeySet(order) == q.Keys && InPopOrder(q, order) && at < |order| && q[order[at]].maxFee < fee
    ensures Payers(q, fee).Keys <= KeySet(order[at + 1..])
  {
    forall k | k in Payers(q, fee).Keys ensures k in KeySet(order[at + 1..]) {
      assert k in KeySet(order);
      var j :| 0 <= j < |order| && order[j] == k;
      RestMember(order, at + 1, j);
    }
  }

  lemma DearestAcceptable(q: Queue, order: seq<Key>, b: nat, l: Limits)
    requires NoDuplicates(order) && KeySet(order) == q.Keys && InPopOrder(q, order) && Achievable(q, b, l)
    ensures b <= |order| && KeySet(order[|order| - b..]) <= q.Keys
    ensures DearestFit(q, order, b, l) ==> Acceptable(q, KeySet(order[|order| - b..]), l)
  {
    var fee := FeePerProof(b, l.gasPrice, l.constantGas);
    SubsetSize(Payers(q, fee).Keys, q.Keys);
    KeySetSize(order);
    RestKeys(q, order, |order| - b);
    forall e | e in KeySet(order[|order| - b..]) ensures fee <= q[e].maxFee { DearestPay(q, order, b, fee, e); }
  }

  /** The first acceptable rest, or the empty one when there is none, has the biggest size exactly when the dearest
  proofs of that number fit. */
  lemma LoopIsBiggestExactly(q: Queue, order: seq<Key>, n: nat, b: nat, l: Limits)
    requires NothingBefore(q, order, n, l) && (n < |order| ==> Acceptable(q, KeySet(order[n..]), l)) && Biggest(q, b, l)
    ensures |order| - n == b <==> DearestFit(q, order, b, l)
  {
    DearestAcceptable(q, order, b, l);
    RestKeys(q, order, n);
    if n < |order| { AcceptableIsAchievable(q, KeySet(order[n..]), l); }
    RestKeys(q, order, |order| - b);
    assert |order| - b < n ==> !Acceptable(q, q.Keys - KeySet(order[..|order| - b]), l);
  }

  /** Popping the whole queue in this order, `batch` is the first acceptable rest, or empty when there is none; and it
  is as big as possible exactly when the dearest proofs fit, as many as the biggest batch has. */
  ghost predicate ChosenBy(q: Queue, batch: seq<Key>, l: Limits, order: seq<Key>) {
    && |batch| <= |order| && order[|order| - |batch|..] == batch
    && NothingBefore(q, order, |order| - |batch|, l)
    && forall b :: Biggest(q, b, l) ==> (|batch| == b <==> DearestFit(q, order, b, l))
  }

  /** For some order of equal proofs. */
  ghost predicate IsChosen(q: Queue, batch: seq<Key>, l: Limits) {
    exists order :: ChosenBy(q, batch, l, order)
  }

  lemma FirstIsChosen(q: Queue, batch: seq<Key>, l: Limits, order: seq<Key>)
    requires |batch| <= |order| && order[|order| - |batch|..] == batch && NothingBefore(q, order, |order| - |batch|, l)
    requires batch != [] ==> Acceptable(q, KeySet(batch), l)
    ensures ChosenBy(q, batch, l, order)
  {
    forall b | Biggest(q, b, l) ensures |batch| == b <==> DearestFit(q, order, b, l) {
      LoopIsBiggestExactly(q, order, |order| - |batch|, b, l);
    }
  }

  // --- The extraction ---

  /** The whole extraction. On success the batch is a cut of the queue in priority order whose members all
  cover the fee of a batch of exactly that size; on failure the queue is unchanged. Popping the whole queue in some
  order of equal proofs, the batch is the first acceptable rest, and it is as big as possible exactly when the dearest
  proofs of that order, as many as the biggest batch has, fit. When the size limit does not bind, no other choice of
  proofs gives a larger batch, and a failure means that no choice works. */
  method Extract(q: Queue, l: Limits) returns (r: Option<seq<Key>>, rest: Queue)
    ensures r.Some? ==> IsExtraction(q, r.value, rest, l)
    ensures r.Some? ==> IsChosen(q, r.value, l)
    ensures r.Some? && BytesFit(q, l) ==> NoLargerBatch(q, |r.value|, l)
    ensures r.Some? && BytesFit(q, l) && |q| <= l.maxProofs ==>
              AllBelow(rest, FeePerProof(|r.value|, l.gasPrice, l.constantGas))
    ensures r.None? ==> rest == q
    ensures r.None? ==> IsChosen(q, [], l)
    ensures r.None? && BytesFit(q, l) ==> NoLargerBatch(q, 0, l)
  {
    var accepted, rejected, dropped := DropUnacceptable(q, l);
    rest := PushAll(map[], rejected);
    EmptyPlus(rejected);
    var batch := Drain(accepted);
    DroppedEnough(q, accepted, l);
    if accepted == map[] {
      NothingListed(batch);
      ResultIsChosen(q, dropped, accepted, batch, l);
      r := None;
    } else {
      AcceptedIsExtraction(q, accepted, batch, l);
      ExtractionIsAcceptable(q, batch, q - accepted.Keys, l);
      ResultIsChosen(q, dropped, accepted, batch, l);
      r := Some(batch);
    }
  }

  lemma EmptyPlus(q: Queue)
    ensures map[] + q == q
  {
  }

  /** What the drops leave, in the terms of the contract. */
  lemma DroppedEnough(q: Queue, accepted: Queue, l: Limits)
    requires Dropping(q, accepted, l)
    ensures BytesFit(q, l) ==> NoLargerBatch(q, |accepted|, l)
    ensures BytesFit(q, l) && |q| <= l.maxProofs && accepted != map[] ==>
              AllBelow(q - accepted.Keys, FeePerProof(|accepted|, l.gasPrice, l.constantGas))
  {
  }

  lemma ResultIsChosen(q: Queue, dropped: seq<Key>, accepted: Queue, batch: seq<Key>, l: Limits)
    requires Popped(q, dropped, accepted) && NoneAcceptable(q, dropped, l)
    requires NoDuplicates(batch) && KeySet(batch) == accepted.Keys && InPopOrder(accepted, batch)
    requires batch != [] ==> Acceptable(q, KeySet(batch), l)
    ensures IsChosen(q, batch, l)
  {
    JoinedOrder(q, dropped, accepted, batch, l);
    FirstIsChosen(q, batch, l, dropped + batch);
  }

  lemma ExtractionIsAcceptable(q: Queue, batch: seq<Key>, rest: Queue, l: Limits)
    requires IsExtraction(q, batch, rest, l)
    ensures Acceptable(q, KeySet(batch), l)
  {
    KeySetSize(batch);
  }

  lemma NothingListed(batch: seq<Key>)
    requires NoDuplicates(batch) && KeySet(batch) == {}
    ensures batch == []
  {
    KeySetSize(batch);
  }

  lemma JoinedOrder(q: Queue, dropped: seq<Key>, accepted: Queue, batch: seq<Key>, l: Limits)
    requires Popped(q, dropped, accepted) && NoneAcceptable(q, dropped, l)
    requires NoDuplicates(batch) && KeySet(batch) == accepted.Keys && InPopOrder(accepted, batch)
    ensures var order := dropped + batch;
            NothingBefore(q, order, |order| - |batch|, l) && order[|order| - |batch|..] == batch
    ensures accepted == map[] ==> batch == []
  {
    var order := dropped + batch;
    JoinedKeys(q, dropped, accepted, batch);
    JoinedPops(q, dropped, accepted, batch);
    forall i | 0 <= i < |dropped| ensures order[..i] == dropped[..i] { }
    assert batch != [] ==> batch[0] in KeySet(batch);
    assert accepted == map[] ==> order == dropped;
    assert NothingBefore(q, order, |dropped|, l) && order[|dropped|..] == batch;
  }

  lemma JoinedKeys(q: Queue, dropped: seq<Key>, accepted: Queue, batch: seq<Key>)
    requires Popped(q, dropped, accepted) && NoDuplicates(batch) && KeySet(batch) == accepted.Keys
    ensures NoDuplicates(dropped + batch) && KeySet(dropped + batch) == q.Keys
  {
    assert KeySet(dropped + batch) == KeySet(dropped) + KeySet(batch);
    assert forall k :: k in dropped ==> k in KeySet(dropped);
    assert forall k :: k in batch ==> k in KeySet(batch);
  }

  lemma JoinedPops(q: Queue, dropped: seq<Key>, accepted: Queue, batch: seq<Key>)
    requires Popped(q, dropped, accepted) && KeySet(batch) == accepted.Keys && InPopOrder(accepted, batch)
    ensures InPopOrder(q, dropped + batch)
  {
    var order := dropped + batch;
    forall i | 0 <= i < |order| ensures order[i] in q {
      assert i >= |dropped| ==> batch[i - |dropped|] in KeySet(batch);
    }
    forall i, j | 0 <= i < j < |order| ensures !PopsBefore(q, order[j], order[i]) {
      if i >= |dropped| {
        assert !PopsBefore(accepted, batch[j - |dropped|], batch[i - |dropped|]);
      } else if j >= |dropped| {
        assert batch[j - |dropped|] in accepted;
      }
    }
  }

  lemma AcceptedIsExtraction(q: Queue, accepted: Queue, batch: seq<Key>, l: Limits)
    requires SubQueue(accepted, q) && IsCut(q, accepted.Keys) && accepted != map[]
    requires BytesFit(accepted, l) && |accepted| <= l.maxProofs
    requires AllCover(accepted, FeePerProof(|accepted|, l.gasPrice, l.constantGas))
    requires NoDuplicates(batch) && KeySet(batch) == accepted.Keys && InPopOrder(accepted, batch)
    ensures IsExtraction(q, batch, q - accepted.Keys, l) && |batch| == |accepted|
  {
    KeySetSize(batch);
    assert Part(q, accepted.Keys) == accepted;
    forall i, j | 0 <= i < j < |batch| ensures !PopsBefore(q, batch[j], batch[i]) {
      assert !PopsBefore(accepted, batch[j], batch[i]);
    }
  }
}
