/** When every restore of a failed batch, however ties are broken, keeps the batcher's invariant: a condition on the
queue, the batch and the limit. */
module RestoreSafety {
  import opened Basics
  import opened BatchQueue
  import opened BatchExtraction
  import opened BatcherState
  import opened BatcherSteps
  import opened BatchRestore
  import opened RestoreInvariant
  import opened RestoreOrder

  // --- The condition ---

  ghost predicate Owns(all: Queue, a: Address, k: Key) {
    k in all && k.sender == a
  }

  /** At turn `t` all proofs of the sender seen so far, and there are some, may have been evicted. */
  ghost predicate GoneAt(c: Refill, a: Address, t: nat)
    requires c.Valid()
  {
    && t < |c.batch| && Has(Seen(c, t).Keys, a)
    && forall x :: x in Seen(c, t).Keys && x.sender == a ==> MayBeEvicted(Seen(c, t + 1), Away(c), c.Cap(), x)
  }

  /** Then the record is forgotten, and a proof of theirs from that turn on may stay. */
  ghost predicate ForgetsAt(c: Refill, a: Address, t: nat, j: nat)
    requires c.Valid()
  {
    t <= j < |c.batch| && c.batch[j].sender == a && MayStay(c.All(), Away(c), c.Cap(), c.batch[j]) && GoneAt(c, a, t)
  }

  ghost predicate MayForget(c: Refill, a: Address)
    requires c.Valid()
  {
    exists t: nat, j: nat :: ForgetsAt(c, a, t, j)
  }

  /** A queued proof that pays more than one of the same sender that goes back and may stay. */
  ghost predicate Outbids(q: Queue, f: Queue, away: set<Key>, cap: nat, a: Address, i: Key, j: Key) {
    && i in q && j in f && i.sender == a && j.sender == a && q[i].maxFee > f[j].maxFee
    && MayStay(q + f, away, cap, j)
  }

  /** One of the sender's proofs may be evicted while two that pay differently stay: the limit is then set by whichever
  of them is iterated last. */
  ghost predicate LimitOpen(all: Queue, away: set<Key>, cap: nat, a: Address, x: Key, y: Key, w: Key) {
    && Owns(all, a, x) && Owns(all, a, y) && Owns(all, a, w) && x != y && all[y].maxFee < all[w].maxFee
    && MayBeEvicted(all, away, cap, x) && MayStay(all, away, cap, y)
  }

  ghost predicate OwnsNothing(all: Queue, a: Address) {
    forall k :: k in all ==> k.sender != a
  }

  ghost predicate NoneMayStay(all: Queue, away: set<Key>, cap: nat, a: Address) {
    forall y :: Owns(all, a, y) ==> !MayStay(all, away, cap, y)
  }

  /** Nothing of theirs may stay, and something of theirs was let in, so that the record goes with the last proof. */
  ghost predicate AllGo(all: Queue, away: set<Key>, cap: nat, a: Address) {
    NoneMayStay(all, away, cap, a) && exists k :: Owns(all, a, k) && k !in away
  }

  ghost predicate NoneAway(all: Queue, away: set<Key>, a: Address) {
    forall k :: Owns(all, a, k) ==> k !in away
  }

  /** None of theirs is turned away, what stays is a lower part in order, the record stays with it, and without a
  recomputation its limit is right. */
  ghost predicate StaysInOrder(c: Refill, a: Address)
    requires c.Valid()
  {
    && NoneAway(c.All(), Away(c), a)
    && (forall x, y :: Owns(c.All(), a, x) && Owns(c.All(), a, y) ==> !CanSplit(c, x, y))
    && (forall i, j :: !Outbids(c.queue, c.f, Away(c), c.Cap(), a, i, j))
    && !MayForget(c, a)
    && (OwnsNothing(c.f, a) ==> forall x, y, w :: !LimitOpen(c.All(), Away(c), c.Cap(), a, x, y, w))
  }

  ghost predicate SenderSafe(c: Refill, a: Address)
    requires c.Valid()
  {
    OwnsNothing(c.All(), a) || AllGo(c.All(), Away(c), c.Cap(), a) || StaysInOrder(c, a)
  }

  ghost predicate RestoreSafe(c: Refill)
    requires c.Valid()
  {
    c.limit >= 1 && forall a :: SenderSafe(c, a)
  }

  // --- Records along a run ---

  /** A sender's record is untouched while nothing of theirs is evicted; after that its limit is the fee of one of
  their queued proofs. */
  ghost predicate RecordOk(users: Users, m: Merge, a: Address) {
    && (a in m.users ==> a in users)
    && (a in users && !Has(m.evicted.Keys, a) ==> a in m.users && m.users[a] == users[a])
    && (a in m.users && Has(m.evicted.Keys, a) ==> SetsLimit(m, a))
  }

  ghost predicate SetsLimit(m: Merge, a: Address) {
    a in m.users && exists y :: y in m.queue && y.sender == a && m.queue[y].maxFee == m.users[a].lastMaxFeeLimit
  }

  lemma PushKeepsLimit(m: Merge, k: Key, p: Proof, m': Merge, a: Address)
    requires SetsLimit(m, a) && k !in m.queue && m'.queue == m.queue[k := p] && a in m'.users
    requires m'.users[a] == m.users[a]
    ensures SetsLimit(m', a)
  {
    var y :| y in m.queue && y.sender == a && m.queue[y].maxFee == m.users[a].lastMaxFeeLimit;
    assert m'.queue[y] == m.queue[y];
  }

  lemma EvictRecord(users: Users, m: Merge, k: Key, p: Proof, m': Merge, low: Key, other: Option<Proof>, a: Address)
    requires RecordOk(users, m, a) && k !in m.queue && Evicts(m, k, p, m', low, other)
    ensures RecordOk(users, m', a)
  {
    KeysAfterPut(m.evicted, low, m.queue[low]);
    if low.sender == a {
      assert Has(m'.evicted.Keys, a);
      if a in m'.users {
        var y :| y in m.queue - {low} && y.sender == a && Some((m.queue - {low})[y]) == other;
        assert y in m'.queue && m'.queue[y] == m.queue[y];
      }
    } else {
      EvictOthers(m, k, p, m', low, a);
    }
  }

  lemma EvictOthers(m: Merge, k: Key, p: Proof, m': Merge, low: Key, a: Address)
    requires low in m.queue && low.sender != a && k !in m.queue && m'.queue == (m.queue - {low})[k := p]
    requires m'.evicted.Keys == m.evicted.Keys + {low}
    ensures Has(m'.evicted.Keys, a) <==> Has(m.evicted.Keys, a)
    ensures SetsLimit(m, a) && a in m'.users && m'.users[a] == m.users[a] ==> SetsLimit(m', a)
  {
    if Has(m'.evicted.Keys, a) {
      var z :| z in m'.evicted.Keys && z.sender == a;
      assert z in m.evicted.Keys;
    }
    if Has(m.evicted.Keys, a) {
      var z :| z in m.evicted.Keys && z.sender == a;
      assert z in m'.evicted.Keys;
    }
    if SetsLimit(m, a) && a in m'.users && m'.users[a] == m.users[a] {
      var y :| y in m.queue && y.sender == a && m.queue[y].maxFee == m.users[a].lastMaxFeeLimit;
      assert m'.queue[y] == m.queue[y];
    }
  }

  lemma TurnRecord(users: Users, m: Merge, k: Key, p: Proof, limit: nat, m': Merge, a: Address)
    requires RecordOk(users, m, a) && k !in m.queue && MergeOne(m, k, p, limit, m')
    ensures RecordOk(users, m', a)
  {
    var turn :| Takes(m, k, p, limit, m', turn);
    match turn
    case Push => if SetsLimit(m, a) { PushKeepsLimit(m, k, p, m', a); }
    case Evict(low, other) => EvictRecord(users, m, k, p, m', low, other, a);
    case Drop(low) =>
  }

  lemma NotYetQueued(c: Refill, t: nat, m: Merge)
    requires c.Valid() && t < |c.batch| && After(c, t, m)
    ensures c.batch[t] !in m.queue
  {
    SeenGrows(c, t);
    PartInside(Seen(c, t), Seen(c, t), m);
  }

  lemma {:induction false} PrefixRecord(c: Refill, users: Users, t: nat, m: Merge, a: Address)
    requires c.Valid() && t <= |c.batch| && KeySet(c.batch[..t]) <= c.f.Keys
    requires MergeRun(Merge(c.queue, users, map[], map[]), c.batch[..t], c.f, c.limit, m)
    ensures RecordOk(users, m, a)
    decreases t
  {
    if t == 0 {
      assert !Has(m.evicted.Keys, a);
    } else {
      var i: nat := t - 1;
      var mid := LastTurn(Merge(c.queue, users, map[], map[]), c.batch, c.f, c.limit, i, t, m);
      PrefixRecord(c, users, i, mid, a);
      PrefixKeeps(c, users, i, mid);
      NotYetQueued(c, i, mid);
      TurnRecord(users, mid, c.batch[i], c.f[c.batch[i]], c.limit, m, a);
    }
  }

  // --- Forgotten records ---

  /** None of the sender's queued proofs had been seen at turn `t`. */
  ghost predicate NoneFrom(c: Refill, t: nat, q: Queue, a: Address)
    requires c.Valid() && t <= |c.batch|
  {
    forall k :: k in q && k.sender == a ==> k !in Seen(c, t)
  }

  ghost predicate ForgottenAt(c: Refill, a: Address, t: nat, q: Queue)
    requires c.Valid()
  {
    GoneAt(c, a, t) && NoneFrom(c, t, q, a)
  }

  lemma {:induction false} SeenMonotone(c: Refill, t: nat, u: nat)
    requires c.Valid() && t <= u <= |c.batch|
    ensures Seen(c, t).Keys <= Seen(c, u).Keys
    decreases u - t
  {
    if t < u {
      var i: nat := u - 1;
      SeenMonotone(c, t, i);
      SeenGrows(c, i);
    }
  }

  lemma SeenOwned(c: Refill, t: nat, k: Key)
    requires c.Valid() && t <= |c.batch| && k in Seen(c, t)
    ensures k in c.All()
  {
    SeenInAll(c, t);
  }

  lemma OwnAreEvicted(seen: set<Key>, away: set<Key>, r: Places, r': Places, low: Key, a: Address)
    requires seen == r.kept + r.evicted + r.dropped && r.dropped <= away && r'.evicted == r.evicted + {low}
    requires forall x :: x in r.kept && x.sender == a ==> x == low
    requires forall x :: x in seen && x.sender == a ==> x !in away
    ensures forall x :: x in seen && x.sender == a ==> x in r'.evicted
  {
  }

  lemma EvictedMayGo(seen: Queue, away: set<Key>, r: Places, cap: nat, a: Address, own: set<Key>)
    requires Ended(seen, away, r, cap) && forall x :: x in own && x.sender == a ==> x in r.evicted
    ensures forall x :: x in own && x.sender == a ==> MayBeEvicted(seen, away, cap, x)
  {
    forall x | x in own && x.sender == a ensures MayBeEvicted(seen, away, cap, x) {
      EvictedHasRivals(seen, away, r, cap, x);
    }
  }

  lemma OwnNotAway(c: Refill, t: nat, a: Address)
    requires c.Valid() && t <= |c.batch| && NoneAway(c.All(), Away(c), a)
    ensures forall x :: x in Seen(c, t).Keys && x.sender == a ==> x !in Away(c)
  {
    forall x | x in Seen(c, t).Keys && x.sender == a ensures x !in Away(c) { SeenOwned(c, t, x); }
  }

  lemma EvictLeavesNone(c: Refill, t: nat, m: Merge, m': Merge, low: Key, a: Address)
    requires c.Valid() && t < |c.batch| && c.batch[t] in c.f
    requires Evicts(m, c.batch[t], c.f[c.batch[t]], m', low, None) && low.sender == a
    ensures NoneFrom(c, t, m'.queue, a) && forall x :: x in m.queue.Keys && x.sender == a ==> x == low
  {
    SeenGrows(c, t);
    OnlyLow(m, c.batch[t], c.f[c.batch[t]], m', low, a);
  }

  lemma OnlyLow(m: Merge, k: Key, p: Proof, m': Merge, low: Key, a: Address)
    requires Evicts(m, k, p, m', low, None) && low.sender == a
    ensures forall x :: x in m.queue.Keys && x.sender == a ==> x == low
    ensures forall x :: x in m'.queue && x.sender == a ==> x == k
  {
    assert forall x :: x in m.queue - {low} ==> x.sender != a;
  }

  lemma AllEvicted(c: Refill, t: nat, m: Merge, m': Merge, low: Key, a: Address)
    requires c.Valid() && t < |c.batch| && NoneAway(c.All(), Away(c), a)
    requires Ended(Seen(c, t), Away(c), PlacesOf(m), c.Cap())
    requires low in m.queue && m'.evicted == m.evicted[low := m.queue[low]]
    requires low.sender == a && forall x :: x in m.queue.Keys && x.sender == a ==> x == low
    ensures Has(Seen(c, t).Keys, a) && forall x :: x in Seen(c, t).Keys && x.sender == a ==> x in m'.evicted.Keys
  {
    OwnNotAway(c, t, a);
    KeysAfterPut(m.evicted, low, m.queue[low]);
    OwnAreEvicted(Seen(c, t).Keys, Away(c), PlacesOf(m), PlacesOf(m'), low, a);
    assert low in Seen(c, t).Keys;
  }

  /** An eviction that forgets the record leaves none of the proofs seen before. */
  lemma EvictForgets(c: Refill, t: nat, u: nat, m: Merge, m': Merge, low: Key, a: Address)
    requires c.Valid() && u == t + 1 <= |c.batch| && NoneAway(c.All(), Away(c), a)
    requires Ended(Seen(c, t), Away(c), PlacesOf(m), c.Cap()) && Ended(Seen(c, u), Away(c), PlacesOf(m'), c.Cap())
    requires c.batch[t] in c.f && Evicts(m, c.batch[t], c.f[c.batch[t]], m', low, None) && low.sender == a
    ensures ForgottenAt(c, a, t, m'.queue)
  {
    EvictLeavesNone(c, t, m, m', low, a);
    AllEvicted(c, t, m, m', low, a);
    EvictedMayGo(Seen(c, u), Away(c), PlacesOf(m'), c.Cap(), a, Seen(c, t).Keys);
  }

  lemma TurnForgets(c: Refill, t: nat, u: nat, m: Merge, m': Merge, a: Address)
    requires c.Valid() && u == t + 1 <= |c.batch| && NoneAway(c.All(), Away(c), a)
    requires Ended(Seen(c, t), Away(c), PlacesOf(m), c.Cap()) && Ended(Seen(c, u), Away(c), PlacesOf(m'), c.Cap())
    requires c.batch[t] in c.f && MergeOne(m, c.batch[t], c.f[c.batch[t]], c.limit, m') && a in m.users
    requires a !in m'.users
    ensures ForgottenAt(c, a, t, m'.queue)
  {
    var low := ForgettingTurn(m, c.batch[t], c.f[c.batch[t]], c.limit, m', a);
    EvictForgets(c, t, u, m, m', low, a);
  }

  lemma ForgettingTurn(m: Merge, k: Key, p: Proof, limit: nat, m': Merge, a: Address) returns (low: Key)
    requires MergeOne(m, k, p, limit, m') && a in m.users && a !in m'.users
    ensures Evicts(m, k, p, m', low, None) && low.sender == a
  {
    var turn :| Takes(m, k, p, limit, m', turn);
    low := turn.low;
  }

  lemma StillForgotten(c: Refill, t: nat, i: nat, m: Merge, m': Merge, a: Address)
    requires c.Valid() && t <= i < |c.batch| && ForgottenAt(c, a, t, m.queue)
    requires c.batch[i] in c.f && MergeOne(m, c.batch[i], c.f[c.batch[i]], c.limit, m')
    ensures ForgottenAt(c, a, t, m'.queue)
  {
    SeenGrows(c, i);
    SeenMonotone(c, t, i);
    QueueGains(m, c.batch[i], c.f[c.batch[i]], c.limit, m');
  }

  lemma QueueGains(m: Merge, k: Key, p: Proof, limit: nat, m': Merge)
    requires MergeOne(m, k, p, limit, m')
    ensures m'.queue.Keys <= m.queue.Keys + {k} && m'.users.Keys <= m.users.Keys
  {
  }

  lemma {:induction false} PrefixForgets(c: Refill, users: Users, t: nat, m: Merge, a: Address) returns (at: nat)
    requires c.Valid() && t <= |c.batch| && KeySet(c.batch[..t]) <= c.f.Keys && NoneAway(c.All(), Away(c), a)
    requires MergeRun(Merge(c.queue, users, map[], map[]), c.batch[..t], c.f, c.limit, m)
    requires a in users && a !in m.users
    ensures at < t && ForgottenAt(c, a, at, m.queue)
    decreases t
  {
    var part := c.batch[..t];
    assert t == 0 ==> part == [];
    var i: nat := t - 1;
    var mid := LastTurn(Merge(c.queue, users, map[], map[]), c.batch, c.f, c.limit, i, t, m);
    PrefixKeeps(c, users, i, mid);
    if a in mid.users {
      PrefixKeeps(c, users, t, m);
      PrefixEnded(c, i, mid);
      PrefixEnded(c, t, m);
      TurnForgets(c, i, t, mid, m, a);
      at := i;
    } else {
      at := PrefixForgets(c, users, i, mid, a);
      StillForgotten(c, at, i, mid, m, a);
    }
  }

  lemma LateArrival(c: Refill, t: nat, k: Key) returns (j: nat)
    requires c.Valid() && t <= |c.batch| && k in c.All() && k !in Seen(c, t)
    ensures t <= j < |c.batch| && c.batch[j] == k
  {
    KeysOfPrefix(c.batch, t);
    assert k in c.f;
    assert k in KeySet(c.batch);
    j :| j < |c.batch| && c.batch[j] == k;
    var part := c.batch[..t];
    assert j < t ==> k in part;
  }

  /** A run that forgets a record and keeps a proof of its sender meets the condition. */
  lemma ForgettingIsPossible(c: Refill, users: Users, m: Merge, a: Address, y: Key)
    requires c.Valid() && Runs(c, users, m) && NoneAway(c.All(), Away(c), a) && a in users && a !in m.users
    requires y in m.queue && y.sender == a
    ensures MayForget(c, a)
  {
    RunEnds(c, users, m);
    WholeBatch(c.batch);
    var t := PrefixForgets(c, users, |c.batch|, m, a);
    KeptMayStay(c.All(), Away(c), PlacesOf(m), c.Cap(), y);
    var j := LateArrival(c, t, y);
    assert ForgetsAt(c, a, t, j);
  }

  // --- What a run leaves ---

  ghost predicate Left(all: Queue, away: set<Key>, cap: nat, users: Users, m: Merge) {
    && Ended(all, away, PlacesOf(m), cap)
    && m.dropped.Keys == away
    && SubQueue(m.queue, all)
    && forall a :: RecordOk(users, m, a)
  }

  lemma DroppedAreAway(all: Queue, away: set<Key>, r: Places, cap: nat)
    requires Ended(all, away, r, cap) && away <= all.Keys
    ensures r.dropped == away
  {
  }

  lemma RunRecords(c: Refill, users: Users, m: Merge)
    requires c.Valid() && Runs(c, users, m)
    ensures SubQueue(m.queue, c.All()) && forall a :: RecordOk(users, m, a)
  {
    WholeBatch(c.batch);
    PrefixKeeps(c, users, |c.batch|, m);
    QueueInside(c, |c.batch|, m);
    forall a ensures RecordOk(users, m, a) { PrefixRecord(c, users, |c.batch|, m, a); }
  }

  lemma RunLeaves(c: Refill, users: Users, m: Merge)
    requires c.Valid() && Runs(c, users, m)
    ensures Left(c.All(), Away(c), c.Cap(), users, m)
  {
    RunEnds(c, users, m);
    DroppedAreAway(c.All(), Away(c), PlacesOf(m), c.Cap());
    RunRecords(c, users, m);
  }

  lemma LaneHas(q: Queue, a: Address)
    ensures LaneOf(q, a) != map[] <==> Has(q.Keys, a)
  {
    if n :| n in LaneOf(q, a) { assert Key(a, n) in q.Keys; }
    if Has(q.Keys, a) {
      var k :| k in q.Keys && k.sender == a;
      assert k == Key(a, k.nonce) && k.nonce in LaneOf(q, a);
    }
  }

  /** Without proofs of theirs, a sender's record is as before. */
  lemma OthersUntouched(all: Queue, away: set<Key>, cap: nat, users: Users, m: Merge, a: Address)
    requires Left(all, away, cap, users, m) && OwnsNothing(all, a)
    ensures !Has(m.queue.Keys, a) && !Has(m.dropped.Keys, a)
    ensures a in m.users ==> a in users && m.users[a] == users[a]
  {
    assert RecordOk(users, m, a);
    assert forall k :: k in m.evicted.Keys ==> k in all;
    assert !Has(m.evicted.Keys, a);
  }

  lemma KeptMayStayAll(all: Queue, away: set<Key>, r: Places, cap: nat)
    requires Ended(all, away, r, cap)
    ensures forall y :: y in r.kept ==> MayStay(all, away, cap, y)
  {
    forall y | y in r.kept ensures MayStay(all, away, cap, y) { KeptMayStay(all, away, r, cap, y); }
  }

  /** When nothing of theirs may stay and something was let in, nothing is kept and the record is gone. */
  lemma GoesWithRecord(all: Queue, away: set<Key>, cap: nat, users: Users, m: Merge, a: Address)
    requires Left(all, away, cap, users, m) && AllGo(all, away, cap, a)
    ensures !Has(m.queue.Keys, a) && a !in m.users
  {
    KeptMayStayAll(all, away, PlacesOf(m), cap);
    assert RecordOk(users, m, a);
    var k :| Owns(all, a, k) && k !in away;
    assert k in m.evicted.Keys;
  }

  lemma KeptLowerPart(all: Queue, away: set<Key>, cap: nat, m: Merge, a: Address)
    requires Ended(all, away, PlacesOf(m), cap)
    requires forall x, y :: Owns(all, a, x) && Owns(all, a, y) ==> !SplitPossible(all, away, cap, x, y)
    ensures KeepsLowerPart(LaneOf(all, a), LaneOf(m.queue, a))
  {
    forall i, j | i in LaneOf(all, a) && j in LaneOf(m.queue, a) && i < j ensures i in LaneOf(m.queue, a) {
      var x, y := Key(a, i), Key(a, j);
      assert y in m.queue.Keys && y in all;
      if x !in m.queue {
        SplitMeetsCondition(all, away, PlacesOf(m), cap, x, y);
      }
    }
  }

  lemma KeptNotOutbid(q: Queue, f: Queue, all: Queue, away: set<Key>, cap: nat, m: Merge, a: Address)
    requires all == q + f && q.Keys !! f.Keys && Ended(all, away, PlacesOf(m), cap) && SubQueue(m.queue, all)
    requires forall i, j :: !Outbids(q, f, away, cap, a, i, j)
    ensures NoKeptOutbid(LaneOf(m.queue, a), LaneOf(q, a), LaneOf(f, a))
  {
    var kept := LaneOf(m.queue, a);
    KeptMayStayAll(all, away, PlacesOf(m), cap);
    forall i, j | i in kept && i in LaneOf(q, a) && j in kept && j in LaneOf(f, a)
      ensures kept[i].maxFee <= kept[j].maxFee
    {
      var x, y := Key(a, i), Key(a, j);
      assert y in m.queue.Keys && MayStay(all, away, cap, y);
      assert m.queue[x] == q[x] && m.queue[y] == f[y];
      assert !Outbids(q, f, away, cap, a, x, y);
    }
  }

  /** What stays pays equally when something went, so that whichever proof set the limit set it right. */
  lemma KeptPayEqually(all: Queue, away: set<Key>, cap: nat, m: Merge, a: Address)
    requires Ended(all, away, PlacesOf(m), cap) && SubQueue(m.queue, all) && Has(m.evicted.Keys, a)
    requires forall x, y, w :: !LimitOpen(all, away, cap, a, x, y, w)
    ensures forall k, l :: k in m.queue && l in m.queue && k.sender == a && l.sender == a ==>
              m.queue[k].maxFee == m.queue[l].maxFee
  {
    var x :| x in m.evicted.Keys && x.sender == a;
    EvictedHasRivals(all, away, PlacesOf(m), cap, x);
    KeptMayStayAll(all, away, PlacesOf(m), cap);
    forall k, l | k in m.queue && l in m.queue && k.sender == a && l.sender == a
      ensures m.queue[k].maxFee == m.queue[l].maxFee
    {
      PairPaysEqually(all, away, cap, a, x, k, l);
    }
  }

  lemma PairPaysEqually(all: Queue, away: set<Key>, cap: nat, a: Address, x: Key, k: Key, l: Key)
    requires MayBeEvicted(all, away, cap, x) && MayStay(all, away, cap, k) && MayStay(all, away, cap, l)
    requires x.sender == a && k.sender == a && l.sender == a && x != k && x != l
    requires !LimitOpen(all, away, cap, a, x, k, l) && !LimitOpen(all, away, cap, a, x, l, k)
    ensures all[k].maxFee == all[l].maxFee
  {
  }

  lemma EqualFeesGiveMin(q: Queue, a: Address, limit: nat)
    requires forall k, l :: k in q && l in q && k.sender == a && l.sender == a ==> q[k].maxFee == q[l].maxFee
    requires exists y :: y in q && y.sender == a && q[y].maxFee == limit
    ensures IsMinFee(LaneOf(q, a), limit, U256_MAX)
  {
    var y :| y in q && y.sender == a && q[y].maxFee == limit;
    var lane := LaneOf(q, a);
    assert y == Key(a, y.nonce) && y.nonce in lane;
    forall n | n in lane ensures limit <= lane[n].maxFee { assert Key(a, n) in q; }
  }

  lemma SameLane(q: Queue, q': Queue, a: Address)
    requires forall k: Key :: k.sender == a ==> (k in q <==> k in q') && (k in q ==> q[k] == q'[k])
    ensures LaneOf(q, a) == LaneOf(q', a)
  {
  }

  lemma LimitStaysRight(q: Queue, f: Queue, all: Queue, away: set<Key>, cap: nat, users: Users, m: Merge, a: Address)
    requires all == q + f && Left(all, away, cap, users, m) && OwnsNothing(f, a) && NoneAway(all, away, a)
    requires forall x, y, w :: !LimitOpen(all, away, cap, a, x, y, w)
    requires a in m.users && a in users && IsMinFee(LaneOf(q, a), users[a].lastMaxFeeLimit, U256_MAX)
    ensures IsMinFee(LaneOf(m.queue, a), m.users[a].lastMaxFeeLimit, U256_MAX)
  {
    assert RecordOk(users, m, a);
    if Has(m.evicted.Keys, a) {
      KeptPayEqually(all, away, cap, m, a);
      EqualFeesGiveMin(m.queue, a, m.users[a].lastMaxFeeLimit);
    } else {
      forall k: Key | k.sender == a ensures (k in q <==> k in m.queue) && (k in q ==> q[k] == m.queue[k]) {
        assert k in q <==> k in all;
        if k in all { assert Owns(all, a, k); }
      }
      SameLane(q, m.queue, a);
    }
  }

  // --- A safe restore is clean ---

  /** A state about to put its batch back. */
  ghost predicate Failing(s: State, batch: seq<Key>) {
    Inv(s) && s.posting && !s.paid && Lists(batch, s.inflight) && InPopOrder(s.inflight, batch)
  }

  lemma OwnerHasRecord(s: State, a: Address, k: Key)
    requires Inv(s) && !s.paid && k in s.queue + s.inflight && k.sender == a
    ensures a in s.users
  {
    SenderLanes(s, a);
    LaneHas(s.queue, a);
    LaneHas(s.inflight, a);
    assert k in s.queue.Keys || k in s.inflight.Keys;
  }

  lemma IdleLimit(s: State, a: Address)
    requires Inv(s) && a in s.users && OwnsNothing(s.inflight, a)
    ensures IsMinFee(LaneOf(s.queue, a), s.users[a].lastMaxFeeLimit, U256_MAX)
  {
    ViewHolds(s, a);
    LaneHas(s.inflight, a);
  }

  lemma OwnsNothingIsClean(s: State, all: Queue, away: set<Key>, cap: nat, m: Merge, a: Address)
    requires Inv(s) && all == s.queue + s.inflight && Left(all, away, cap, s.users, m) && OwnsNothing(all, a)
    ensures SenderIsClean(s, m, a)
  {
    OthersUntouched(all, away, cap, s.users, m, a);
    LaneHas(m.queue, a);
    LaneHas(m.dropped, a);
    if a in m.users {
      assert OwnsNothing(s.inflight, a) && OwnsNothing(s.queue, a);
      IdleLimit(s, a);
      LaneHas(s.queue, a);
    }
  }

  lemma AllGoIsClean(s: State, all: Queue, away: set<Key>, cap: nat, m: Merge, a: Address)
    requires Left(all, away, cap, s.users, m) && AllGo(all, away, cap, a)
    ensures SenderIsClean(s, m, a)
  {
    GoesWithRecord(all, away, cap, s.users, m, a);
    LaneHas(m.queue, a);
  }

  lemma NothingDropped(all: Queue, away: set<Key>, m: Merge, a: Address)
    requires m.dropped.Keys == away && away <= all.Keys && NoneAway(all, away, a)
    ensures LaneOf(m.dropped, a) == map[]
  {
    LaneHas(m.dropped, a);
    assert forall k :: k in m.dropped.Keys && k.sender == a ==> Owns(all, a, k);
  }

  /** The record of a sender whose batch proofs went back is recomputed. */
  lemma BackIsRestored(s: State, all: Queue, away: set<Key>, m: Merge, a: Address)
    requires all == s.queue + s.inflight && m.dropped.Keys == away && NoneAway(all, away, a)
    requires !OwnsNothing(s.inflight, a)
    ensures WasRestored(s, m, a)
  {
    var k :| k in s.inflight && k.sender == a;
    assert Owns(all, a, k);
  }

  lemma LimitIsRight(s: State, all: Queue, away: set<Key>, cap: nat, m: Merge, a: Address)
    requires Inv(s) && all == s.queue + s.inflight && Left(all, away, cap, s.users, m) && a in m.users
    requires NoneAway(all, away, a)
    requires OwnsNothing(s.inflight, a) ==> forall x, y, w :: !LimitOpen(all, away, cap, a, x, y, w)
    ensures WasRestored(s, m, a) || IsMinFee(LaneOf(m.queue, a), m.users[a].lastMaxFeeLimit, U256_MAX)
  {
    if OwnsNothing(s.inflight, a) {
      assert RecordOk(s.users, m, a);
      IdleLimit(s, a);
      LimitStaysRight(s.queue, s.inflight, all, away, cap, s.users, m, a);
    } else {
      BackIsRestored(s, all, away, m, a);
    }
  }

  lemma KeptInOrder(s: State, all: Queue, away: set<Key>, cap: nat, m: Merge, a: Address)
    requires all == s.queue + s.inflight && s.queue.Keys !! s.inflight.Keys && Left(all, away, cap, s.users, m)
    requires away <= all.Keys && NoneAway(all, away, a)
    requires forall x, y :: Owns(all, a, x) && Owns(all, a, y) ==> !SplitPossible(all, away, cap, x, y)
    requires forall i, j :: !Outbids(s.queue, s.inflight, away, cap, a, i, j)
    ensures LaneOf(m.dropped, a) == map[] && KeepsLowerPart(LaneOf(all, a), LaneOf(m.queue, a))
    ensures NoKeptOutbid(LaneOf(m.queue, a), LaneOf(s.queue, a), LaneOf(s.inflight, a))
  {
    NothingDropped(all, away, m, a);
    KeptLowerPart(all, away, cap, m, a);
    KeptNotOutbid(s.queue, s.inflight, all, away, cap, m, a);
  }

  /** The condition without the part about forgetting, on keys. */
  ghost predicate OrderKept(q: Queue, f: Queue, all: Queue, away: set<Key>, cap: nat, a: Address) {
    && away <= all.Keys && NoneAway(all, away, a)
    && (forall x, y :: Owns(all, a, x) && Owns(all, a, y) ==> !SplitPossible(all, away, cap, x, y))
    && (forall i, j :: !Outbids(q, f, away, cap, a, i, j))
    && (OwnsNothing(f, a) ==> forall x, y, w :: !LimitOpen(all, away, cap, a, x, y, w))
  }

  lemma OrderOnKeys(c: Refill, a: Address, all: Queue, away: set<Key>, cap: nat)
    requires c.Valid() && StaysInOrder(c, a) && all == c.All() && away == Away(c) && cap == c.Cap()
    ensures OrderKept(c.queue, c.f, all, away, cap, a)
  {
    forall x, y | Owns(all, a, x) && Owns(all, a, y) ensures !SplitPossible(all, away, cap, x, y) {
      assert !CanSplit(c, x, y);
    }
  }

  lemma WithRecordIsClean(s: State, all: Queue, away: set<Key>, cap: nat, m: Merge, a: Address)
    requires Inv(s) && !s.paid && all == s.queue + s.inflight && Left(all, away, cap, s.users, m) && a in m.users
    requires OrderKept(s.queue, s.inflight, all, away, cap, a)
    ensures SenderIsClean(s, m, a)
  {
    KeysApart(s);
    KeptInOrder(s, all, away, cap, m, a);
    LimitIsRight(s, all, away, cap, m, a);
  }

  lemma StaysInOrderIsClean(s: State, batch: seq<Key>, m: Merge, a: Address)
    requires Failing(s, batch) && RefillOf(s, batch).Valid() && StaysInOrder(RefillOf(s, batch), a)
    requires Runs(RefillOf(s, batch), s.users, m)
    ensures SenderIsClean(s, m, a)
  {
    var c := RefillOf(s, batch);
    if a in m.users {
      RunLeaves(c, s.users, m);
      OrderOnKeys(c, a, c.All(), Away(c), c.Cap());
      WithRecordIsClean(s, c.All(), Away(c), c.Cap(), m, a);
    } else {
      NoRecordNothingKept(s, batch, m, a);
    }
  }

  lemma NoRecordNothingKept(s: State, batch: seq<Key>, m: Merge, a: Address)
    requires Failing(s, batch) && RefillOf(s, batch).Valid() && StaysInOrder(RefillOf(s, batch), a)
    requires Runs(RefillOf(s, batch), s.users, m) && a !in m.users
    ensures LaneOf(m.queue, a) == map[]
  {
    var c := RefillOf(s, batch);
    LaneHas(m.queue, a);
    if Has(m.queue.Keys, a) {
      var y :| y in m.queue.Keys && y.sender == a;
      RunRecords(c, s.users, m);
      OwnerHasRecord(s, a, y);
      ForgettingIsPossible(c, s.users, m, a, y);
    }
  }

  lemma SafeIsClean(s: State, batch: seq<Key>, m: Merge, a: Address)
    requires Failing(s, batch) && RestoreRuns(s, batch, m) && RefillOf(s, batch).Valid()
    requires SenderSafe(RefillOf(s, batch), a)
    ensures SenderIsClean(s, m, a)
  {
    var c := RefillOf(s, batch);
    SameRuns(s, batch, m);
    RunLeaves(c, s.users, m);
    if OwnsNothing(c.All(), a) {
      OwnsNothingIsClean(s, c.All(), Away(c), c.Cap(), m, a);
    } else if AllGo(c.All(), Away(c), c.Cap(), a) {
      AllGoIsClean(s, c.All(), Away(c), c.Cap(), m, a);
    } else {
      StaysInOrderIsClean(s, batch, m, a);
    }
  }

  // --- An unsafe restore has a run that is not clean ---

  lemma KeptLane(m: Merge, a: Address, y: Key)
    requires y in m.queue && y.sender == a
    ensures LaneOf(m.queue, a) != map[] && y.nonce in LaneOf(m.queue, a) && LaneOf(m.queue, a)[y.nonce] == m.queue[y]
  {
    assert y == Key(a, y.nonce);
  }

  /** Everything turned away: the record is left with nothing. */
  lemma AllAwayIsUnclean(s: State, all: Queue, away: set<Key>, cap: nat, m: Merge, a: Address, k: Key)
    requires Left(all, away, cap, s.users, m) && a in s.users && Owns(all, a, k)
    requires forall y :: Owns(all, a, y) ==> y in away
    ensures !SenderIsClean(s, m, a)
  {
    assert RecordOk(s.users, m, a);
    assert forall z :: z in m.evicted.Keys && z.sender == a ==> Owns(all, a, z);
    assert !Has(m.evicted.Keys, a);
    assert k in m.dropped.Keys;
    LaneHas(m.dropped, a);
  }

  /** One kept, one turned away. */
  lemma OneAwayIsUnclean(s: State, m: Merge, a: Address, x: Key, y: Key)
    requires y in m.queue && y.sender == a && x in m.dropped && x.sender == a
    ensures !SenderIsClean(s, m, a)
  {
    KeptLane(m, a, y);
    assert x in m.dropped.Keys;
    LaneHas(m.dropped, a);
  }

  lemma SplitIsUnclean(s: State, m: Merge, a: Address, x: Key, y: Key)
    requires Splits(s.queue + s.inflight, m.queue.Keys, x, y) && y.sender == a
    ensures !SenderIsClean(s, m, a)
  {
    KeptLane(m, a, y);
    assert x == Key(a, x.nonce) && x.nonce in LaneOf(s.queue + s.inflight, a) && x.nonce !in LaneOf(m.queue, a);
  }

  lemma OutbidIsUnclean(s: State, m: Merge, a: Address, i: Key, j: Key)
    requires i in s.queue && j in s.inflight && i.sender == a && j.sender == a && i in m.queue && j in m.queue
    requires m.queue[i].maxFee > m.queue[j].maxFee
    ensures !SenderIsClean(s, m, a)
  {
    KeptLane(m, a, i);
    KeptLane(m, a, j);
    assert i == Key(a, i.nonce) && i.nonce in LaneOf(s.queue, a);
    assert j == Key(a, j.nonce) && j.nonce in LaneOf(s.inflight, a);
    assert !NoKeptOutbid(LaneOf(m.queue, a), LaneOf(s.queue, a), LaneOf(s.inflight, a));
  }

  lemma WrongLimitIsUnclean(s: State, m: Merge, a: Address, y: Key)
    requires OwnsNothing(s.inflight, a) && a in m.users && y in m.queue && y.sender == a
    requires m.queue[y].maxFee < m.users[a].lastMaxFeeLimit
    ensures !SenderIsClean(s, m, a)
  {
    KeptLane(m, a, y);
    assert !WasRestored(s, m, a);
  }

  lemma ForgottenIsUnclean(s: State, m: Merge, a: Address, y: Key)
    requires a !in m.users && y in m.queue && y.sender == a
    ensures !SenderIsClean(s, m, a)
  {
    KeptLane(m, a, y);
  }

  /** A run that keeps `y`. */
  lemma KeepingRun(c: Refill, users: Users, x: Key, y: Key, w: Key) returns (m: Merge)
    requires c.Valid() && x != y && MayStay(c.All(), Away(c), c.Cap(), y)
    ensures Runs(c, users, m) && Left(c.All(), Away(c), c.Cap(), users, m) && y in m.queue
    ensures MayBeEvicted(c.All(), Away(c), c.Cap(), x) ==> x !in m.queue
    ensures w in c.queue ==> Credits(m, users, w)
  {
    m := ChosenRunEnds(c, users, x, y, w);
    FavouredStays(c.All(), Away(c), PlacesOf(m), c.Cap(), x, y);
    if MayBeEvicted(c.All(), Away(c), c.Cap(), x) {
      DisfavouredGoes(c.All(), Away(c), PlacesOf(m), c.Cap(), x, y);
    }
    RunLeaves(c, users, m);
  }

  /** With a proof, everything that pays more is kept. */
  lemma DearerIsKept(all: Queue, away: set<Key>, cap: nat, users: Users, m: Merge, y: Key, w: Key)
    requires Left(all, away, cap, users, m) && y in m.queue && w in all && all[y].maxFee < all[w].maxFee
    ensures w in m.queue && m.queue[y] == all[y] && m.queue[w] == all[w]
  {
    assert w in m.queue.Keys || w in m.evicted.Keys || w in m.dropped.Keys;
  }

  lemma LimitRun(c: Refill, users: Users, a: Address, x: Key, y: Key, w: Key) returns (m: Merge)
    requires c.Valid() && OwnsNothing(c.f, a) && a in users
    requires LimitOpen(c.All(), Away(c), c.Cap(), a, x, y, w)
    ensures Runs(c, users, m) && a in m.users && y in m.queue && m.queue[y].maxFee < m.users[a].lastMaxFeeLimit
  {
    m := KeepingRun(c, users, x, y, w);
    DearerIsKept(c.All(), Away(c), c.Cap(), users, m, y, w);
    assert w in c.queue && x in c.queue;
    assert x in m.evicted.Keys by { GoneNotAway(c, m, x); }
    assert Has(m.evicted.Keys, a);
  }

  lemma GoneNotAway(c: Refill, m: Merge, x: Key)
    requires c.Valid() && Ended(c.All(), Away(c), PlacesOf(m), c.Cap()) && x in c.queue && x !in m.queue
    ensures x in m.evicted.Keys
  {
    assert x !in c.f;
    assert x in c.All().Keys;
  }

  // --- A run that forgets a record ---

  lemma {:induction false} LastPopped(q: Queue, own: set<Key>) returns (x: Key)
    requires own != {} && own <= q.Keys
    ensures x in own && forall w :: w in own ==> !PopsBefore(q, x, w)
    decreases |own|
  {
    x :| x in own;
    if own != {x} {
      var y := LastPopped(q, own - {x});
      if PopsBefore(q, x, y) {
        assert forall w :: w in own ==> w == x || w in own - {x};
        x := y;
      } else {
        assert forall w :: w in own ==> w == x || w in own - {x};
      }
    }
  }

  /** The sender's proof that is popped last; all others of theirs are popped before it. */
  ghost predicate IsLast(q: Queue, a: Address, x: Key) {
    x in q && x.sender == a && forall w :: w in q && w.sender == a && w != x ==> PopsBefore(q, w, x)
  }

  lemma LastOf(q: Queue, a: Address) returns (x: Key)
    requires Has(q.Keys, a)
    ensures IsLast(q, a, x)
  {
    var own := set k | k in q.Keys && k.sender == a;
    var first :| first in q.Keys && first.sender == a;
    assert first in own;
    x := LastPopped(q, own);
    forall w | w in q && w.sender == a && w != x ensures PopsBefore(q, w, x) {
      assert w in own && !PopsBefore(q, x, w);
      assert w == Key(a, w.nonce) && x == Key(a, x.nonce);
    }
  }

  /** When the last one is evicted, so are all the others. */
  lemma OthersAreEvicted(before: Queue, seen: Queue, away: set<Key>, r: Places, cap: nat, a: Address, x: Key)
    requires Ended(seen, away, r, cap) && SubQueue(before, seen) && NoneAway(seen, away, a)
    requires IsLast(before, a, x) && x in r.evicted
    ensures forall w :: w in before.Keys && w.sender == a ==> w in r.evicted
  {
    forall w | w in before.Keys && w.sender == a ensures w in r.evicted {
      assert Owns(seen, a, w);
      if w != x {
        assert PopsBefore(before, w, x) && PopsBefore(seen, w, x);
      }
    }
  }

  lemma RecordGoes(users: Users, m: Merge, k: Key, p: Proof, limit: nat, m': Merge, a: Address, before: set<Key>)
    requires MergeOne(m, k, p, limit, m') && RecordOk(users, m, a) && m'.queue.Keys !! m'.evicted.Keys
    requires m.queue.Keys <= before && Has(before, a)
    requires forall w :: w in before && w.sender == a ==> w in m'.evicted.Keys && (w in m.queue || w in m.evicted)
    ensures a !in m'.users
  {
    QueueGains(m, k, p, limit, m');
    var turn :| Takes(m, k, p, limit, m', turn);
    if Has(m.queue.Keys, a) {
      var k0 :| k0 in m.queue.Keys && k0.sender == a;
      assert k0 !in m'.queue;
      OnlyOneGoes(m, k, p, limit, m', turn, a, k0);
    } else {
      var w :| w in before && w.sender == a;
      assert w in m.evicted.Keys;
      assert !SetsLimit(m, a);
    }
  }

  lemma OnlyOneGoes(m: Merge, k: Key, p: Proof, limit: nat, m': Merge, turn: Turn, a: Address, k0: Key)
    requires Takes(m, k, p, limit, m', turn) && k0 in m.queue && k0.sender == a && k0 !in m'.queue
    requires forall w :: w in m.queue && w.sender == a ==> w !in m'.queue
    ensures a !in m'.users
  {
    assert turn.Evict? && turn.low == k0;
    assert forall w :: w in m.queue - {k0} ==> w in m'.queue;
    assert forall w :: w in m.queue - {k0} ==> w.sender != a;
    assert turn.other.None?;
  }

  lemma FavoursInside(seen: Queue, all: Queue, r: Places, x: Key, y: Key)
    requires SubQueue(seen, all) && Favours(all, r, x, y) && r.kept <= seen.Keys && r.evicted <= seen.Keys
    ensures Favours(seen, r, x, y)
  {
  }

  lemma LastIsEvicted(c: Refill, u: nat, m: Merge, x: Key, y: Key)
    requires c.Valid() && u <= |c.batch| && After(c, u, m) && Favours(c.All(), PlacesOf(m), x, y)
    requires x in Seen(c, u) && x !in Away(c) && MayBeEvicted(Seen(c, u), Away(c), c.Cap(), x)
    ensures x in m.evicted.Keys
  {
    PrefixEnded(c, u, m);
    SeenInAll(c, u);
    FavoursInside(Seen(c, u), c.All(), PlacesOf(m), x, y);
    DisfavouredGoes(Seen(c, u), Away(c), PlacesOf(m), c.Cap(), x, y);
  }

  /** The run so far, with the choices made for `x` and `y`. */
  ghost predicate ChosenTo(c: Refill, users: Users, t: nat, m: Merge, x: Key, y: Key)
    requires c.Valid() && t <= |c.batch|
  {
    && KeySet(c.batch[..t]) <= c.f.Keys
    && MergeRun(Merge(c.queue, users, map[], map[]), c.batch[..t], c.f, c.limit, m)
    && After(c, t, m) && Chosen(c, users, m, x, y, y)
  }

  lemma LastGoes(c: Refill, t: nat, u: nat, m: Merge, a: Address, x: Key, y: Key)
    requires c.Valid() && u == t + 1 <= |c.batch| && NoneAway(c.All(), Away(c), a) && IsLast(Seen(c, t), a, x)
    requires After(c, u, m) && Favours(c.All(), PlacesOf(m), x, y) && MayBeEvicted(Seen(c, u), Away(c), c.Cap(), x)
    ensures x in m.evicted.Keys
  {
    SeenMonotone(c, t, u);
    SeenOwned(c, t, x);
    assert Owns(c.All(), a, x);
    LastIsEvicted(c, u, m, x, y);
  }

  lemma SeenInSeen(c: Refill, t: nat, u: nat)
    requires c.Valid() && u == t + 1 <= |c.batch|
    ensures SubQueue(Seen(c, t), Seen(c, u))
  {
    SeenGrows(c, t);
  }

  lemma EvictedByThen(c: Refill, t: nat, u: nat, m: Merge, a: Address, x: Key)
    requires c.Valid() && u == t + 1 <= |c.batch| && NoneAway(c.All(), Away(c), a) && IsLast(Seen(c, t), a, x)
    requires Ended(Seen(c, u), Away(c), PlacesOf(m), c.Cap()) && x in m.evicted.Keys
    ensures forall w :: w in Seen(c, t).Keys && w.sender == a ==> w in m.evicted.Keys
  {
    SeenInSeen(c, t, u);
    OwnNotAwaySeen(c, u, a);
    OthersAreEvicted(Seen(c, t), Seen(c, u), Away(c), PlacesOf(m), c.Cap(), a, x);
  }

  lemma OwnNotAwaySeen(c: Refill, u: nat, a: Address)
    requires c.Valid() && u <= |c.batch| && NoneAway(c.All(), Away(c), a)
    ensures NoneAway(Seen(c, u), Away(c), a)
  {
    forall k | Owns(Seen(c, u), a, k) ensures k !in Away(c) { SeenOwned(c, u, k); }
  }

  lemma SeenPlaces(c: Refill, t: nat, m: Merge, a: Address)
    requires c.Valid() && t <= |c.batch| && After(c, t, m) && NoneAway(c.All(), Away(c), a)
    ensures m.queue.Keys <= Seen(c, t).Keys
    ensures forall w :: w in Seen(c, t).Keys && w.sender == a ==> w in m.queue || w in m.evicted
  {
    PrefixEnded(c, t, m);
    OwnNotAway(c, t, a);
  }

  /** By turn `t` the record is gone. */
  lemma ForgetsBy(c: Refill, users: Users, a: Address, t: nat, u: nat, m: Merge, x: Key, y: Key)
    requires c.Valid() && u == t + 1 <= |c.batch| && ChosenTo(c, users, u, m, x, y)
    requires GoneAt(c, a, t) && NoneAway(c.All(), Away(c), a) && IsLast(Seen(c, t), a, x)
    ensures a !in m.users
  {
    PrefixEnded(c, u, m);
    LastGoes(c, t, u, m, a, x, y);
    EvictedByThen(c, t, u, m, a, x);
    var mid := LastTurn(Merge(c.queue, users, map[], map[]), c.batch, c.f, c.limit, t, u, m);
    PrefixKeeps(c, users, t, mid);
    PrefixRecord(c, users, t, mid, a);
    SeenPlaces(c, t, mid, a);
    RecordGoes(users, mid, c.batch[t], c.f[c.batch[t]], c.limit, m, a, Seen(c, t).Keys);
  }

  /** And it stays gone. */
  lemma {:induction false} ForgetsOn(c: Refill, users: Users, a: Address, t: nat, u: nat, v: nat, x: Key, y: Key)
    returns (m: Merge)
    requires c.Valid() && u == t + 1 <= v <= |c.batch| && x != y
    requires GoneAt(c, a, t) && NoneAway(c.All(), Away(c), a) && IsLast(Seen(c, t), a, x)
    ensures ChosenTo(c, users, v, m, x, y) && a !in m.users
    decreases v
  {
    if v == u {
      m := ChosenRun(c, users, v, x, y, y);
      ForgetsBy(c, users, a, t, u, m, x, y);
    } else {
      var i: nat := v - 1;
      var mid := ForgetsOn(c, users, a, t, u, i, x, y);
      m := ForgetsNext(c, users, a, i, v, mid, x, y);
    }
  }

  lemma ForgetsNext(c: Refill, users: Users, a: Address, i: nat, v: nat, mid: Merge, x: Key, y: Key) returns (m: Merge)
    requires c.Valid() && v == i + 1 <= |c.batch| && x != y && ChosenTo(c, users, i, mid, x, y) && a !in mid.users
    ensures ChosenTo(c, users, v, m, x, y) && a !in m.users
  {
    m := ChosenStep(c, users, i, mid, x, y, y);
    OneMoreTurn(Merge(c.queue, users, map[], map[]), c, v, mid, m);
    QueueGains(mid, c.batch[i], c.f[c.batch[i]], c.limit, m);
  }

  lemma ForgettingRun(c: Refill, users: Users, a: Address, t: nat, j: nat) returns (m: Merge)
    requires c.Valid() && ForgetsAt(c, a, t, j) && NoneAway(c.All(), Away(c), a)
    ensures Runs(c, users, m) && a !in m.users && c.batch[j] in m.queue
  {
    var x := LastOf(Seen(c, t), a);
    var y := c.batch[j];
    LateIsUnseen(c, t, j);
    m := ForgetsOn(c, users, a, t, t + 1, |c.batch|, x, y);
    WholeBatch(c.batch);
    EndIsEnded(c, m);
    FavouredStays(c.All(), Away(c), PlacesOf(m), c.Cap(), x, y);
  }

  lemma LateIsUnseen(c: Refill, t: nat, j: nat)
    requires c.Valid() && t <= j < |c.batch|
    ensures c.batch[j] !in Seen(c, t)
  {
    SeenGrows(c, j);
    SeenMonotone(c, t, j);
  }

  // --- The exact condition ---

  lemma AllAwayRun(s: State, c: Refill, a: Address, k: Key) returns (m: Merge)
    requires c.Valid() && c.All() == s.queue + s.inflight && a in s.users && Owns(c.All(), a, k)
    requires forall y :: Owns(c.All(), a, y) ==> y in Away(c)
    ensures Runs(c, s.users, m) && !SenderIsClean(s, m, a)
  {
    m := ChosenRunEnds(c, s.users, Key(0, 0), Key(0, 1), k);
    RunLeaves(c, s.users, m);
    AllAwayIsUnclean(s, c.All(), Away(c), c.Cap(), m, a, k);
  }

  lemma OneAwayRun(s: State, c: Refill, a: Address, x: Key, y: Key) returns (m: Merge)
    requires c.Valid() && x in Away(c) && x.sender == a && y.sender == a && MayStay(c.All(), Away(c), c.Cap(), y)
    ensures Runs(c, s.users, m) && !SenderIsClean(s, m, a)
  {
    m := KeepingRun(c, s.users, x, y, y);
    assert x in m.dropped.Keys;
    OneAwayIsUnclean(s, m, a, x, y);
  }

  lemma OutbidRun(s: State, c: Refill, a: Address, i: Key, j: Key) returns (m: Merge)
    requires c.Valid() && c.queue == s.queue && c.f == s.inflight
    requires Outbids(c.queue, c.f, Away(c), c.Cap(), a, i, j)
    ensures Runs(c, s.users, m) && !SenderIsClean(s, m, a)
  {
    m := KeepingRun(c, s.users, i, j, j);
    assert c.All()[i] == c.queue[i] && c.All()[j] == c.f[j];
    DearerIsKept(c.All(), Away(c), c.Cap(), s.users, m, j, i);
    OutbidIsUnclean(s, m, a, i, j);
  }

  lemma LimitRunIsUnclean(s: State, c: Refill, a: Address, x: Key, y: Key, w: Key) returns (m: Merge)
    requires c.Valid() && c.f == s.inflight && OwnsNothing(c.f, a) && a in s.users
    requires LimitOpen(c.All(), Away(c), c.Cap(), a, x, y, w)
    ensures Runs(c, s.users, m) && !SenderIsClean(s, m, a)
  {
    m := LimitRun(c, s.users, a, x, y, w);
    WrongLimitIsUnclean(s, m, a, y);
  }

  lemma ForgettingRunIsUnclean(s: State, c: Refill, a: Address) returns (m: Merge)
    requires c.Valid() && MayForget(c, a) && NoneAway(c.All(), Away(c), a)
    ensures Runs(c, s.users, m) && !SenderIsClean(s, m, a)
  {
    var t: nat, j: nat :| ForgetsAt(c, a, t, j);
    m := ForgettingRun(c, s.users, a, t, j);
    ForgottenIsUnclean(s, m, a, c.batch[j]);
  }

  lemma SplitRun(s: State, c: Refill, a: Address, x: Key, y: Key) returns (m: Merge)
    requires c.Valid() && c.All() == s.queue + s.inflight && CanSplit(c, x, y) && y.sender == a
    ensures Runs(c, s.users, m) && !SenderIsClean(s, m, a)
  {
    m := SplittingRun(c, s.users, x, y);
    SplitIsUnclean(s, m, a, x, y);
  }

  /** One of the sender's proofs may stay, but not in order. */
  lemma DisorderRun(s: State, c: Refill, a: Address, y: Key) returns (m: Merge)
    requires c.Valid() && c.queue == s.queue && c.f == s.inflight && a in s.users && y.sender == a
    requires MayStay(c.All(), Away(c), c.Cap(), y) && !StaysInOrder(c, a)
    ensures Runs(c, s.users, m) && !SenderIsClean(s, m, a)
  {
    if k :| Owns(c.All(), a, k) && k in Away(c) {
      m := OneAwayRun(s, c, a, k, y);
    } else if x, z :| Owns(c.All(), a, x) && Owns(c.All(), a, z) && CanSplit(c, x, z) {
      m := SplitRun(s, c, a, x, z);
    } else if i, j :| Outbids(c.queue, c.f, Away(c), c.Cap(), a, i, j) {
      m := OutbidRun(s, c, a, i, j);
    } else if MayForget(c, a) {
      m := ForgettingRunIsUnclean(s, c, a);
    } else {
      var x, z, w :| LimitOpen(c.All(), Away(c), c.Cap(), a, x, z, w);
      m := LimitRunIsUnclean(s, c, a, x, z, w);
    }
  }

  lemma UnsafeRun(s: State, batch: seq<Key>, c: Refill, a: Address) returns (m: Merge)
    requires Failing(s, batch) && c == RefillOf(s, batch) && c.Valid() && !SenderSafe(c, a)
    ensures RestoreRuns(s, batch, m) && !SenderIsClean(s, m, a)
  {
    var k :| k in c.All() && k.sender == a;
    OwnerHasRecord(s, a, k);
    if y :| Owns(c.All(), a, y) && MayStay(c.All(), Away(c), c.Cap(), y) {
      m := DisorderRun(s, c, a, y);
    } else {
      assert NoneMayStay(c.All(), Away(c), c.Cap(), a);
      m := AllAwayRun(s, c, a, k);
    }
    SameRuns(s, batch, m);
  }

  /** However ties are broken and whichever proof is iterated last, a restore keeps the invariant exactly when the
  queue, the batch and the limit meet the condition for every sender. */
  lemma RestoreSafeExactly(s: State, batch: seq<Key>)
    requires Failing(s, batch)
    ensures RefillOf(s, batch).Valid()
    ensures (forall m :: RestoreRuns(s, batch, m) ==> Inv(AfterMerge(s, m))) <==> RestoreSafe(RefillOf(s, batch))
  {
    var c := RefillOf(s, batch);
    RefillIsValid(s, batch);
    if RestoreSafe(c) {
      forall m | RestoreRuns(s, batch, m) ensures Inv(AfterMerge(s, m)) { SafeKeepsInv(s, batch, m); }
    } else {
      var m := UnsafeRestore(s, batch, c);
    }
  }

  lemma SafeKeepsInv(s: State, batch: seq<Key>, m: Merge)
    requires Failing(s, batch) && RestoreRuns(s, batch, m) && RefillOf(s, batch).Valid()
    requires RestoreSafe(RefillOf(s, batch))
    ensures RestoreIsClean(s, m) && Inv(AfterMerge(s, m))
  {
    forall a ensures SenderIsClean(s, m, a) { SafeIsClean(s, batch, m, a); }
    RestoreExact(s, batch, m);
  }

  /** The condition for a state and the batch it lists. */
  ghost predicate SafeToRestore(s: State, batch: seq<Key>) {
    InPopOrder(s.inflight, batch) && RefillOf(s, batch).Valid() && RestoreSafe(RefillOf(s, batch))
  }

  /** With room for the batch the condition is that nothing queued outbids it. */
  lemma RoomIsSafe(s: State, batch: seq<Key>)
    requires Failing(s, batch) && CanRestore(s)
    ensures SafeToRestore(s, batch) <==> NothingOutbid(s)
  {
    var c := RefillOf(s, batch);
    RestoreSafeExactly(s, batch);
    var m := ChosenRunEnds(c, s.users, Key(0, 0), Key(0, 1), Key(0, 0));
    SameRuns(s, batch, m);
    RoomIsClean(s, batch, m);
    RestoreExact(s, batch, m);
    forall m' | RestoreRuns(s, batch, m') && NothingOutbid(s) ensures Inv(AfterMerge(s, m')) {
      RoomIsClean(s, batch, m');
      RestoreExact(s, batch, m');
    }
  }

  lemma UnsafeRestore(s: State, batch: seq<Key>, c: Refill) returns (m: Merge)
    requires Failing(s, batch) && c == RefillOf(s, batch) && c.Valid() && !RestoreSafe(c)
    ensures RestoreRuns(s, batch, m) && !Inv(AfterMerge(s, m))
  {
    if a :| !SenderSafe(c, a) {
      m := UnsafeRun(s, batch, c, a);
      assert !RestoreIsClean(s, m);
    } else {
      m := ChosenRunEnds(c, s.users, Key(0, 0), Key(0, 1), Key(0, 0));
      SameRuns(s, batch, m);
    }
    RestoreExact(s, batch, m);
  }
}
