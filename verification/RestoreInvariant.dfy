/** When putting a failed batch back into a queue that has filled up meanwhile keeps the batcher's invariant. */
module RestoreInvariant {
  import opened Basics
  import opened BatchQueue
  import opened BatchExtraction
  import opened BatcherState
  import opened SenderSteps
  import opened BatcherSteps
  import opened BatchRestore

  /** With a proof, every proof of lower nonce is kept. */
  ghost predicate KeepsLowerPart(all: Lane, kept: Lane) {
    forall i, j :: i in all && j in kept && i < j ==> i in kept
  }

  /** No kept proof that was queued outbids a kept one that was in flight. */
  ghost predicate NoKeptOutbid(kept: Lane, queued: Lane, flying: Lane) {
    forall i, j :: i in kept && i in queued && j in kept && j in flying ==> kept[i].maxFee <= kept[j].maxFee
  }

  /** A sender without a record has nothing queued. A sender with one lost no proof by dropping, kept a lower part
  of their proofs in falling order of fees, and the record's limit is right: it was recomputed, or the last
  eviction happened to leave the least kept fee. */
  ghost predicate SenderIsClean(s: State, m: Merge, a: Address) {
    var kept := LaneOf(m.queue, a);
    if a !in m.users then kept == map[]
    else
      && LaneOf(m.dropped, a) == map[]
      && KeepsLowerPart(LaneOf(s.queue + s.inflight, a), kept)
      && NoKeptOutbid(kept, LaneOf(s.queue, a), LaneOf(s.inflight, a))
      && (WasRestored(s, m, a) || IsMinFee(kept, m.users[a].lastMaxFeeLimit, U256_MAX))
  }

  ghost predicate RestoreIsClean(s: State, m: Merge) {
    s.config.maxSize >= 1 && forall a :: SenderIsClean(s, m, a)
  }

  // --- One sender ---

  /** A kept part and a record that runs ahead of it by `d`. */
  lemma GapExact(all: Lane, kept: Lane, lo: nat, hi: nat, d: nat)
    requires Interval(all, lo, hi) && kept.Keys <= all.Keys
    ensures Interval(kept, lo, lo + |kept| + d) <==> d == 0 && KeepsLowerPart(all, kept)
  {
    if Interval(kept, lo, lo + |kept| + d) {
      IntervalSize(kept, lo, lo + |kept| + d);
    }
    if d == 0 && KeepsLowerPart(all, kept) {
      var mid := LowerPart(all, lo, hi, kept);
      IntervalSize(kept, lo, mid);
    }
  }

  lemma SettledGapFree(v: View)
    requires v.user.Some? && v.flying == map[] && !v.paid
    ensures GapFree(v) <==> Interval(v.queued, v.account.nonce, v.user.value.nonce)
  {
    var n, hi := v.account.nonce, v.user.value.nonce;
    if GapFree(v) {
      var lo, mid :| Window(v, lo, mid, hi);
      EmptyInterval(v.flying, lo, mid);
    }
    if Interval(v.queued, n, hi) {
      assert Window(v, n, n, hi);
    }
  }

  ghost predicate SubLaneOf(kept: Lane, all: Lane) {
    kept.Keys <= all.Keys && forall n :: n in kept ==> kept[n] == all[n]
  }

  lemma FallExact(queued: Lane, flying: Lane, kept: Lane, lo: nat, mid: nat, hi: nat)
    requires Interval(flying, lo, mid) && Interval(queued, mid, hi) && FeesFall(queued) && FeesFall(flying)
    requires SubLaneOf(kept, queued + flying)
    ensures FeesFall(kept) <==> NoKeptOutbid(kept, queued, flying)
  {
    assert forall n :: n in kept ==>
              (n in flying && kept[n] == flying[n]) || (n !in flying && n in queued && kept[n] == queued[n]);
    if FeesFall(kept) {
      forall i, j | i in kept && i in queued && j in kept && j in flying ensures kept[i].maxFee <= kept[j].maxFee {
        assert j < i;
      }
    }
    if NoKeptOutbid(kept, queued, flying) {
      forall i, j | i in kept && j in kept && i < j ensures kept[j].maxFee <= kept[i].maxFee {
        assert i in flying || j in queued;
      }
    }
  }

  /** The sender's proofs before and after, and the record the loop left. */
  ghost predicate Accounted(v: View, kept: Lane, evicted: Lane, dropped: Lane, u: UserState) {
    && ViewInv(v) && !v.paid && v.user.Some?
    && SubLaneOf(kept, v.queued + v.flying)
    && |v.queued| + |v.flying| == |kept| + |evicted| + |dropped|
    && Fees(v.queued) + Fees(v.flying) == Fees(kept) + Fees(evicted) + Fees(dropped)
    && u.nonce == v.account.nonce + |kept| + |dropped|
    && u.proofsInBatch + |evicted| == v.user.value.proofsInBatch
    && u.totalFeesInQueue + Fees(evicted) == v.user.value.totalFeesInQueue
  }

  ghost function MergedView(v: View, kept: Lane, u: UserState, recomputed: bool): View {
    View(Some(if recomputed then Recomputed(u.nonce, kept) else u), kept, map[], false, v.account)
  }

  lemma MergedGapFree(v: View, kept: Lane, evicted: Lane, dropped: Lane, u: UserState, recomputed: bool)
    requires Accounted(v, kept, evicted, dropped, u)
    ensures GapFree(MergedView(v, kept, u, recomputed)) <==>
              dropped == map[] && KeepsLowerPart(v.queued + v.flying, kept)
    ensures FeesFall(kept) <==> NoKeptOutbid(kept, v.queued, v.flying)
  {
    var hi := v.user.value.nonce;
    var lo, mid :| Window(v, lo, mid, hi);
    RestoreOrder(v.queued, v.flying, lo, mid, hi);
    FallExact(v.queued, v.flying, kept, lo, mid, hi);
    MergedWindow(MergedView(v, kept, u, recomputed), v.queued + v.flying, lo, hi, dropped);
  }

  lemma MergedWindow(v': View, all: Lane, lo: nat, hi: nat, dropped: Lane)
    requires v'.user.Some? && v'.flying == map[] && !v'.paid && v'.account.nonce == lo
    requires Interval(all, lo, hi) && v'.queued.Keys <= all.Keys
    requires v'.user.value.nonce == lo + |v'.queued| + |dropped|
    ensures GapFree(v') <==> dropped == map[] && KeepsLowerPart(all, v'.queued)
  {
    SettledGapFree(v');
    GapExact(all, v'.queued, lo, hi, |dropped|);
  }

  lemma MergedTally(v: View, kept: Lane, evicted: Lane, dropped: Lane, u: UserState, recomputed: bool)
    requires Accounted(v, kept, evicted, dropped, u) && dropped == map[]
    ensures Tallied(MergedView(v, kept, u, recomputed)) && Owed(MergedView(v, kept, u, recomputed)) <= v.account.balance
  {
  }

  lemma MergedViewExact(v: View, kept: Lane, evicted: Lane, dropped: Lane, u: UserState, recomputed: bool)
    requires Accounted(v, kept, evicted, dropped, u)
    ensures ViewInv(MergedView(v, kept, u, recomputed)) <==>
              && dropped == map[]
              && KeepsLowerPart(v.queued + v.flying, kept)
              && NoKeptOutbid(kept, v.queued, v.flying)
              && (recomputed || IsMinFee(kept, u.lastMaxFeeLimit, U256_MAX))
  {
    MergedGapFree(v, kept, evicted, dropped, u, recomputed);
    if dropped == map[] { MergedTally(v, kept, evicted, dropped, u, recomputed); }
  }

  // --- The whole state ---

  lemma LanesOfPartition(all: Queue, q: Queue, e: Queue, d: Queue, a: Address)
    requires Partition(all, q, e, d)
    ensures SubLaneOf(LaneOf(q, a), LaneOf(all, a))
    ensures |LaneOf(all, a)| == |LaneOf(q, a)| + |LaneOf(e, a)| + |LaneOf(d, a)|
    ensures Fees(LaneOf(all, a)) == Fees(LaneOf(q, a)) + Fees(LaneOf(e, a)) + Fees(LaneOf(d, a))
  {
    LaneSizes(all, q, e, d, a);
    LaneOfMerge(q + e, d, a);
    LaneOfMerge(q, e, a);
    FeesMerge(LaneOf(q, a), LaneOf(e, a));
    FeesMerge(LaneOf(q + e, a), LaneOf(d, a));
    PartitionedLane(all, q, e, d, a);
  }

  lemma PartitionedLane(all: Queue, q: Queue, e: Queue, d: Queue, a: Address)
    requires Partition(all, q, e, d)
    ensures SubLaneOf(LaneOf(q, a), LaneOf(all, a))
  {
    assert forall k :: k in q ==> k in all && all[k] == q[k];
  }

  lemma SplitOf(s: State, batch: seq<Key>, m: Merge, a: Address)
    requires Inv(s) && s.posting && !s.paid && RestoreRuns(s, batch, m) && a in m.users
    ensures a in s.users
    ensures Accounted(ViewOf(s, a), LaneOf(m.queue, a), LaneOf(m.evicted, a), LaneOf(m.dropped, a), m.users[a])
  {
    KeysApart(s);
    RecordsCover(s, a);
    RestoreDebits(s.queue, s.users, batch, s.inflight, s.config.maxSize, m, a);
    ViewHolds(s, a);
    DroppedProofsLeaveNonceAhead(s, batch, m, a);
    SplitLanes(s, batch, m, a);
  }

  lemma SplitLanes(s: State, batch: seq<Key>, m: Merge, a: Address)
    requires Inv(s) && s.posting && !s.paid && RestoreRuns(s, batch, m)
    ensures var v, kept, evicted, dropped :=
              ViewOf(s, a), LaneOf(m.queue, a), LaneOf(m.evicted, a), LaneOf(m.dropped, a);
            && SubLaneOf(kept, v.queued + v.flying)
            && |v.queued| + |v.flying| == |kept| + |evicted| + |dropped|
            && Fees(v.queued) + Fees(v.flying) == Fees(kept) + Fees(evicted) + Fees(dropped)
  {
    RestoreIsBoundedMerge(s, batch, m);
    LanesOfPartition(s.queue + s.inflight, m.queue, m.evicted, m.dropped, a);
    LaneOfMerge(s.queue, s.inflight, a);
    SenderLanes(s, a);
    SizeMerge(LaneOf(s.queue, a), LaneOf(s.inflight, a));
    FeesMerge(LaneOf(s.queue, a), LaneOf(s.inflight, a));
  }

  lemma MergedViewIs(s: State, m: Merge, a: Address)
    requires a in m.users && !s.paid
    ensures ViewOf(AfterMerge(s, m), a) ==
              MergedView(ViewOf(s, a), LaneOf(m.queue, a), m.users[a], WasRestored(s, m, a))
  {
    assert LaneOf(map[], a) == map[];
  }

  lemma MergedSenderExact(s: State, batch: seq<Key>, m: Merge, a: Address)
    requires Inv(s) && s.posting && !s.paid && RestoreRuns(s, batch, m)
    ensures ViewInv(ViewOf(AfterMerge(s, m), a)) <==> SenderIsClean(s, m, a)
  {
    var v' := ViewOf(AfterMerge(s, m), a);
    assert v'.flying == map[];
    if a in m.users {
      SplitOf(s, batch, m, a);
      LaneOfMerge(s.queue, s.inflight, a);
      MergedViewExact(ViewOf(s, a), LaneOf(m.queue, a), LaneOf(m.evicted, a), LaneOf(m.dropped, a), m.users[a],
          WasRestored(s, m, a));
      MergedViewIs(s, m, a);
    }
  }

  lemma SomethingIsKept(s: State, batch: seq<Key>, m: Merge)
    requires Inv(s) && s.posting && !s.paid && RestoreRuns(s, batch, m)
    ensures m.queue != map[] && |m.queue| <= Max(s.config.maxSize, 1)
  {
    RestoreIsBoundedMerge(s, batch, m);
    KeysApart(s);
    assert Part(s.inflight, s.inflight.Keys) == s.inflight;
    RestoreMerges(s.queue, s.users, batch, s.inflight, s.config.maxSize, m);
    var k :| k in s.inflight;
    assert k in s.queue + s.inflight;
  }

  /** A restore, with room or without, keeps the invariant exactly when it is clean for every sender. */
  lemma RestoreExact(s: State, batch: seq<Key>, m: Merge)
    requires Inv(s) && s.posting && !s.paid && RestoreRuns(s, batch, m)
    ensures Inv(AfterMerge(s, m)) <==> RestoreIsClean(s, m)
  {
    var s' := AfterMerge(s, m);
    SomethingIsKept(s, batch, m);
    forall a ensures ViewInv(ViewOf(s', a)) <==> SenderIsClean(s, m, a) {
      MergedSenderExact(s, batch, m, a);
    }
    CleanMeansInv(s, s', m);
  }

  lemma CleanMeansInv(s: State, s': State, m: Merge)
    requires forall a :: ViewInv(ViewOf(s', a)) <==> SenderIsClean(s, m, a)
    requires s'.queue == m.queue && s'.inflight == map[] && !s'.posting && !s'.paid && s'.config == s.config
    requires m.queue != map[] && |m.queue| <= Max(s.config.maxSize, 1)
    ensures Inv(s') <==> RestoreIsClean(s, m)
  {
    if Inv(s') {
      forall a ensures SenderIsClean(s, m, a) { ViewHolds(s', a); }
    }
  }

  /** With room for the batch a restore is clean exactly when nothing queued outbids it. */
  lemma RoomIsClean(s: State, batch: seq<Key>, m: Merge)
    requires Inv(s) && CanRestore(s) && RestoreRuns(s, batch, m)
    ensures RestoreIsClean(s, m) <==> NothingOutbid(s)
  {
    RestoreExact(s, batch, m);
    RestoreWithRoomIsAtomic(s, batch, m);
    RestoreKeepsInv(s);
  }
}
