/** `restore_proofs_after_batch_failure` (crates/batcher/src/lib.rs): a failed batch goes back into a queue that
may have filled up meanwhile. */
module BatchRestore {
  import opened Basics
  import opened BatchQueue
  import opened BatchExtraction
  import opened BatcherState
  import opened SenderSteps
  import opened BatcherSteps
  import opened BatcherHazards

  type Users = map<Address, UserState>

  /** The loop's state: what is queued, the records, and what has been evicted or dropped so far. */
  datatype Merge = Merge(queue: Queue, users: Users, evicted: Queue, dropped: Queue)

  /** The victim's record, when one of their queued proofs is `other`; without one it is forgotten. */
  function EvictUser(users: Users, sender: Address, fee: nat, other: Option<Proof>): Users {
    match other
    case None => users - {sender}
    case Some(p) =>
      if sender in users then
        var u := users[sender];
        users[sender := UserState(Minus(u.nonce, 1), p.maxFee, Minus(u.totalFeesInQueue, fee),
            Minus(u.proofsInBatch, 1))]
      else users
  }

  /** `other` is some queued proof of the sender, if there is any. */
  ghost predicate IsOther(q: Queue, sender: Address, other: Option<Proof>) {
    match other
    case None => forall k :: k in q ==> k.sender != sender
    case Some(p) => exists k :: k in q && k.sender == sender && q[k] == p
  }

  ghost predicate Full(m: Merge, maxSize: nat) {
    |m.queue| >= maxSize && m.queue != map[]
  }

  ghost predicate Evicts(m: Merge, k: Key, p: Proof, m': Merge, low: Key, other: Option<Proof>) {
    && Lowest(m.queue, low)
    && m.queue[low].maxFee < p.maxFee
    && IsOther(m.queue - {low}, low.sender, other)
    && m' == Merge((m.queue - {low})[k := p], EvictUser(m.users, low.sender, m.queue[low].maxFee, other),
                   m.evicted[low := m.queue[low]], m.dropped)
  }

  ghost predicate Drops(m: Merge, k: Key, p: Proof, m': Merge, low: Key) {
    && Lowest(m.queue, low)
    && p.maxFee <= m.queue[low].maxFee
    && m' == m.(dropped := m.dropped[k := p])
  }

  /** What a turn of the loop does: the proof is pushed, or takes the place of the lowest, or is dropped. */
  datatype Turn = Push | Evict(low: Key, other: Option<Proof>) | Drop(low: Key)

  ghost predicate Takes(m: Merge, k: Key, p: Proof, maxSize: nat, m': Merge, turn: Turn) {
    match turn
    case Push => !Full(m, maxSize) && m' == m.(queue := m.queue[k := p])
    case Evict(low, other) => Full(m, maxSize) && Evicts(m, k, p, m', low, other)
    case Drop(low) => Full(m, maxSize) && Drops(m, k, p, m', low)
  }

  /** One turn of the loop. */
  ghost predicate MergeOne(m: Merge, k: Key, p: Proof, maxSize: nat, m': Merge) {
    exists turn :: Takes(m, k, p, maxSize, m', turn)
  }

  ghost predicate MergeRun(m: Merge, batch: seq<Key>, f: Queue, maxSize: nat, m': Merge)
    requires KeySet(batch) <= f.Keys
    decreases |batch|
  {
    if batch == [] then m' == m
    else
      var last, shorter := batch[|batch| - 1], batch[..|batch| - 1];
      KeySetPrefix(batch);
      exists mid :: MergeRun(m, shorter, f, maxSize, mid) && MergeOne(mid, last, f[last], maxSize, m')
  }

  lemma KeySetPrefix(batch: seq<Key>)
    requires batch != []
    ensures KeySet(batch) == KeySet(batch[..|batch| - 1]) + {batch[|batch| - 1]}
  {
  }

  // --- The queue is a bounded merge ---

  ghost predicate NotAbove(d: Queue, q: Queue) {
    forall x, y :: x in d && y in q ==> d[x].maxFee <= q[y].maxFee
  }

  function Max(x: nat, y: nat): nat {
    if x < y then y else x
  }

  ghost predicate Partition(all: Queue, a: Queue, b: Queue, c: Queue) {
    && a.Keys !! b.Keys && a.Keys !! c.Keys && b.Keys !! c.Keys
    && a + b + c == all
  }

  lemma PartitionPut(all: Queue, a: Queue, b: Queue, c: Queue, k: Key, p: Proof)
    requires Partition(all, a, b, c) && k !in all
    ensures k !in a && k !in b && k !in c
    ensures Partition(all[k := p], a[k := p], b, c) && Partition(all[k := p], a, b, c[k := p])
  {
    assert all.Keys == a.Keys + b.Keys + c.Keys;
  }

  lemma PartitionMove(all: Queue, a: Queue, b: Queue, c: Queue, k: Key)
    requires Partition(all, a, b, c) && k in a
    ensures Partition(all, a - {k}, b[k := a[k]], c)
  {
  }

  /** Every entry seen so far is in exactly one place, the queue is bounded, and nothing discarded pays more than
  anything kept. */
  ghost predicate Merged(all: Queue, m: Merge, maxSize: nat, bound: nat) {
    && Partition(all, m.queue, m.evicted, m.dropped)
    && |m.queue| <= bound
    && (m.evicted != map[] || m.dropped != map[] ==> Full(m, maxSize))
    && NotAbove(m.evicted, m.queue) && NotAbove(m.dropped, m.queue)
  }

  lemma MergeOneKeepsMerged(all: Queue, m: Merge, k: Key, p: Proof, maxSize: nat, bound: nat, m': Merge)
    requires Merged(all, m, maxSize, bound) && Max(maxSize, 1) <= bound && k !in all && MergeOne(m, k, p, maxSize, m')
    ensures Merged(all[k := p], m', maxSize, bound)
  {
    var turn :| Takes(m, k, p, maxSize, m', turn);
    match turn
    case Push => PushKeepsMerged(all, m, k, p, maxSize, bound, m');
    case Evict(low, other) => EvictKeepsMerged(all, m, k, p, maxSize, bound, m', low, other);
    case Drop(low) => DropKeepsMerged(all, m, k, p, maxSize, bound, m', low);
  }

  lemma PushKeepsMerged(all: Queue, m: Merge, k: Key, p: Proof, maxSize: nat, bound: nat, m': Merge)
    requires Merged(all, m, maxSize, bound) && Max(maxSize, 1) <= bound && k !in all
    requires !Full(m, maxSize) && m' == m.(queue := m.queue[k := p])
    ensures Merged(all[k := p], m', maxSize, bound)
  {
    PartitionPut(all, m.queue, m.evicted, m.dropped, k, p);
    PutSize(m.queue, k, p);
  }

  lemma DropKeepsMerged(all: Queue, m: Merge, k: Key, p: Proof, maxSize: nat, bound: nat, m': Merge, low: Key)
    requires Merged(all, m, maxSize, bound) && k !in all
    requires Full(m, maxSize) && Drops(m, k, p, m', low)
    ensures Merged(all[k := p], m', maxSize, bound)
  {
    PartitionPut(all, m.queue, m.evicted, m.dropped, k, p);
    LowestCovers(m.queue, low, p.maxFee);
  }

  lemma EvictKeepsMerged(all: Queue, m: Merge, k: Key, p: Proof, maxSize: nat, bound: nat, m': Merge, low: Key,
      other: Option<Proof>)
    requires Merged(all, m, maxSize, bound) && k !in all
    requires Full(m, maxSize) && Evicts(m, k, p, m', low, other)
    ensures Merged(all[k := p], m', maxSize, bound)
  {
    EvictPartition(all, m.queue, m.evicted, m.dropped, k, p, low);
    SwapSize(m.queue, low, k, p);
    EvictOrder(m, k, p, low);
  }

  lemma EvictPartition(all: Queue, q: Queue, e: Queue, d: Queue, k: Key, p: Proof, low: Key)
    requires Partition(all, q, e, d) && k !in all && low in q
    ensures Partition(all[k := p], (q - {low})[k := p], e[low := q[low]], d) && k !in q
  {
    PartitionMove(all, q, e, d, low);
    PartitionPut(all, q - {low}, e[low := q[low]], d, k, p);
  }

  lemma SwapSize(q: Queue, low: Key, k: Key, p: Proof)
    requires low in q && k !in q
    ensures |(q - {low})[k := p]| == |q|
  {
    assert (q - {low})[k := p].Keys == q.Keys - {low} + {k};
  }

  lemma EvictOrder(m: Merge, k: Key, p: Proof, low: Key)
    requires Lowest(m.queue, low) && m.queue[low].maxFee < p.maxFee
    requires NotAbove(m.evicted, m.queue) && NotAbove(m.dropped, m.queue)
    ensures var q' := (m.queue - {low})[k := p];
            NotAbove(m.evicted[low := m.queue[low]], q') && NotAbove(m.dropped, q')
  {
    var q' := (m.queue - {low})[k := p];
    LowestRises(m.queue, low, k, p);
    EvictKeepsOrder(m.dropped, m.queue, q', low);
    EvictKeepsOrder(m.evicted, m.queue, q', low);
  }

  lemma LowestRises(q: Queue, low: Key, k: Key, p: Proof)
    requires Lowest(q, low) && q[low].maxFee < p.maxFee
    ensures AllCover((q - {low})[k := p], q[low].maxFee)
  {
    var q' := (q - {low})[k := p];
    forall y | y in q' ensures q[low].maxFee <= q'[y].maxFee {
      if y != k { assert !PopsBefore(q, y, low); }
    }
  }

  lemma EvictKeepsOrder(d: Queue, q: Queue, q': Queue, low: Key)
    requires NotAbove(d, q) && low in q && AllCover(q', q[low].maxFee)
    ensures NotAbove(d, q') && NotAbove(d[low := q[low]], q')
  {
  }

  /** The restore loop is a bounded merge, whatever the order of the batch. */
  lemma {:induction false} RestoreMerges(q0: Queue, users: Users, batch: seq<Key>, f: Queue, maxSize: nat, m: Merge)
    requires NoDuplicates(batch) && KeySet(batch) <= f.Keys && q0.Keys !! f.Keys
    requires MergeRun(Merge(q0, users, map[], map[]), batch, f, maxSize, m)
    ensures Merged(q0 + Part(f, KeySet(batch)), m, maxSize, Max(|q0|, Max(maxSize, 1)))
    decreases |batch|
  {
    if batch == [] {
      NothingMerged(q0, m, f, maxSize, Max(|q0|, Max(maxSize, 1)));
    } else {
      var last, shorter := batch[|batch| - 1], batch[..|batch| - 1];
      PartWithout(q0, f, batch);
      var mid :| MergeRun(Merge(q0, users, map[], map[]), shorter, f, maxSize, mid) &&
          MergeOne(mid, last, f[last], maxSize, m);
      RestoreMerges(q0, users, shorter, f, maxSize, mid);
      MergeOneKeepsMerged(q0 + Part(f, KeySet(shorter)), mid, last, f[last], maxSize, Max(|q0|, Max(maxSize, 1)), m);
    }
  }

  lemma NothingMerged(q0: Queue, m: Merge, f: Queue, maxSize: nat, bound: nat)
    requires m.queue == q0 && m.evicted == map[] && m.dropped == map[] && |q0| <= bound
    ensures Merged(q0 + Part(f, {}), m, maxSize, bound) && KeySet([]) == {}
  {
    assert q0 + Part(f, {}) == q0;
    assert m.queue + m.evicted + m.dropped == q0;
  }

  lemma MergedSize(q0: Queue, f: Queue, batch: seq<Key>)
    requires NoDuplicates(batch) && KeySet(batch) <= f.Keys
    ensures |q0 + Part(f, KeySet(batch))| <= |q0| + |batch|
  {
    PartSize(f, batch);
    MergeSize(q0, Part(f, KeySet(batch)));
  }

  lemma PartWithout(q0: Queue, f: Queue, batch: seq<Key>)
    requires NoDuplicates(batch) && KeySet(batch) <= f.Keys && q0.Keys !! f.Keys && batch != []
    ensures var last, shorter := batch[|batch| - 1], batch[..|batch| - 1];
            && NoDuplicates(shorter) && KeySet(shorter) <= f.Keys && last in f
            && last !in q0 + Part(f, KeySet(shorter))
            && (q0 + Part(f, KeySet(shorter)))[last := f[last]] == q0 + Part(f, KeySet(batch))
  {
    var last, shorter := batch[|batch| - 1], batch[..|batch| - 1];
    PartOfLast(f, batch);
    MergePut(q0, Part(f, KeySet(shorter)), last, f[last]);
  }

  lemma MergePut(q: Queue, f: Queue, k: Key, p: Proof)
    ensures (q + f)[k := p] == q + f[k := p]
  {
  }

  /** With room for the whole batch nothing is discarded and no record is touched. */
  lemma {:induction false} RestoreWithRoom(q0: Queue, users: Users, batch: seq<Key>, f: Queue, maxSize: nat, m: Merge)
    requires NoDuplicates(batch) && KeySet(batch) <= f.Keys && q0.Keys !! f.Keys
    requires |q0| + |batch| <= maxSize
    requires MergeRun(Merge(q0, users, map[], map[]), batch, f, maxSize, m)
    ensures m == Merge(q0 + Part(f, KeySet(batch)), users, map[], map[])
    decreases |batch|
  {
    var m0 := Merge(q0, users, map[], map[]);
    if batch == [] {
      assert q0 + Part(f, KeySet(batch)) == q0;
    } else {
      var last, shorter := batch[|batch| - 1], batch[..|batch| - 1];
      KeySetPrefix(batch);
      var mid :| MergeRun(m0, shorter, f, maxSize, mid) && MergeOne(mid, last, f[last], maxSize, m);
      PartWithout(q0, f, batch);
      RestoreWithRoom(q0, users, shorter, f, maxSize, mid);
      MergedSize(q0, f, shorter);
      RoomPushes(mid, last, f[last], maxSize, m);
    }
  }

  lemma RoomPushes(m: Merge, k: Key, p: Proof, maxSize: nat, m': Merge)
    requires MergeOne(m, k, p, maxSize, m') && |m.queue| < maxSize
    ensures m' == m.(queue := m.queue[k := p])
  {
  }

  // --- The records of evicted senders ---

  lemma SubLane(e: Lane, m: Lane)
    requires e.Keys <= m.Keys && forall n :: n in e ==> e[n] == m[n]
    ensures |e| <= |m| && Fees(e) <= Fees(m)
  {
    var rest := m - e.Keys;
    assert e + rest == m;
    FeesMerge(e, rest);
    SizeMerge(e, rest);
  }

  /** The records `u0` count at least the entries of `big`. */
  ghost predicate Covers(u0: Users, big: Queue, a: Address) {
    a in u0 ==>
      && |LaneOf(big, a)| <= u0[a].nonce
      && |LaneOf(big, a)| <= u0[a].proofsInBatch
      && Fees(LaneOf(big, a)) <= u0[a].totalFeesInQueue
  }

  /** A record that survives has been debited exactly for the sender's evicted proofs. */
  ghost predicate Debited(u0: Users, m: Merge, a: Address) {
    a in m.users ==>
      && a in u0
      && m.users[a].nonce + |LaneOf(m.evicted, a)| == u0[a].nonce
      && m.users[a].proofsInBatch + |LaneOf(m.evicted, a)| == u0[a].proofsInBatch
      && m.users[a].totalFeesInQueue + Fees(LaneOf(m.evicted, a)) == u0[a].totalFeesInQueue
  }

  lemma EvictDebits(u0: Users, big: Queue, m: Merge, low: Key, p: Proof, other: Option<Proof>, m': Merge, a: Address)
    requires Debited(u0, m, a) && Covers(u0, big, a)
    requires low !in m.evicted && SubQueue(m'.evicted, big)
    requires m'.evicted == m.evicted[low := p]
    requires m'.users == EvictUser(m.users, low.sender, p.maxFee, other)
    ensures Debited(u0, m', a)
  {
    LaneOfPut(m.evicted, low, p);
    if a == low.sender && a in m'.users {
      LaneGrows(m.evicted, low, p, a);
      FeesPut(LaneOf(m.evicted, a), low.nonce, p);
      LaneInside(m'.evicted, big, a);
      SubLane(LaneOf(m'.evicted, a), LaneOf(big, a));
    }
  }

  lemma LaneInside(q: Queue, big: Queue, a: Address)
    requires SubQueue(q, big)
    ensures LaneOf(q, a).Keys <= LaneOf(big, a).Keys && forall n :: n in LaneOf(q, a) ==>
              LaneOf(q, a)[n] == LaneOf(big, a)[n]
  {
  }

  lemma MergeOneDebits(u0: Users, big: Queue, all: Queue, m: Merge, k: Key, p: Proof, maxSize: nat, m': Merge,
      a: Address)
    requires Debited(u0, m, a) && Covers(u0, big, a)
    requires Partition(all, m.queue, m.evicted, m.dropped) && SubQueue(all, big)
    requires MergeOne(m, k, p, maxSize, m')
    ensures Debited(u0, m', a)
  {
    var turn :| Takes(m, k, p, maxSize, m', turn);
    match turn
    case Evict(low, other) =>
      EvictedInside(all, big, m, low);
      EvictDebits(u0, big, m, low, m.queue[low], other, m', a);
    case _ =>
  }

  lemma EvictedInside(all: Queue, big: Queue, m: Merge, low: Key)
    requires Partition(all, m.queue, m.evicted, m.dropped) && SubQueue(all, big) && low in m.queue
    ensures SubQueue(m.evicted[low := m.queue[low]], big) && low !in m.evicted
  {
    assert forall x :: x in m.evicted ==> x in all && all[x] == m.evicted[x];
    assert low in all && all[low] == m.queue[low];
  }

  lemma {:induction false} RestoreDebits(q0: Queue, users: Users, batch: seq<Key>, f: Queue, maxSize: nat, m: Merge,
      a: Address)
    requires NoDuplicates(batch) && KeySet(batch) <= f.Keys && q0.Keys !! f.Keys
    requires MergeRun(Merge(q0, users, map[], map[]), batch, f, maxSize, m)
    requires Covers(users, q0 + f, a)
    ensures Debited(users, m, a)
    decreases |batch|
  {
    if batch == [] {
      assert LaneOf(m.evicted, a) == map[];
    } else {
      var last, shorter := batch[|batch| - 1], batch[..|batch| - 1];
      PartWithout(q0, f, batch);
      var mid :| MergeRun(Merge(q0, users, map[], map[]), shorter, f, maxSize, mid) &&
          MergeOne(mid, last, f[last], maxSize, m);
      RestoreDebits(q0, users, shorter, f, maxSize, mid, a);
      RestoreMerges(q0, users, shorter, f, maxSize, mid);
      SeenInside(q0, f, KeySet(shorter));
      MergeOneDebits(users, q0 + f, q0 + Part(f, KeySet(shorter)), mid, last, f[last], maxSize, m, a);
    }
  }

  lemma SeenInside(q0: Queue, f: Queue, seen: set<Key>)
    requires q0.Keys !! f.Keys && seen <= f.Keys
    ensures SubQueue(q0 + Part(f, seen), q0 + f)
  {
  }

  // --- What a restore does to the batcher ---

  ghost predicate RestoreRuns(s: State, batch: seq<Key>, m: Merge) {
    Lists(batch, s.inflight) && MergeRun(Merge(s.queue, s.users, map[], map[]), batch, s.inflight, s.config.maxSize, m)
  }

  ghost predicate WasRestored(s: State, m: Merge, a: Address) {
    exists k :: k in s.inflight && k !in m.dropped && k.sender == a
  }

  /** After the loop the records of the senders with a restored proof are recomputed from the queue. */
  ghost function AfterMerge(s: State, m: Merge): State {
    s.(queue := m.queue, inflight := map[], posting := false,
       users := map a | a in m.users ::
                  if WasRestored(s, m, a) then Recomputed(m.users[a].nonce, LaneOf(m.queue, a)) else m.users[a])
  }

  lemma SenderLanes(s: State, a: Address)
    requires Inv(s) && !s.paid
    ensures a in s.users ==>
              && s.users[a].nonce == NonceOf(s, a) + |LaneOf(s.queue, a)| + |LaneOf(s.inflight, a)|
              && LaneOf(s.queue, a).Keys !! LaneOf(s.inflight, a).Keys
    ensures a !in s.users ==> LaneOf(s.queue, a) == map[] && LaneOf(s.inflight, a) == map[]
  {
    ViewHolds(s, a);
    var v := ViewOf(s, a);
    if v.user.Some? {
      var lo, mid :| Window(v, lo, mid, v.user.value.nonce);
      IntervalSize(v.flying, lo, mid);
      IntervalSize(v.queued, mid, v.user.value.nonce);
    }
  }

  lemma KeysApart(s: State)
    requires Inv(s) && !s.paid
    ensures s.queue.Keys !! s.inflight.Keys
  {
    forall k | k in s.queue ensures k !in s.inflight {
      SenderLanes(s, k.sender);
      assert k == Key(k.sender, k.nonce);
      assert k.nonce in LaneOf(s.queue, k.sender);
    }
  }

  lemma RecordsCover(s: State, a: Address)
    requires Inv(s) && !s.paid
    ensures Covers(s.users, s.queue + s.inflight, a)
  {
    SenderLanes(s, a);
    LaneOfMerge(s.queue, s.inflight, a);
    ViewHolds(s, a);
    FeesMerge(LaneOf(s.queue, a), LaneOf(s.inflight, a));
    SizeMerge(LaneOf(s.queue, a), LaneOf(s.inflight, a));
  }

  /** The whole batch is accounted for and the queue stays bounded. */
  lemma RestoreIsBoundedMerge(s: State, batch: seq<Key>, m: Merge)
    requires Inv(s) && !s.paid && RestoreRuns(s, batch, m)
    ensures Partition(s.queue + s.inflight, m.queue, m.evicted, m.dropped)
    ensures |m.queue| <= Max(s.config.maxSize, 1)
    ensures NotAbove(m.evicted, m.queue) && NotAbove(m.dropped, m.queue)
  {
    KeysApart(s);
    assert Part(s.inflight, s.inflight.Keys) == s.inflight;
    RestoreMerges(s.queue, s.users, batch, s.inflight, s.config.maxSize, m);
  }

  /** With room for the whole batch the restore is the atomic one of the state machine. */
  lemma RestoreWithRoomIsAtomic(s: State, batch: seq<Key>, m: Merge)
    requires Inv(s) && CanRestore(s) && RestoreRuns(s, batch, m)
    ensures AfterMerge(s, m) == AfterRestore(s)
  {
    RoomMerge(s, batch, m);
    MergedWhole(s, m);
  }

  lemma MergedWhole(s: State, m: Merge)
    requires m == Merge(s.queue + s.inflight, s.users, map[], map[])
    ensures AfterMerge(s, m) == AfterRestore(s)
  {
    forall a | a in s.users ensures AfterMerge(s, m).users[a] == AfterRestore(s).users[a] {
      RestoredHasLane(s, m, a);
    }
    assert AfterMerge(s, m).users == AfterRestore(s).users;
  }

  lemma RestoredHasLane(s: State, m: Merge, a: Address)
    requires m.dropped == map[]
    ensures WasRestored(s, m, a) <==> LaneOf(s.inflight, a) != map[]
  {
    if n :| n in LaneOf(s.inflight, a) {
      assert Key(a, n) in s.inflight;
    }
    if k :| k in s.inflight && k.sender == a {
      assert k == Key(a, k.nonce) && k.nonce in LaneOf(s.inflight, a);
    }
  }

  /** A batch that fits is put back whole. */
  lemma RoomMerge(s: State, batch: seq<Key>, m: Merge)
    requires Inv(s) && CanRestore(s) && RestoreRuns(s, batch, m)
    ensures m == Merge(s.queue + s.inflight, s.users, map[], map[])
  {
    KeysApart(s);
    assert Part(s.inflight, s.inflight.Keys) == s.inflight;
    PartSize(s.inflight, batch);
    RestoreWithRoom(s.queue, s.users, batch, s.inflight, s.config.maxSize, m);
  }

  /** Dropped proofs are not taken off their sender's nonce: a surviving record expects a nonce that lies beyond
  the queued proofs by exactly the number of the sender's dropped ones. */
  lemma DroppedProofsLeaveNonceAhead(s: State, batch: seq<Key>, m: Merge, a: Address)
    requires Inv(s) && !s.paid && RestoreRuns(s, batch, m) && a in m.users
    ensures m.users[a].nonce == NonceOf(s, a) + |LaneOf(m.queue, a)| + |LaneOf(m.dropped, a)|
  {
    KeysApart(s);
    RecordsCover(s, a);
    RestoreDebits(s.queue, s.users, batch, s.inflight, s.config.maxSize, m, a);
    SenderLanes(s, a);
    RestoreIsBoundedMerge(s, batch, m);
    LaneSizes(s.queue + s.inflight, m.queue, m.evicted, m.dropped, a);
    LaneOfMerge(s.queue, s.inflight, a);
    SizeMerge(LaneOf(s.queue, a), LaneOf(s.inflight, a));
  }

  lemma LaneSizes(all: Queue, q: Queue, e: Queue, d: Queue, a: Address)
    requires Partition(all, q, e, d)
    ensures |LaneOf(all, a)| == |LaneOf(q, a)| + |LaneOf(e, a)| + |LaneOf(d, a)|
  {
    LaneOfMerge(q + e, d, a);
    LaneOfMerge(q, e, a);
    SizeMerge(LaneOf(q, a), LaneOf(e, a));
    SizeMerge(LaneOf(q + e, a), LaneOf(d, a));
  }

  lemma MergedLaneFalls(s: State, a: Address)
    requires Inv(s) && !s.paid && NothingOutbid(s)
    ensures FeesFall(LaneOf(s.queue + s.inflight, a))
  {
    LaneOfMerge(s.queue, s.inflight, a);
    ViewHolds(s, a);
    assert NoOutbid(ViewOf(s, a).queued, ViewOf(s, a).flying);
    if a in s.users { RestoreWindow(ViewOf(s, a)); }
  }

  /** When nothing queued outbids the batch, a proof is kept over one of its sender with a lower nonce only if
  both pay the same. */
  lemma OnlyEqualFeesAreSplit(s: State, batch: seq<Key>, m: Merge, a: Address, lower: nat, higher: nat)
    requires Inv(s) && !s.paid && NothingOutbid(s) && RestoreRuns(s, batch, m)
    requires lower < higher && Key(a, higher) in m.queue
    requires Key(a, lower) in s.queue + s.inflight && Key(a, lower) !in m.queue
    ensures (s.queue + s.inflight)[Key(a, lower)].maxFee == m.queue[Key(a, higher)].maxFee
  {
    RestoreIsBoundedMerge(s, batch, m);
    MergedLaneFalls(s, a);
    SplitPair(s.queue + s.inflight, m, a, lower, higher);
  }

  lemma SplitPair(all: Queue, m: Merge, a: Address, lower: nat, higher: nat)
    requires Partition(all, m.queue, m.evicted, m.dropped) && NotAbove(m.evicted, m.queue)
    requires NotAbove(m.dropped, m.queue)
    requires FeesFall(LaneOf(all, a)) && lower < higher && Key(a, higher) in m.queue
    requires Key(a, lower) in all && Key(a, lower) !in m.queue
    ensures all[Key(a, lower)].maxFee == m.queue[Key(a, higher)].maxFee
  {
    assert all[Key(a, higher)] == m.queue[Key(a, higher)];
    assert lower in LaneOf(all, a) && higher in LaneOf(all, a);
  }

  // --- The code ---

  /** The batch is walked in order; ties in the queue and the iteration order are left open. */
  method RestoreQueue(q0: Queue, users: Users, batch: seq<Key>, f: Queue, maxSize: nat) returns (m: Merge)
    requires NoDuplicates(batch) && KeySet(batch) <= f.Keys
    ensures MergeRun(Merge(q0, users, map[], map[]), batch, f, maxSize, m)
  {
    ghost var m0 := Merge(q0, users, map[], map[]);
    m := Merge(q0, users, map[], map[]);
    assert KeySet(batch[..0]) <= f.Keys;
    for i := 0 to |batch|
      invariant KeySet(batch[..i]) <= f.Keys
      invariant MergeRun(m0, batch[..i], f, maxSize, m)
    {
      var k := batch[i];
      assert k in KeySet(batch);
      ghost var mid := m;
      if |m.queue| >= maxSize && m.queue != map[] {
        var low := Peek(m.queue);
        var lowFee := m.queue[low].maxFee;
        if lowFee < f[k].maxFee {
          var left := m.queue - {low};
          var other := FindProof(left, low.sender);
          m := Merge(left[k := f[k]], EvictUser(m.users, low.sender, lowFee, other), m.evicted[low := m.queue[low]],
              m.dropped);
          assert Takes(mid, k, f[k], maxSize, m, Evict(low, other));
        } else {
          m := m.(dropped := m.dropped[k := f[k]]);
          assert Takes(mid, k, f[k], maxSize, m, Drop(low));
        }
      } else {
        m := m.(queue := m.queue[k := f[k]]);
        assert Takes(mid, k, f[k], maxSize, m, Push);
      }
      assert MergeOne(mid, k, f[k], maxSize, m);
      MergeRunSnoc(m0, batch, i, f, maxSize, mid, m);
    }
    assert batch[..|batch|] == batch;
  }

  lemma MergeRunSnoc(m0: Merge, batch: seq<Key>, i: nat, f: Queue, maxSize: nat, mid: Merge, m: Merge)
    requires KeySet(batch) <= f.Keys && i < |batch| && KeySet(batch[..i]) <= f.Keys
    requires MergeRun(m0, batch[..i], f, maxSize, mid) && batch[i] in f
    requires MergeOne(mid, batch[i], f[batch[i]], maxSize, m)
    ensures KeySet(batch[..i + 1]) <= f.Keys && MergeRun(m0, batch[..i + 1], f, maxSize, m)
  {
    var longer := batch[..i + 1];
    assert longer[..i] == batch[..i];
    assert forall k :: k in longer ==> k in KeySet(batch);
  }

  method FindProof(q: Queue, sender: Address) returns (r: Option<Proof>)
    ensures IsOther(q, sender, r)
  {
    if k :| k in q && k.sender == sender {
      r := Some(q[k]);
    } else {
      r := None;
    }
  }
}
