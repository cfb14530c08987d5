/** When `restore_proofs_after_batch_failure` keeps its promise that nonce N+1 is never queued without nonce N.

The outcome of a restore is worked out from the queue, the batch in the order it was listed, and the limit: which
proofs are turned away, and which of the others can be the ones that stay, however ties are broken. */
module RestoreOrder {
  import opened Basics
  import opened BatchQueue
  import opened BatchExtraction
  import opened BatcherState
  import opened BatcherSteps
  import opened BatchRestore

  /** What a restore starts from. */
  datatype Refill = Refill(queue: Queue, batch: seq<Key>, f: Queue, limit: nat)
  {
    ghost predicate Valid() {
      Lists(batch, f) && InPopOrder(f, batch) && queue.Keys !! f.Keys && |queue| <= limit
    }

    ghost function Cap(): nat { Max(limit, 1) }

    ghost function All(): Queue { queue + f }
  }

  ghost predicate Runs(c: Refill, users: Users, m: Merge) {
    KeySet(c.batch) <= c.f.Keys && MergeRun(Merge(c.queue, users, map[], map[]), c.batch, c.f, c.limit, m)
  }

  // --- The condition ---

  /** The proofs that pay at least `fee`. */
  ghost function Covering(q: Queue, fee: nat): set<Key> {
    set k | k in q && fee <= q[k].maxFee
  }

  /** The queue together with the first `i` proofs of the batch. */
  ghost function Seen(c: Refill, i: nat): Queue
    requires c.Valid() && i <= |c.batch|
  {
    KeysOfPrefix(c.batch, i);
    c.queue + Part(c.f, KeySet(c.batch[..i]))
  }

  ghost predicate TurnedAwayAt(c: Refill, i: nat)
    requires c.Valid()
  {
    i < |c.batch| && |Covering(Seen(c, i), c.f[c.batch[i]].maxFee)| >= c.Cap()
  }

  /** When its turn comes, as many proofs as fit pay at least as much. */
  ghost predicate TurnedAway(c: Refill, k: Key)
    requires c.Valid()
  {
    exists i: nat :: TurnedAwayAt(c, i) && c.batch[i] == k
  }

  ghost function Away(c: Refill): set<Key>
    requires c.Valid()
  {
    set k | k in c.f.Keys && TurnedAway(c, k)
  }

  /** What is popped after `y` at the end: everything that pays more, and what was let in at the same fee with a
  lower nonce. */
  ghost function Outranking(all: Queue, away: set<Key>, y: Key): set<Key>
    requires y in all
  {
    set k | k in all.Keys && PopsBefore(all, y, k) && (all[k].maxFee > all[y].maxFee || k !in away)
  }

  /** What is not popped before `x` at the end. */
  ghost function Rivals(all: Queue, away: set<Key>, x: Key): set<Key>
    requires x in all
  {
    set k | k in all.Keys && k != x && !PopsBefore(all, k, x) && (all[k].maxFee > all[x].maxFee || k !in away)
  }

  ghost predicate MayStay(all: Queue, away: set<Key>, cap: nat, y: Key) {
    y in all && y !in away && |Outranking(all, away, y)| < cap
  }

  ghost predicate MayBeEvicted(all: Queue, away: set<Key>, cap: nat, x: Key) {
    x in all && |Rivals(all, away, x)| >= cap
  }

  /** Of this pair of one sender's proofs the higher nonce may stay without the lower: the lower is turned away, or
  it pays less and may be evicted. */
  ghost predicate SplitPossible(all: Queue, away: set<Key>, cap: nat, x: Key, y: Key) {
    && x in all && y in all && x.sender == y.sender && x.nonce < y.nonce
    && MayStay(all, away, cap, y)
    && (x in away || (all[x].maxFee < all[y].maxFee && MayBeEvicted(all, away, cap, x)))
  }

  ghost predicate CanSplit(c: Refill, x: Key, y: Key)
    requires c.Valid()
  {
    SplitPossible(c.All(), Away(c), c.Cap(), x, y)
  }

  ghost predicate Splits(all: Queue, kept: set<Key>, x: Key, y: Key) {
    x in all && y in all && x.sender == y.sender && x.nonce < y.nonce && y in kept && x !in kept
  }

  // --- Turns, on keys ---

  /** Where the proofs seen so far are. */
  datatype Places = Places(kept: set<Key>, evicted: set<Key>, dropped: set<Key>)

  ghost function PlacesOf(m: Merge): Places {
    Places(m.queue.Keys, m.evicted.Keys, m.dropped.Keys)
  }

  ghost predicate LowestIn(all: Queue, keys: set<Key>, low: Key) {
    low in keys && keys <= all.Keys && forall y :: y in keys ==> !PopsBefore(all, y, low)
  }

  /** What was turned away is dropped, and nothing kept should have been popped before something evicted. */
  ghost predicate InOrder(all: Queue, away: set<Key>, r: Places) {
    && r.kept <= all.Keys && r.evicted <= all.Keys
    && r.kept !! away && r.evicted !! away && r.dropped <= away
    && forall z, y :: z in r.evicted && y in r.kept ==> !PopsBefore(all, y, z)
  }

  ghost predicate PaysLess(all: Queue, keys: set<Key>, fee: nat) {
    forall z :: z in keys ==> z in all && all[z].maxFee < fee
  }

  /** A turn: the newcomer `k` is let in, or takes the place of `low`, or is turned away. */
  ghost predicate KeyTurn(all: Queue, away: set<Key>, r: Places, k: Key, r': Places, low: Key) {
    k in all &&
    (|| (k !in away && r' == r.(kept := r.kept + {k}))
     || (k !in away && LowestIn(all, r.kept, low) && all[low].maxFee < all[k].maxFee
           && r' == r.(kept := r.kept - {low} + {k}, evicted := r.evicted + {low}))
     || (k in away && r' == r.(dropped := r.dropped + {k})))
  }

  lemma TurnInOrder(all: Queue, away: set<Key>, r: Places, k: Key, r': Places, low: Key)
    requires InOrder(all, away, r) && KeyTurn(all, away, r, k, r', low) && PaysLess(all, r.evicted, all[k].maxFee)
    ensures InOrder(all, away, r') && PaysLess(all, r'.evicted, all[k].maxFee)
  {
  }

  // --- Ties broken against `x` and for `y` ---

  ghost predicate Favours(all: Queue, r: Places, x: Key, y: Key) {
    && (x in r.kept ==> forall z :: z in r.evicted ==> z in all && x in all && PopsBefore(all, z, x))
    && (y in r.evicted ==> forall z :: z in r.kept ==> z in all && y in all && PopsBefore(all, y, z))
  }

  /** Pops `x` if it can be popped, and `y` only if nothing else can be. */
  ghost predicate Choice(all: Queue, keys: set<Key>, low: Key, x: Key, y: Key) {
    && LowestIn(all, keys, low)
    && (LowestIn(all, keys, x) ==> low == x)
    && (low == y ==> forall z :: LowestIn(all, keys, z) ==> z == y)
  }

  /** Whatever is not lowest is popped after everything lowest. */
  lemma LowestPopsFirst(all: Queue, keys: set<Key>, low: Key, z: Key)
    requires LowestIn(all, keys, low) && z in keys && !LowestIn(all, keys, z)
    ensures PopsBefore(all, low, z)
  {
    var w :| w in keys && PopsBefore(all, w, z);
    assert !PopsBefore(all, w, low);
  }

  lemma TurnFavours(all: Queue, away: set<Key>, r: Places, k: Key, r': Places, low: Key, x: Key, y: Key)
    requires Favours(all, r, x, y) && r.kept <= all.Keys && KeyTurn(all, away, r, k, r', low)
    requires PaysLess(all, r.evicted, all[k].maxFee)
    requires r'.evicted != r.evicted ==> Choice(all, r.kept, low, x, y)
    ensures Favours(all, r', x, y)
  {
    if x in r'.kept {
      forall z | z in r'.evicted ensures z in all && x in all && PopsBefore(all, z, x) {
        if x != k && z !in r.evicted { LowestPopsFirst(all, r.kept, low, x); }
      }
    }
    if y in r'.evicted {
      forall z | z in r'.kept ensures z in all && y in all && PopsBefore(all, y, z) {
        if z != k && y !in r.evicted { LowestPopsFirst(all, r.kept, low, z); }
      }
    }
  }

  // --- Ends, on keys ---

  ghost predicate Ended(all: Queue, away: set<Key>, r: Places, cap: nat) {
    && InOrder(all, away, r)
    && all.Keys == r.kept + r.evicted + r.dropped
    && |r.kept| <= cap
    && (r.evicted != {} ==> |r.kept| >= cap && r.kept !! r.evicted)
    && (forall d, k :: (d in r.evicted || d in r.dropped) && k in r.kept ==> all[d].maxFee <= all[k].maxFee)
  }

  lemma KeptMayStay(all: Queue, away: set<Key>, r: Places, cap: nat, y: Key)
    requires Ended(all, away, r, cap) && y in r.kept
    ensures MayStay(all, away, cap, y)
  {
    var above := Outranking(all, away, y);
    assert above <= r.kept - {y};
    SubsetSize(above, r.kept - {y});
  }

  lemma EvictedHasRivals(all: Queue, away: set<Key>, r: Places, cap: nat, x: Key)
    requires Ended(all, away, r, cap) && x in r.evicted
    ensures MayBeEvicted(all, away, cap, x)
  {
    var rivals := Rivals(all, away, x);
    forall k | k in r.kept ensures k in rivals {
      assert !PopsBefore(all, k, x);
    }
    SubsetSize(r.kept, rivals);
  }

  /** A split meets the condition. */
  lemma SplitMeetsCondition(all: Queue, away: set<Key>, r: Places, cap: nat, x: Key, y: Key)
    requires Ended(all, away, r, cap) && Splits(all, r.kept, x, y)
    ensures SplitPossible(all, away, cap, x, y)
  {
    KeptMayStay(all, away, r, cap, y);
    if x in r.evicted {
      EvictedHasRivals(all, away, r, cap, x);
      assert !PopsBefore(all, y, x);
    }
  }

  lemma FavouredStays(all: Queue, away: set<Key>, r: Places, cap: nat, x: Key, y: Key)
    requires Ended(all, away, r, cap) && Favours(all, r, x, y) && MayStay(all, away, cap, y)
    ensures y in r.kept
  {
    if y in r.evicted {
      var above := Outranking(all, away, y);
      assert r.kept <= above;
      SubsetSize(r.kept, above);
    }
  }

  lemma DisfavouredGoes(all: Queue, away: set<Key>, r: Places, cap: nat, x: Key, y: Key)
    requires Ended(all, away, r, cap) && Favours(all, r, x, y) && MayBeEvicted(all, away, cap, x)
    ensures x !in r.kept
  {
    if x in r.kept {
      var rivals := Rivals(all, away, x);
      assert rivals <= r.kept - {x};
      SubsetSize(rivals, r.kept - {x});
    }
  }

  /** A pair that meets the condition is split when ties favour it. */
  lemma ConditionSplits(all: Queue, away: set<Key>, r: Places, cap: nat, x: Key, y: Key)
    requires Ended(all, away, r, cap) && Favours(all, r, x, y) && SplitPossible(all, away, cap, x, y)
    ensures Splits(all, r.kept, x, y)
  {
    FavouredStays(all, away, r, cap, x, y);
    if x !in away { DisfavouredGoes(all, away, r, cap, x, y); }
  }

  // --- Prefixes of the batch ---

  lemma KeysOfPrefix(batch: seq<Key>, i: nat)
    requires i <= |batch|
    ensures KeySet(batch[..i]) <= KeySet(batch)
  {
  }

  lemma InBatch(c: Refill, i: nat)
    requires c.Valid() && i < |c.batch|
    ensures c.batch[i] in c.f && c.batch[i] !in c.queue
  {
    assert c.batch[i] in KeySet(c.batch);
  }

  lemma SeenGrows(c: Refill, i: nat)
    requires c.Valid() && i < |c.batch|
    ensures c.batch[i] in c.f && c.batch[i] !in Seen(c, i)
    ensures Seen(c, i + 1) == Seen(c, i)[c.batch[i] := c.f[c.batch[i]]]
  {
    InBatch(c, i);
    KeysOfPrefix(c.batch, i);
    KeysOfPrefix(c.batch, i + 1);
    NextKey(c.batch, i);
    PartPut(c.f, KeySet(c.batch[..i]), c.batch[i]);
    MergePut(c.queue, Part(c.f, KeySet(c.batch[..i])), c.batch[i], c.f[c.batch[i]]);
  }

  lemma NextKey(batch: seq<Key>, i: nat)
    requires NoDuplicates(batch) && i < |batch|
    ensures KeySet(batch[..i + 1]) == KeySet(batch[..i]) + {batch[i]} && batch[i] !in KeySet(batch[..i])
  {
    assert batch[..i + 1] == batch[..i] + [batch[i]];
  }

  lemma PartPut(f: Queue, s: set<Key>, k: Key)
    requires s <= f.Keys && k in f
    ensures Part(f, s + {k}) == Part(f, s)[k := f[k]]
  {
  }

  lemma SeenInAll(c: Refill, i: nat)
    requires c.Valid() && i <= |c.batch|
    ensures SubQueue(Seen(c, i), c.All())
  {
    KeysOfPrefix(c.batch, i);
    SeenInside(c.queue, c.f, KeySet(c.batch[..i]));
  }

  lemma SeenEnds(c: Refill)
    requires c.Valid()
    ensures Seen(c, 0) == c.queue && Seen(c, |c.batch|) == c.All()
  {
    WholeBatch(c.batch);
    assert Part(c.f, c.f.Keys) == c.f;
    NothingSeen(c.queue, c.f, c.batch);
  }

  lemma NothingSeen(q: Queue, f: Queue, batch: seq<Key>)
    ensures KeySet(batch[..0]) == {} && q + Part(f, {}) == q
  {
  }

  lemma TurnedAwayHere(c: Refill, i: nat)
    requires c.Valid() && i < |c.batch|
    ensures TurnedAway(c, c.batch[i]) <==> TurnedAwayAt(c, i)
  {
    if TurnedAway(c, c.batch[i]) {
      var j: nat :| TurnedAwayAt(c, j) && c.batch[j] == c.batch[i];
      UniquePlace(c.batch, i, j);
    }
  }

  lemma UniquePlace(batch: seq<Key>, i: nat, j: nat)
    requires NoDuplicates(batch) && i < |batch| && j < |batch| && batch[i] == batch[j]
    ensures i == j
  {
  }

  // --- Who is turned away ---

  lemma CoveringSize(seen: Queue, m: Merge, limit: nat, cap: nat, fee: nat)
    requires Merged(seen, m, limit, cap) && cap == Max(limit, 1)
    ensures |Covering(seen, fee)| >= cap <==> Full(m, limit) && AllCover(m.queue, fee)
  {
    var high := Covering(seen, fee);
    if AllCover(m.queue, fee) {
      assert m.queue.Keys <= high;
      SubsetSize(m.queue.Keys, high);
      if m.evicted == map[] && m.dropped == map[] {
        assert m.queue == seen;
        SubsetSize(high, m.queue.Keys);
      }
    } else {
      var e :| e in m.queue && m.queue[e].maxFee < fee;
      HighIsKept(seen, m, fee, e);
      SubsetSize(high, m.queue.Keys - {e});
    }
  }

  lemma HighIsKept(seen: Queue, m: Merge, fee: nat, e: Key)
    requires Partition(seen, m.queue, m.evicted, m.dropped) && NotAbove(m.evicted, m.queue)
    requires NotAbove(m.dropped, m.queue)
    requires e in m.queue && m.queue[e].maxFee < fee
    ensures Covering(seen, fee) <= m.queue.Keys - {e}
  {
    assert forall k :: k in m.evicted ==> seen[k] == m.evicted[k];
    assert forall k :: k in m.dropped ==> seen[k] == m.dropped[k];
  }

  /** A proof is dropped on its turn exactly when it is one to be turned away. */
  lemma AdmissionExact(c: Refill, t: nat, m: Merge)
    requires c.Valid() && t < |c.batch| && Merged(Seen(c, t), m, c.limit, c.Cap()) && c.batch[t] in c.f
    ensures c.batch[t] in Away(c) <==> Full(m, c.limit) && AllCover(m.queue, c.f[c.batch[t]].maxFee)
  {
    TurnedAwayHere(c, t);
    CoveringSize(Seen(c, t), m, c.limit, c.Cap(), c.f[c.batch[t]].maxFee);
  }

  // --- The loop takes such turns ---

  lemma LowestOnKeys(q: Queue, all: Queue, low: Key)
    requires SubQueue(q, all)
    ensures Lowest(q, low) <==> LowestIn(all, q.Keys, low)
  {
    assert forall y :: y in q && low in q ==> (PopsBefore(q, y, low) <==> PopsBefore(all, y, low));
  }

  lemma EvictOnKeys(all: Queue, away: set<Key>, m: Merge, k: Key, p: Proof, m': Merge, low: Key, other: Option<Proof>)
    requires Evicts(m, k, p, m', low, other) && SubQueue(m.queue, all) && k in all && all[k] == p
    requires k in away ==> AllCover(m.queue, p.maxFee)
    ensures KeyTurn(all, away, PlacesOf(m), k, PlacesOf(m'), low)
  {
    LowestOnKeys(m.queue, all, low);
    KeysAfterSwap(m.queue, k, p, low);
    KeysAfterPut(m.evicted, low, m.queue[low]);
  }

  lemma DropOnKeys(all: Queue, away: set<Key>, m: Merge, k: Key, p: Proof, m': Merge, low: Key)
    requires Drops(m, k, p, m', low) && k in all && (AllCover(m.queue, p.maxFee) ==> k in away)
    ensures KeyTurn(all, away, PlacesOf(m), k, PlacesOf(m'), low)
  {
    LowestCovers(m.queue, low, p.maxFee);
    KeysAfterPut(m.dropped, k, p);
  }

  lemma TurnOnKeys(all: Queue, away: set<Key>, m: Merge, k: Key, p: Proof, limit: nat, m': Merge) returns (low: Key)
    requires MergeOne(m, k, p, limit, m') && SubQueue(m.queue, all) && k in all && all[k] == p
    requires k in away <==> Full(m, limit) && AllCover(m.queue, p.maxFee)
    ensures KeyTurn(all, away, PlacesOf(m), k, PlacesOf(m'), low)
  {
    var turn :| Takes(m, k, p, limit, m', turn);
    match turn
    case Push =>
      low := k;
      KeysAfterPut(m.queue, k, p);
    case Evict(l, other) =>
      low := l;
      EvictOnKeys(all, away, m, k, p, m', low, other);
    case Drop(l) =>
      low := l;
      DropOnKeys(all, away, m, k, p, m', low);
  }

  lemma KeysAfterPut(q: Queue, k: Key, p: Proof)
    ensures q[k := p].Keys == q.Keys + {k}
  {
  }

  lemma KeysAfterSwap(q: Queue, k: Key, p: Proof, low: Key)
    ensures (q - {low})[k := p].Keys == q.Keys - {low} + {k}
  {
  }

  /** The fee of the proof put back last; nothing has been evicted before the first. */
  ghost predicate Below(c: Refill, t: nat, r: Places)
    requires c.Valid() && t <= |c.batch|
  {
    if t == 0 then r.evicted == {}
    else c.batch[t - 1] in c.f && PaysLess(c.All(), r.evicted, c.f[c.batch[t - 1]].maxFee)
  }

  ghost predicate After(c: Refill, t: nat, m: Merge)
    requires c.Valid() && t <= |c.batch|
  {
    && Merged(Seen(c, t), m, c.limit, c.Cap())
    && InOrder(c.All(), Away(c), PlacesOf(m))
    && Below(c, t, PlacesOf(m))
  }

  lemma BelowNext(c: Refill, t: nat, r: Places)
    requires c.Valid() && t < |c.batch| && Below(c, t, r)
    ensures c.batch[t] in c.All() && c.All()[c.batch[t]] == c.f[c.batch[t]]
    ensures PaysLess(c.All(), r.evicted, c.f[c.batch[t]].maxFee)
  {
    InBatch(c, t);
    if t > 0 {
      InBatch(c, t - 1);
      assert !PopsBefore(c.f, c.batch[t], c.batch[t - 1]);
    }
  }

  lemma QueueInside(c: Refill, t: nat, m: Merge)
    requires c.Valid() && t <= |c.batch| && Merged(Seen(c, t), m, c.limit, c.Cap())
    ensures SubQueue(m.queue, c.All())
  {
    SeenInAll(c, t);
    PartInside(Seen(c, t), c.All(), m);
  }

  lemma PartInside(seen: Queue, all: Queue, m: Merge)
    requires Partition(seen, m.queue, m.evicted, m.dropped) && SubQueue(seen, all)
    ensures SubQueue(m.queue, all) && SubQueue(m.evicted, all) && SubQueue(m.dropped, all)
  {
  }

  lemma TurnTaken(c: Refill, t: nat, m: Merge, m': Merge) returns (low: Key)
    requires c.Valid() && t < |c.batch| && Merged(Seen(c, t), m, c.limit, c.Cap()) && c.batch[t] in c.f
    requires c.batch[t] in c.All() && c.All()[c.batch[t]] == c.f[c.batch[t]]
    requires MergeOne(m, c.batch[t], c.f[c.batch[t]], c.limit, m')
    ensures KeyTurn(c.All(), Away(c), PlacesOf(m), c.batch[t], PlacesOf(m'), low)
  {
    AdmissionExact(c, t, m);
    QueueInside(c, t, m);
    low := TurnOnKeys(c.All(), Away(c), m, c.batch[t], c.f[c.batch[t]], c.limit, m');
  }

  lemma TurnMerged(c: Refill, t: nat, m: Merge, m': Merge)
    requires c.Valid() && t < |c.batch| && Merged(Seen(c, t), m, c.limit, c.Cap()) && c.batch[t] in c.f
    requires MergeOne(m, c.batch[t], c.f[c.batch[t]], c.limit, m')
    ensures Merged(Seen(c, t + 1), m', c.limit, c.Cap())
  {
    SeenGrows(c, t);
    MergeOneKeepsMerged(Seen(c, t), m, c.batch[t], c.f[c.batch[t]], c.limit, c.Cap(), m');
  }

  lemma TurnKeeps(c: Refill, t: nat, m: Merge, m': Merge) returns (low: Key)
    requires c.Valid() && t < |c.batch| && After(c, t, m) && c.batch[t] in c.f
    requires MergeOne(m, c.batch[t], c.f[c.batch[t]], c.limit, m')
    ensures After(c, t + 1, m') && KeyTurn(c.All(), Away(c), PlacesOf(m), c.batch[t], PlacesOf(m'), low)
  {
    TurnMerged(c, t, m, m');
    BelowNext(c, t, PlacesOf(m));
    low := TurnTaken(c, t, m, m');
    TurnInOrder(c.All(), Away(c), PlacesOf(m), c.batch[t], PlacesOf(m'), low);
  }

  lemma StartKeeps(c: Refill, users: Users)
    requires c.Valid()
    ensures After(c, 0, Merge(c.queue, users, map[], map[]))
  {
    SeenEnds(c);
    StartMerged(c.queue, users, c.limit, c.Cap());
    StartInOrder(c.queue, c.All(), c.f.Keys, Away(c));
  }

  lemma StartMerged(q: Queue, users: Users, limit: nat, cap: nat)
    requires |q| <= cap
    ensures Merged(q, Merge(q, users, map[], map[]), limit, cap)
  {
    assert q + map[] + map[] == q;
  }

  lemma StartInOrder(q: Queue, all: Queue, batch: set<Key>, away: set<Key>)
    requires q.Keys <= all.Keys && q.Keys !! batch && away <= batch
    ensures InOrder(all, away, Places(q.Keys, {}, {}))
  {
  }

  lemma LastTurn(m0: Merge, batch: seq<Key>, f: Queue, limit: nat, i: nat, t: nat, m: Merge) returns (mid: Merge)
    requires t == i + 1 <= |batch| && KeySet(batch[..t]) <= f.Keys && MergeRun(m0, batch[..t], f, limit, m)
    ensures KeySet(batch[..i]) <= f.Keys && MergeRun(m0, batch[..i], f, limit, mid)
    ensures batch[i] in f && MergeOne(mid, batch[i], f[batch[i]], limit, m)
  {
    var part := batch[..t];
    KeySetPrefix(part);
    assert part[..i] == batch[..i] && part[i] == batch[i] && |part| - 1 == i;
    mid :| MergeRun(m0, part[..|part| - 1], f, limit, mid) &&
        MergeOne(mid, part[|part| - 1], f[part[|part| - 1]], limit, m);
  }

  lemma {:induction false} PrefixKeeps(c: Refill, users: Users, t: nat, m: Merge)
    requires c.Valid() && t <= |c.batch| && KeySet(c.batch[..t]) <= c.f.Keys
    requires MergeRun(Merge(c.queue, users, map[], map[]), c.batch[..t], c.f, c.limit, m)
    ensures After(c, t, m)
    decreases t
  {
    if t == 0 {
      StartKeeps(c, users);
    } else {
      var i: nat := t - 1;
      var mid := LastTurn(Merge(c.queue, users, map[], map[]), c.batch, c.f, c.limit, i, t, m);
      PrefixKeeps(c, users, i, mid);
      var low := TurnKeeps(c, i, mid, m);
    }
  }

  /** Every prefix of a run is an end for the proofs seen so far. */
  lemma PrefixEnded(c: Refill, t: nat, m: Merge)
    requires c.Valid() && t <= |c.batch| && After(c, t, m)
    ensures Ended(Seen(c, t), Away(c), PlacesOf(m), c.Cap())
  {
    var seen := Seen(c, t);
    PartInside(seen, seen, m);
    SeenInAll(c, t);
    OrderInside(seen, c.All(), Away(c), PlacesOf(m));
    MergedEnded(seen, m, c.limit, c.Cap());
  }

  lemma OrderInside(seen: Queue, all: Queue, away: set<Key>, r: Places)
    requires SubQueue(seen, all) && r.kept <= seen.Keys && r.evicted <= seen.Keys && InOrder(all, away, r)
    ensures InOrder(seen, away, r)
  {
    forall z, y | z in r.evicted && y in r.kept ensures !PopsBefore(seen, y, z) {
      assert !PopsBefore(all, y, z);
    }
  }

  lemma EndIsEnded(c: Refill, m: Merge)
    requires c.Valid() && After(c, |c.batch|, m)
    ensures Ended(c.All(), Away(c), PlacesOf(m), c.Cap())
  {
    PrefixEnded(c, |c.batch|, m);
    SeenEnds(c);
  }

  lemma MergedEnded(all: Queue, m: Merge, limit: nat, cap: nat)
    requires Merged(all, m, limit, cap) && cap == Max(limit, 1)
    requires SubQueue(m.queue, all) && SubQueue(m.evicted, all) && SubQueue(m.dropped, all)
    ensures var r := PlacesOf(m);
            && all.Keys == r.kept + r.evicted + r.dropped
            && |r.kept| <= cap
            && (r.evicted != {} ==> |r.kept| >= cap && r.kept !! r.evicted)
            && (forall d, k :: (d in r.evicted || d in r.dropped) && k in r.kept ==> all[d].maxFee <= all[k].maxFee)
  {
    assert m.evicted != map[] ==> |m.queue| >= 1;
  }

  lemma RunEnds(c: Refill, users: Users, m: Merge)
    requires c.Valid() && Runs(c, users, m)
    ensures Ended(c.All(), Away(c), PlacesOf(m), c.Cap())
  {
    assert c.batch[..|c.batch|] == c.batch;
    PrefixKeeps(c, users, |c.batch|, m);
    EndIsEnded(c, m);
  }

  // --- A run with ties broken at will ---

  ghost predicate Has(keys: set<Key>, a: Address) {
    exists k :: k in keys && k.sender == a
  }

  /** The proof that sets the victim's new limit: `w` if it is one of theirs. */
  ghost predicate OtherChoice(q: Queue, sender: Address, other: Option<Proof>, w: Key) {
    IsOther(q, sender, other) && (w in q && w.sender == sender ==> other == Some(q[w]))
  }

  lemma OtherExists(q: Queue, sender: Address, w: Key)
    ensures exists other :: OtherChoice(q, sender, other, w)
  {
    if w in q && w.sender == sender {
      assert OtherChoice(q, sender, Some(q[w]), w);
    } else if k :| k in q && k.sender == sender {
      assert OtherChoice(q, sender, Some(q[k]), w);
    } else {
      assert OtherChoice(q, sender, None, w);
    }
  }

  /** While `w` is queued its sender keeps the record, and any eviction of theirs sets the limit to `w`'s fee. */
  ghost predicate Credits(m: Merge, users: Users, w: Key) {
    w in m.queue && w.sender in users ==>
      && w.sender in m.users
      && (Has(m.evicted.Keys, w.sender) ==> m.users[w.sender].lastMaxFeeLimit == m.queue[w].maxFee)
  }

  lemma ChoiceExists(all: Queue, q: Queue, x: Key, y: Key)
    requires q != map[] && x != y && SubQueue(q, all)
    ensures exists low :: Choice(all, q.Keys, low, x, y)
  {
    LowestExists(q);
    var first :| Lowest(q, first);
    LowestOnKeys(q, all, first);
    var keys := q.Keys;
    if LowestIn(all, keys, x) {
      assert Choice(all, keys, x, x, y);
    } else if low :| LowestIn(all, keys, low) && low != y {
      assert Choice(all, keys, low, x, y);
    } else {
      assert Choice(all, keys, first, x, y);
    }
  }

  /** A turn with both choices made. */
  ghost predicate ChosenTurn(all: Queue, m: Merge, k: Key, p: Proof, limit: nat, m': Merge, x: Key, y: Key, w: Key,
      low: Key) {
    || (m'.users == m.users && m'.evicted == m.evicted && (m'.queue == m.queue || m'.queue == m.queue[k := p]))
    || exists other :: ChosenEviction(all, m, k, p, m', x, y, w, low, other)
  }

  ghost predicate ChosenEviction(all: Queue, m: Merge, k: Key, p: Proof, m': Merge, x: Key, y: Key, w: Key, low: Key,
      other: Option<Proof>) {
    && Choice(all, m.queue.Keys, low, x, y) && OtherChoice(m.queue - {low}, low.sender, other, w)
    && Evicts(m, k, p, m', low, other)
  }

  lemma TurnExists(all: Queue, m: Merge, k: Key, p: Proof, limit: nat, x: Key, y: Key, w: Key)
    returns (m': Merge, chosen: Key)
    requires x != y && SubQueue(m.queue, all)
    ensures MergeOne(m, k, p, limit, m') && ChosenTurn(all, m, k, p, limit, m', x, y, w, chosen)
  {
    chosen := k;
    if Full(m, limit) {
      ChoiceExists(all, m.queue, x, y);
      chosen :| Choice(all, m.queue.Keys, chosen, x, y);
      LowestOnKeys(m.queue, all, chosen);
      if m.queue[chosen].maxFee < p.maxFee {
        OtherExists(m.queue - {chosen}, chosen.sender, w);
        var other :| OtherChoice(m.queue - {chosen}, chosen.sender, other, w);
        m' := Merge((m.queue - {chosen})[k := p], EvictUser(m.users, chosen.sender, m.queue[chosen].maxFee, other),
                    m.evicted[chosen := m.queue[chosen]], m.dropped);
        assert ChosenEviction(all, m, k, p, m', x, y, w, chosen, other);
        assert Takes(m, k, p, limit, m', Evict(chosen, other));
      } else {
        m' := m.(dropped := m.dropped[k := p]);
        assert Takes(m, k, p, limit, m', Drop(chosen));
      }
    } else {
      m' := m.(queue := m.queue[k := p]);
      assert Takes(m, k, p, limit, m', Push);
    }
  }

  lemma TurnCredits(all: Queue, m: Merge, k: Key, p: Proof, limit: nat, m': Merge, x: Key, y: Key, w: Key, low: Key,
      users: Users)
    requires ChosenTurn(all, m, k, p, limit, m', x, y, w, low) && Credits(m, users, w) && k != w
    ensures Credits(m', users, w)
  {
    if w in m'.queue && w.sender in users {
      if other :| ChosenEviction(all, m, k, p, m', x, y, w, low, other) {
        EvictCredits(m, k, p, m', low, other, w);
      }
    }
  }

  lemma EvictCredits(m: Merge, k: Key, p: Proof, m': Merge, low: Key, other: Option<Proof>, w: Key)
    requires Evicts(m, k, p, m', low, other) && OtherChoice(m.queue - {low}, low.sender, other, w) && k != w
    requires w in m'.queue
    requires w.sender in m.users
    requires Has(m.evicted.Keys, w.sender) ==> m.users[w.sender].lastMaxFeeLimit == m.queue[w].maxFee
    ensures w.sender in m'.users
    ensures Has(m'.evicted.Keys, w.sender) ==> m'.users[w.sender].lastMaxFeeLimit == m'.queue[w].maxFee
  {
    KeysAfterPut(m.evicted, low, m.queue[low]);
    if low.sender != w.sender && Has(m'.evicted.Keys, w.sender) {
      var z :| z in m'.evicted.Keys && z.sender == w.sender;
      assert z in m.evicted.Keys;
    }
  }

  lemma SameLow(r: Places, r': Places, low: Key, chosen: Key)
    requires r.kept !! r.evicted && low in r.kept && chosen in r.kept
    requires r'.evicted == r.evicted + {low} && r'.evicted == r.evicted + {chosen}
    ensures low == chosen
  {
    assert low in r'.evicted;
  }

  lemma FavourTurn(all: Queue, away: set<Key>, m: Merge, k: Key, p: Proof, limit: nat, m': Merge, low: Key, chosen: Key,
      x: Key, y: Key, w: Key)
    requires Favours(all, PlacesOf(m), x, y) && m.queue.Keys <= all.Keys && m.queue.Keys !! m.evicted.Keys
    requires KeyTurn(all, away, PlacesOf(m), k, PlacesOf(m'), low) && PaysLess(all, m.evicted.Keys, all[k].maxFee)
    requires ChosenTurn(all, m, k, p, limit, m', x, y, w, chosen)
    ensures Favours(all, PlacesOf(m'), x, y)
  {
    var r, r' := PlacesOf(m), PlacesOf(m');
    if r'.evicted != r.evicted {
      KeysAfterPut(m.evicted, chosen, m.queue[chosen]);
      SameLow(r, r', low, chosen);
    }
    TurnFavours(all, away, r, k, r', low, x, y);
  }

  ghost predicate Chosen(c: Refill, users: Users, m: Merge, x: Key, y: Key, w: Key) {
    Favours(c.All(), PlacesOf(m), x, y) && (w in c.queue ==> Credits(m, users, w))
  }

  lemma StartChosen(c: Refill, users: Users, x: Key, y: Key, w: Key)
    ensures Chosen(c, users, Merge(c.queue, users, map[], map[]), x, y, w)
  {
    var m := Merge(c.queue, users, map[], map[]);
    assert PlacesOf(m).evicted == {};
    assert !Has(m.evicted.Keys, w.sender);
  }

  /** A turn of the loop with the choices made for `x`, `y` and `w`. */
  lemma ChosenStep(c: Refill, users: Users, t: nat, m: Merge, x: Key, y: Key, w: Key) returns (m': Merge)
    requires c.Valid() && t < |c.batch| && x != y && After(c, t, m) && Chosen(c, users, m, x, y, w)
    ensures c.batch[t] in c.f && MergeOne(m, c.batch[t], c.f[c.batch[t]], c.limit, m')
    ensures After(c, t + 1, m') && Chosen(c, users, m', x, y, w)
  {
    var k := c.batch[t];
    InBatch(c, t);
    QueueInside(c, t, m);
    BelowNext(c, t, PlacesOf(m));
    var chosen;
    m', chosen := TurnExists(c.All(), m, k, c.f[k], c.limit, x, y, w);
    var low := TurnKeeps(c, t, m, m');
    FavourTurn(c.All(), Away(c), m, k, c.f[k], c.limit, m', low, chosen, x, y, w);
    if w in c.queue {
      TurnCredits(c.All(), m, k, c.f[k], c.limit, m', x, y, w, chosen, users);
    }
  }

  lemma {:induction false} ChosenRun(c: Refill, users: Users, t: nat, x: Key, y: Key, w: Key) returns (m: Merge)
    requires c.Valid() && t <= |c.batch| && x != y
    ensures KeySet(c.batch[..t]) <= c.f.Keys
    ensures MergeRun(Merge(c.queue, users, map[], map[]), c.batch[..t], c.f, c.limit, m)
    ensures After(c, t, m) && Chosen(c, users, m, x, y, w)
    decreases t
  {
    KeysOfPrefix(c.batch, t);
    if t == 0 {
      m := Merge(c.queue, users, map[], map[]);
      NoTurns(m, c);
      StartKeeps(c, users);
      StartChosen(c, users, x, y, w);
    } else {
      var mid := ChosenRun(c, users, t - 1, x, y, w);
      m := ChosenStep(c, users, t - 1, mid, x, y, w);
      OneMoreTurn(Merge(c.queue, users, map[], map[]), c, t, mid, m);
    }
  }

  lemma ChosenRunEnds(c: Refill, users: Users, x: Key, y: Key, w: Key) returns (m: Merge)
    requires c.Valid() && x != y
    ensures Runs(c, users, m) && Ended(c.All(), Away(c), PlacesOf(m), c.Cap()) && Chosen(c, users, m, x, y, w)
  {
    m := ChosenRun(c, users, |c.batch|, x, y, w);
    WholeBatch(c.batch);
    EndIsEnded(c, m);
  }

  lemma NoTurns(m0: Merge, c: Refill)
    ensures KeySet(c.batch[..0]) <= c.f.Keys && MergeRun(m0, c.batch[..0], c.f, c.limit, m0)
  {
    assert c.batch[..0] == [];
  }

  lemma OneMoreTurn(m0: Merge, c: Refill, t: nat, mid: Merge, m: Merge)
    requires Lists(c.batch, c.f) && 0 < t <= |c.batch| && KeySet(c.batch[..t - 1]) <= c.f.Keys && c.batch[t - 1] in c.f
    requires MergeRun(m0, c.batch[..t - 1], c.f, c.limit, mid)
    requires MergeOne(mid, c.batch[t - 1], c.f[c.batch[t - 1]], c.limit, m)
    ensures KeySet(c.batch[..t]) <= c.f.Keys && MergeRun(m0, c.batch[..t], c.f, c.limit, m)
  {
    MergeRunSnoc(m0, c.batch, t - 1, c.f, c.limit, mid, m);
  }

  /** A pair that meets the condition is split by some run. */
  lemma SplittingRun(c: Refill, users: Users, x: Key, y: Key) returns (m: Merge)
    requires c.Valid() && CanSplit(c, x, y)
    ensures Runs(c, users, m) && Splits(c.All(), m.queue.Keys, x, y)
  {
    m := ChosenRunEnds(c, users, x, y, y);
    ConditionSplits(c.All(), Away(c), PlacesOf(m), c.Cap(), x, y);
  }

  lemma WholeBatch(batch: seq<Key>)
    ensures batch[..|batch|] == batch
  {
  }

  lemma SplitIsPossible(c: Refill, users: Users, m: Merge, x: Key, y: Key)
    requires c.Valid() && Runs(c, users, m) && Splits(c.All(), m.queue.Keys, x, y)
    ensures CanSplit(c, x, y)
  {
    RunEnds(c, users, m);
    SplitMeetsCondition(c.All(), Away(c), PlacesOf(m), c.Cap(), x, y);
  }

  // --- The promise, for a state of the batcher ---

  ghost function RefillOf(s: State, batch: seq<Key>): Refill {
    Refill(s.queue, batch, s.inflight, s.config.maxSize)
  }

  lemma RefillIsValid(s: State, batch: seq<Key>)
    requires Inv(s) && !s.paid && Lists(batch, s.inflight) && InPopOrder(s.inflight, batch)
    ensures RefillOf(s, batch).Valid()
  {
    KeysApart(s);
  }

  lemma SameRuns(s: State, batch: seq<Key>, m: Merge)
    requires Lists(batch, s.inflight)
    ensures RestoreRuns(s, batch, m) <==> Runs(RefillOf(s, batch), s.users, m)
  {
  }

  /** No restore of the batch leaves a sender's proof queued without one of theirs with a lower nonce. */
  ghost predicate NeverSplits(s: State, batch: seq<Key>) {
    forall m, x, y :: RestoreRuns(s, batch, m) ==> !Splits(s.queue + s.inflight, m.queue.Keys, x, y)
  }

  /** The promise holds of a queue, a batch and a limit exactly when no pair of one sender's proofs, queued or in
  flight, meets the condition. */
  lemma NeverSplitsExactly(s: State, batch: seq<Key>)
    requires Inv(s) && !s.paid && Lists(batch, s.inflight) && InPopOrder(s.inflight, batch)
    ensures RefillOf(s, batch).Valid()
    ensures NeverSplits(s, batch) <==> forall x, y :: !CanSplit(RefillOf(s, batch), x, y)
  {
    var c := RefillOf(s, batch);
    RefillIsValid(s, batch);
    if x, y :| CanSplit(c, x, y) {
      var m := SplittingRun(c, s.users, x, y);
      SameRuns(s, batch, m);
    } else {
      forall m, x, y | RestoreRuns(s, batch, m) ensures !Splits(s.queue + s.inflight, m.queue.Keys, x, y) {
        SameRuns(s, batch, m);
        if Splits(c.All(), m.queue.Keys, x, y) { SplitIsPossible(c, s.users, m, x, y); }
      }
    }
  }

  /** With room for everything the condition is never met. */
  lemma RoomNeverSplits(c: Refill, x: Key, y: Key)
    requires c.Valid() && |c.queue| + |c.batch| <= c.limit
    ensures !CanSplit(c, x, y)
  {
    assert Part(c.f, c.f.Keys) == c.f;
    if CanSplit(c, x, y) {
      var m := SplittingRun(c, map[], x, y);
      RestoreWithRoom(c.queue, map[], c.batch, c.f, c.limit, m);
    }
  }

  /** When nothing queued outbids the batch, a pair that meets the condition has equal fees, and its lower nonce is
  in flight. */
  lemma SplitNeedsEqualFees(s: State, batch: seq<Key>, x: Key, y: Key)
    requires Inv(s) && !s.paid && NothingOutbid(s) && Lists(batch, s.inflight) && InPopOrder(s.inflight, batch)
    requires RefillOf(s, batch).Valid() && CanSplit(RefillOf(s, batch), x, y)
    ensures x in s.inflight && (s.queue + s.inflight)[x].maxFee == (s.queue + s.inflight)[y].maxFee
  {
    var c := RefillOf(s, batch);
    var m := SplittingRun(c, s.users, x, y);
    SameRuns(s, batch, m);
    assert x == Key(x.sender, x.nonce) && y == Key(x.sender, y.nonce);
    RestoreIsBoundedMerge(s, batch, m);
    PartInside(c.All(), c.All(), m);
    OnlyEqualFeesAreSplit(s, batch, m, x.sender, x.nonce, y.nonce);
  }
}
