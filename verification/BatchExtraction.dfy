/** `extract_batch_directly` (crates/batcher/src/types/batch_queue.rs): choosing the next batch. */
module BatchExtraction {
  import opened Basics
  import opened BatchQueue
  import opened FeeModel

  const CBOR_ARRAY_MAX_OVERHEAD: nat := 9

  datatype Limits = Limits(gasPrice: nat, maxBytes: nat, maxProofs: nat, constantGas: nat)

  // --- Serialized size of a queue ---

  ghost function Bytes(q: Queue): nat
    decreases |q|
  {
    if q == map[] then 0 else
      var k := Pick(q);
      q[k].bytes + Bytes(q - {k})
  }

  lemma {:induction false} BytesRemove(q: Queue, k: Key)
    requires k in q
    ensures Bytes(q) == q[k].bytes + Bytes(q - {k})
    decreases |q|
  {
    var x := Pick(q);
    if x != k {
      BytesRemove(q - {x}, k);
      BytesRemove(q - {k}, x);
      assert q - {x} - {k} == q - {k} - {x};
    }
  }

  /** `calculate_batch_size`: the sum does not depend on the order in which the queue is walked. */
  method BatchSize(q: Queue) returns (size: nat)
    ensures size == 9 + Bytes(q)
  {
    size := CBOR_ARRAY_MAX_OVERHEAD;
    var todo := q;
    while todo != map[]
      invariant size + Bytes(todo) == CBOR_ARRAY_MAX_OVERHEAD + Bytes(q)
      decreases |todo|
    {
      var k :| k in todo;
      BytesRemove(todo, k);
      size := size + todo[k].bytes;
      todo := todo - {k};
    }
  }

  // --- What a batch is ---

  ghost function KeySet(batch: seq<Key>): set<Key> {
    set k | k in batch
  }

  ghost predicate NoDuplicates(batch: seq<Key>) {
    forall i, j :: 0 <= i < j < |batch| ==> batch[i] != batch[j]
  }

  ghost function Part(q: Queue, s: set<Key>): Queue
    requires s <= q.Keys
  {
    map k | k in s :: q[k]
  }

  ghost predicate InPopOrder(q: Queue, batch: seq<Key>) {
    && (forall i :: 0 <= i < |batch| ==> batch[i] in q)
    && forall i, j :: 0 <= i < j < |batch| ==> !PopsBefore(q, batch[j], batch[i])
  }

  /** Every entry left behind is popped no later than every entry taken. */
  ghost predicate IsCut(q: Queue, taken: set<Key>)
    requires taken <= q.Keys
  {
    forall r, k :: r in q && r !in taken && k in taken ==> !PopsBefore(q, k, r)
  }

  /** Every member's max fee covers what a batch of this size costs each proof. */
  ghost predicate Affordable(q: Queue, s: set<Key>, l: Limits) {
    s <= q.Keys && s != {} && forall k :: k in s ==> FeePerProof(|s|, l.gasPrice, l.constantGas) <= q[k].maxFee
  }

  ghost predicate BytesFit(q: Queue, l: Limits) {
    9 + Bytes(q) <= l.maxBytes
  }

  /** A batch that could be posted. */
  ghost predicate Acceptable(q: Queue, s: set<Key>, l: Limits) {
    Affordable(q, s, l) && |s| <= l.maxProofs && BytesFit(Part(q, s), l)
  }

  /** `order` pops the whole queue, and nothing is acceptable before the first `n` are popped. */
  ghost predicate NothingBefore(q: Queue, order: seq<Key>, n: nat, l: Limits) {
    && NoDuplicates(order) && KeySet(order) == q.Keys && InPopOrder(q, order) && n <= |order|
    && forall i :: 0 <= i < n ==> !Acceptable(q, q.Keys - KeySet(order[..i]), l)
  }

  /** The taken entries, in pop order, and what stays queued. */
  ghost predicate IsExtraction(q: Queue, batch: seq<Key>, rest: Queue, l: Limits) {
    var taken := KeySet(batch);
    && batch != []
    && NoDuplicates(batch)
    && taken <= q.Keys
    && rest == q - taken
    && IsCut(q, taken)
    && InPopOrder(q, batch)
    && |batch| <= l.maxProofs
    && Affordable(q, taken, l)
    && BytesFit(Part(q, taken), l)
  }

  /** No affordable set of queued proofs within the count limit, however chosen, is larger than `n`. */
  ghost predicate NoLargerBatch(q: Queue, n: nat, l: Limits) {
    forall s: set<Key> :: Affordable(q, s, l) && |s| <= l.maxProofs ==> |s| <= n
  }

  lemma {:induction false} KeySetSize(batch: seq<Key>)
    requires NoDuplicates(batch)
    ensures |KeySet(batch)| == |batch|
  {
    if batch == [] {
    } else {
      var last := |batch| - 1;
      KeySetSize(batch[..last]);
      assert KeySet(batch) == KeySet(batch[..last]) + {batch[last]};
    }
  }

  lemma SubsetSize(s: set<Key>, t: set<Key>)
    requires s <= t
    ensures |s| <= |t|
  {
    var rest := t - s;
    assert t == s + rest;
  }

  // --- Dropping entries from the low end ---

  ghost predicate SubQueue(cur: Queue, q: Queue) {
    cur.Keys <= q.Keys && forall x :: x in cur ==> cur[x] == q[x]
  }

  ghost predicate AllBelow(q: Queue, fee: nat) {
    forall x :: x in q ==> q[x].maxFee < fee
  }

  ghost predicate AllCover(q: Queue, fee: nat) {
    forall x :: x in q ==> fee <= q[x].maxFee
  }

  /** What holds of the current queue `cur` while entries of `q` are being dropped. */
  ghost predicate Dropping(q: Queue, cur: Queue, l: Limits) {
    && SubQueue(cur, q)
    && IsCut(q, cur.Keys)
    && (BytesFit(q, l) ==> BytesFit(cur, l) && NoLargerBatch(q, |cur|, l))
    && (BytesFit(q, l) && |q| <= l.maxProofs && cur != map[] ==>
          |cur| <= |q| && AllBelow(q - cur.Keys, FeePerProof(|cur|, l.gasPrice, l.constantGas)))
  }

  /** Dropping the lowest entry of an unacceptable queue loses no affordable set of the current size. */
  lemma DropKeepsMaximality(q: Queue, cur: Queue, k: Key, l: Limits)
    requires SubQueue(cur, q) && IsCut(q, cur.Keys) && Lowest(cur, k)
    requires NoLargerBatch(q, |cur|, l)
    requires |cur| > l.maxProofs || FeePerProof(|cur|, l.gasPrice, l.constantGas) > cur[k].maxFee
    ensures NoLargerBatch(q, |cur| - 1, l)
  {
    forall s: set<Key> | Affordable(q, s, l) && |s| <= l.maxProofs
      ensures |s| <= |cur| - 1
    {
      if |s| == |cur| {
        forall x | x in s ensures x in cur.Keys - {k} {
          assert x !in cur ==> !PopsBefore(q, k, x);
          assert x in cur ==> !PopsBefore(cur, x, k);
        }
        SubsetSize(s, cur.Keys - {k});
      }
    }
  }

  lemma DropKeepsCut(q: Queue, cur: Queue, k: Key)
    requires SubQueue(cur, q) && IsCut(q, cur.Keys) && Lowest(cur, k)
    ensures SubQueue(cur - {k}, q) && IsCut(q, (cur - {k}).Keys)
    ensures (cur - {k}).Keys == cur.Keys - {k}
    ensures |cur - {k}| == |cur| - 1
    ensures q - (cur - {k}).Keys == (q - cur.Keys)[k := cur[k]]
  {
    var next := cur - {k};
    assert next.Keys == cur.Keys - {k};
    forall r, x | r in q && r !in next.Keys && x in next.Keys ensures !PopsBefore(q, x, r) {
      if r == k { assert !PopsBefore(cur, x, k); }
    }
  }

  lemma DropStep(q: Queue, cur: Queue, k: Key, l: Limits)
    requires Dropping(q, cur, l) && Lowest(cur, k)
    requires !BytesFit(cur, l) || |cur| > l.maxProofs || FeePerProof(|cur|, l.gasPrice, l.constantGas) > cur[k].maxFee
    ensures Dropping(q, cur - {k}, l)
  {
    var next := cur - {k};
    DropKeepsCut(q, cur, k);
    BytesRemove(cur, k);
    if BytesFit(q, l) {
      DropKeepsMaximality(q, cur, k, l);
      if |q| <= l.maxProofs && next != map[] {
        FeePerProofFalls(|next|, |cur|, l.gasPrice, l.constantGas);
      }
    }
  }

  lemma LowestCovers(cur: Queue, k: Key, fee: nat)
    requires Lowest(cur, k) && fee <= cur[k].maxFee
    ensures AllCover(cur, fee)
  {
    forall x | x in cur ensures fee <= cur[x].maxFee {
      assert !PopsBefore(cur, x, k);
    }
  }

  lemma WholeQueueDropping(q: Queue, l: Limits)
    ensures Dropping(q, q, l)
  {
    forall s: set<Key> | Affordable(q, s, l) ensures |s| <= |q| { SubsetSize(s, q.Keys); }
  }

  // --- Popping in order ---

  /** `batch` lists, in pop order, what has been popped from `q` to leave `cur`. */
  ghost predicate Popped(q: Queue, batch: seq<Key>, cur: Queue) {
    && SubQueue(cur, q)
    && NoDuplicates(batch)
    && KeySet(batch) == q.Keys - cur.Keys
    && InPopOrder(q, batch)
    && forall i, x :: 0 <= i < |batch| && x in cur ==> !PopsBefore(q, x, batch[i])
  }

  lemma PopStep(q: Queue, batch: seq<Key>, cur: Queue, k: Key)
    requires Popped(q, batch, cur) && Lowest(cur, k)
    ensures Popped(q, batch + [k], cur - {k}) && |cur - {k}| < |cur|
  {
    var next, longer := cur - {k}, batch + [k];
    assert next.Keys == cur.Keys - {k};
    assert KeySet(longer) == KeySet(batch) + {k};
    forall i | 0 <= i < |batch| ensures batch[i] != k {
      assert batch[i] in KeySet(batch);
    }
    AppendOrdered(q, batch, k);
    forall i, x | 0 <= i < |longer| && x in next ensures !PopsBefore(q, x, longer[i]) {
      if i < |batch| {
        assert !PopsBefore(q, x, batch[i]);
      } else {
        assert !PopsBefore(cur, x, k);
      }
    }
  }

  lemma AppendOrdered(q: Queue, batch: seq<Key>, k: Key)
    requires NoDuplicates(batch) && k !in batch && InPopOrder(q, batch) && k in q
    requires forall i :: 0 <= i < |batch| ==> !PopsBefore(q, k, batch[i])
    ensures NoDuplicates(batch + [k]) && InPopOrder(q, batch + [k])
  {
  }

  /** Each of the source's three reasons to reject makes the current queue unacceptable. */
  lemma RejectedIsUnacceptable(q: Queue, cur: Queue, k: Key, l: Limits)
    requires SubQueue(cur, q) && k in cur
    requires !BytesFit(cur, l) || |cur| > l.maxProofs || FeePerProof(|cur|, l.gasPrice, l.constantGas) > cur[k].maxFee
    ensures !Acceptable(q, cur.Keys, l)
  {
    assert Part(q, cur.Keys) == cur;
  }

  ghost predicate NoneAcceptable(q: Queue, dropped: seq<Key>, l: Limits) {
    forall i :: 0 <= i < |dropped| ==> !Acceptable(q, q.Keys - KeySet(dropped[..i]), l)
  }

  lemma DropOneMore(q: Queue, dropped: seq<Key>, cur: Queue, k: Key, l: Limits)
    requires Popped(q, dropped, cur) && NoneAcceptable(q, dropped, l) && Lowest(cur, k) && !Acceptable(q, cur.Keys, l)
    ensures Popped(q, dropped + [k], cur - {k}) && NoneAcceptable(q, dropped + [k], l)
  {
    PopStep(q, dropped, cur, k);
    assert q.Keys - KeySet(dropped) == cur.Keys;
    forall i | 0 <= i < |dropped + [k]| ensures !Acceptable(q, q.Keys - KeySet((dropped + [k])[..i]), l) {
      assert (dropped + [k])[..i] == dropped[..i];
      assert i == |dropped| ==> dropped[..i] == dropped;
    }
  }

  method DropUnacceptable(q: Queue, l: Limits) returns (cur: Queue, rejected: Queue, dropped: seq<Key>)
    ensures Dropping(q, cur, l) && rejected == q - cur.Keys
    ensures cur != map[] ==>
              BytesFit(cur, l) && |cur| <= l.maxProofs && AllCover(cur, FeePerProof(|cur|, l.gasPrice, l.constantGas))
    ensures Popped(q, dropped, cur) && NoneAcceptable(q, dropped, l)
  {
    var size := BatchSize(q);
    cur, rejected, dropped := q, map[], [];
    WholeQueueDropping(q, l);
    while cur != map[]
      invariant Dropping(q, cur, l) && rejected == q - cur.Keys
      invariant size == CBOR_ARRAY_MAX_OVERHEAD + Bytes(cur)
      invariant Popped(q, dropped, cur) && NoneAcceptable(q, dropped, l)
      decreases |cur|
    {
      var k := Peek(cur);
      var fee := FeePerProof(|cur|, l.gasPrice, l.constantGas);
      if !(size > l.maxBytes || fee > cur[k].maxFee || |cur| > l.maxProofs) {
        LowestCovers(cur, k, fee);
        break;
      }
      RejectedIsUnacceptable(q, cur, k, l);
      DropOneMore(q, dropped, cur, k, l);
      DropStep(q, cur, k, l);
      DropKeepsCut(q, cur, k);
      BytesRemove(cur, k);
      size := size - cur[k].bytes;
      rejected := rejected[k := cur[k]];
      dropped := dropped + [k];
      cur := cur - {k};
    }
  }

  // --- Listing the accepted entries ---

  /** Emptying the accepted queue by `pop` lists it in priority order. */
  method Drain(q: Queue) returns (batch: seq<Key>)
    ensures NoDuplicates(batch) && KeySet(batch) == q.Keys && InPopOrder(q, batch)
  {
    batch := [];
    var cur := q;
    while cur != map[]
      invariant Popped(q, batch, cur)
      decreases |cur|
    {
      var k := Peek(cur);
      PopStep(q, batch, cur, k);
      batch := batch + [k];
      cur := cur - {k};
    }
  }

  method PushAll(q: Queue, entries: Queue) returns (all: Queue)
    ensures all == q + entries
  {
    all := q;
    var todo := entries;
    while todo != map[]
      invariant all + todo == q + entries
      decreases |todo|
    {
      var k :| k in todo;
      PushStep(all, todo, k);
      all := all[k := todo[k]];
      todo := todo - {k};
    }
  }

  lemma PushStep(all: Queue, todo: Queue, k: Key)
    requires k in todo
    ensures all[k := todo[k]] + (todo - {k}) == all + todo
    ensures |todo - {k}| < |todo|
  {
    assert (todo - {k}).Keys == todo.Keys - {k};
  }
}
