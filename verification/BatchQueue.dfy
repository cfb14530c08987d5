/** The batcher's priority queue of paid proofs (crates/batcher/src/types/batch_queue.rs).

Two entries with the same sender and nonce are equal for the queue, so the queue is a map
from (sender, nonce) to the rest of the entry.  `pop` takes the entry with the lowest max fee,
and among equal fees the one with the highest nonce; between different senders with equal fee
and equal nonce the order is up to the heap, so every such choice is allowed here. */
module BatchQueue {

  type Address = nat

  datatype Key = Key(sender: Address, nonce: nat)

  /** What the batcher reads from a queued proof: its max fee and its serialized size bound. */
  datatype Proof = Proof(maxFee: nat, bytes: nat)

  type Queue = map<Key, Proof>

  /** The proofs of one sender, by nonce. */
  type Lane = map<nat, Proof>

  // --- Priority order ---

  predicate PopsBefore(q: Queue, x: Key, y: Key)
    requires x in q && y in q
  {
    q[x].maxFee < q[y].maxFee || (q[x].maxFee == q[y].maxFee && x.nonce > y.nonce)
  }

  predicate Lowest(q: Queue, k: Key) {
    k in q && forall x :: x in q ==> !PopsBefore(q, x, k)
  }

  lemma LowestExists(q: Queue)
    requires q != map[]
    ensures exists k :: Lowest(q, k)
    decreases |q|
  {
    var k :| k in q;
    var rest := q - {k};
    if rest == map[] {
      assert forall x :: x in q ==> x == k by {
        forall x | x in q ensures x == k {
          assert x != k ==> x in rest;
        }
      }
      assert Lowest(q, k);
    } else {
      LowestExists(rest);
      var l :| Lowest(rest, l);
      var w := if PopsBefore(q, k, l) then k else l;
      assert forall x :: x in q ==> x == k || x in rest;
      assert Lowest(q, w);
    }
  }

  /** `peek`: some entry that no other entry precedes. */
  method Peek(q: Queue) returns (k: Key)
    requires q != map[]
    ensures Lowest(q, k)
  {
    LowestExists(q);
    k :| k in q && Lowest(q, k);
  }

  // --- One sender's part of a queue ---

  ghost predicate IsLane(q: Queue, a: Address, m: Lane) {
    && (forall n :: n in m <==> Key(a, n) in q)
    && (forall n :: n in m ==> m[n] == q[Key(a, n)])
  }

  lemma LaneExists(q: Queue, a: Address)
    ensures exists m :: IsLane(q, a, m)
  {
    var nonces := set k | k in q.Keys && k.sender == a :: k.nonce;
    forall n ensures n in nonces <==> Key(a, n) in q {
      if Key(a, n) in q { assert Key(a, n) in q.Keys && Key(a, n).nonce == n; }
    }
    var m := map n | n in nonces :: q[Key(a, n)];
    assert IsLane(q, a, m);
  }

  ghost function LaneOf(q: Queue, a: Address): (m: Lane)
    ensures IsLane(q, a, m)
  {
    LaneExists(q, a);
    var m :| IsLane(q, a, m); m
  }

  lemma LaneOfPut(q: Queue, k: Key, p: Proof)
    ensures LaneOf(q[k := p], k.sender) == LaneOf(q, k.sender)[k.nonce := p]
    ensures forall b :: b != k.sender ==> LaneOf(q[k := p], b) == LaneOf(q, b)
  {
  }

  lemma LaneOfRemove(q: Queue, k: Key)
    ensures LaneOf(q - {k}, k.sender) == LaneOf(q, k.sender) - {k.nonce}
    ensures forall b :: b != k.sender ==> LaneOf(q - {k}, b) == LaneOf(q, b)
  {
  }

  lemma LaneOfMerge(q: Queue, f: Queue, a: Address)
    ensures LaneOf(q + f, a) == LaneOf(q, a) + LaneOf(f, a)
  {
  }

  // --- Totals over a lane ---

  ghost function Pick<K(!new), V(!new)>(m: map<K, V>): (k: K)
    requires m != map[]
    ensures k in m
  {
    var k :| k in m; k
  }

  ghost function Fees(m: Lane): nat
    decreases |m|
  {
    if m == map[] then 0 else
      var n := Pick(m);
      m[n].maxFee + Fees(m - {n})
  }

  lemma SizeRemove(m: Lane, n: nat)
    requires n in m
    ensures |m - {n}| == |m| - 1
  {
    assert (m - {n}).Keys == m.Keys - {n};
  }

  lemma {:induction false} FeesRemove(m: Lane, n: nat)
    requires n in m
    ensures Fees(m) == m[n].maxFee + Fees(m - {n})
    decreases |m|
  {
    var x := Pick(m);
    if x != n {
      FeesRemove(m - {x}, n);
      FeesRemove(m - {n}, x);
      assert m - {x} - {n} == m - {n} - {x};
    }
  }

  lemma FeesPut(m: Lane, n: nat, p: Proof)
    ensures n !in m ==> Fees(m[n := p]) == Fees(m) + p.maxFee
    ensures n in m ==> Fees(m[n := p]) + m[n].maxFee == Fees(m) + p.maxFee
  {
    FeesRemove(m[n := p], n);
    assert m[n := p] - {n} == m - {n};
    if n in m {
      FeesRemove(m, n);
    } else {
      assert m - {n} == m;
    }
  }

  lemma {:induction false} FeesMerge(m: Lane, f: Lane)
    requires m.Keys !! f.Keys
    ensures Fees(m + f) == Fees(m) + Fees(f)
    decreases |f|
  {
    if f == map[] {
      assert m + f == m;
    } else {
      var n :| n in f;
      FeesMergeOne(m, f, n);
      FeesMerge(m, f - {n});
    }
  }

  lemma FeesMergeOne(m: Lane, f: Lane, n: nat)
    requires m.Keys !! f.Keys && n in f
    ensures Fees(m + f) == Fees(m + (f - {n})) + f[n].maxFee
    ensures Fees(f) == Fees(f - {n}) + f[n].maxFee
    ensures |f - {n}| < |f|
  {
    MergeRemove(m, f, n);
    FeesRemove(f, n);
    FeesRemove(m + f, n);
    SizeRemove(f, n);
  }

  lemma MergeRemove(m: Lane, f: Lane, n: nat)
    requires m.Keys !! f.Keys && n in f
    ensures (m + f) - {n} == m + (f - {n})
  {
  }

  lemma SizeMerge(m: Lane, f: Lane)
    requires m.Keys !! f.Keys
    ensures |m + f| == |m| + |f|
  {
    assert (m + f).Keys == m.Keys + f.Keys;
  }

  lemma {:induction false} FeesAtLeast(m: Lane, fee: nat)
    requires forall n :: n in m ==> fee <= m[n].maxFee
    ensures fee * |m| <= Fees(m)
    decreases |m|
  {
    if m != map[] {
      var n := Pick(m);
      FeesAtLeast(m - {n}, fee);
      SizeRemove(m, n);
      assert fee * |m| == fee * |m - {n}| + fee;
    }
  }

  // --- Gap-free lanes ---

  ghost predicate Interval(m: Lane, lo: nat, hi: nat) {
    lo <= hi && forall n :: n in m <==> lo <= n < hi
  }

  lemma {:induction false} IntervalSize(m: Lane, lo: nat, hi: nat)
    requires Interval(m, lo, hi)
    ensures |m| == hi - lo
    decreases hi - lo
  {
    if lo == hi {
      assert m == map[];
    } else {
      IntervalSize(m - {hi - 1}, lo, hi - 1);
      assert m.Keys == (m - {hi - 1}).Keys + {hi - 1};
    }
  }

  /** Fees never rise as the nonce rises. */
  ghost predicate FeesFall(m: Lane) {
    forall i, j :: i in m && j in m && i < j ==> m[j].maxFee <= m[i].maxFee
  }

  /** `v` is the least max fee in `m`, or the given default when `m` is empty. */
  ghost predicate IsMinFee(m: Lane, v: nat, default: nat) {
    if m == map[] then v == default
    else (forall n :: n in m ==> v <= m[n].maxFee) && exists n :: n in m && m[n].maxFee == v
  }

  lemma MinFeeExists(m: Lane, default: nat)
    ensures exists v: nat :: IsMinFee(m, v, default)
    decreases |m|
  {
    if m == map[] {
      assert IsMinFee(m, default, default);
    } else {
      var n := Pick(m);
      var rest := m - {n};
      assert forall x :: x in m ==> x == n || x in rest;
      if rest == map[] {
        assert IsMinFee(m, m[n].maxFee, default);
      } else {
        MinFeeExists(rest, default);
        var v: nat :| IsMinFee(rest, v, default);
        var w := if v < m[n].maxFee then v else m[n].maxFee;
        assert IsMinFee(m, w, default);
      }
    }
  }

  ghost function MinFee(m: Lane, default: nat): (v: nat)
    ensures IsMinFee(m, v, default)
  {
    MinFeeExists(m, default);
    var v: nat :| IsMinFee(m, v, default); v
  }
}
