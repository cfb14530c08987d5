/** The aggregation mode's resumable scan of batch logs (aggregation_mode/src/backend/fetcher.rs) and the block mark
that `start` persists (aggregation_mode/src/backend/mod.rs). */
module ProofsFetcher {
  import opened Basics

  /** A proof is named by the log that announced its batch and its place among the batch's compatible proofs. */
  datatype Proof = Proof(log: nat, index: nat)

  /** What one download of a batch gives: nothing when it fails, else how many compatible proofs it holds. */
  type Download = Option<nat>

  function Load(d: Download): nat {
    match d case None => 0 case Some(n) => n
  }

  /** The number of proofs in the first `n` downloads. */
  function Total(ds: seq<Download>, n: nat): nat
    requires n <= |ds|
  {
    if n == 0 then 0 else Total(ds, n - 1) + Load(ds[n - 1])
  }

  function ProofsOf(log: nat, d: Download): (r: seq<Proof>)
    ensures |r| == if d.Some? then d.value else 0
    ensures forall p :: p in r <==> p.log == log && d.Some? && p.index < d.value
  {
    var r := seq(Load(d), i requires 0 <= i < Load(d) => Proof(log, i));
    assert forall i: nat :: i < Load(d) ==> r[i] == Proof(log, i);
    assert forall p: Proof :: p.log == log && p.index < Load(d) ==> p == r[p.index];
    r
  }

  /** The proofs of the first `n` logs, the first of which is log number `first`. */
  function Collected(first: nat, ds: seq<Download>, n: nat): (r: seq<Proof>)
    requires n <= |ds|
    ensures |r| == Total(ds, n)
  {
    if n == 0 then [] else Collected(first, ds, n - 1) + ProofsOf(first + n - 1, ds[n - 1])
  }

  lemma {:induction false} CollectedExactly(first: nat, ds: seq<Download>, n: nat, p: Proof)
    requires n <= |ds|
    ensures p in Collected(first, ds, n) <==>
              first <= p.log < first + n && ds[p.log - first].Some? && p.index < ds[p.log - first].value
  {
    if n > 0 {
      CollectedExactly(first, ds, n - 1, p);
    }
  }

  lemma {:induction false} TotalGrows(ds: seq<Download>, n: nat, m: nat)
    requires n <= m <= |ds|
    ensures Total(ds, n) <= Total(ds, m)
    decreases m - n
  {
    if n < m { TotalGrows(ds, n, m - 1); }
  }

  /** Where the scan stops: before the first log whose proofs would exceed the limit, or at the end. */
  ghost predicate StopsAt(ds: seq<Download>, limit: nat, n: nat) {
    && n <= |ds|
    && Total(ds, n) <= limit
    && (n < |ds| ==> Total(ds, n + 1) > limit)
  }

  lemma StopIsUnique(ds: seq<Download>, limit: nat, n: nat, m: nat)
    requires StopsAt(ds, limit, n) && StopsAt(ds, limit, m)
    ensures n == m
  {
    if n < m { TotalGrows(ds, n + 1, m); }
    if m < n { TotalGrows(ds, m + 1, n); }
  }

  // --- The chain ---

  /** The blocks of all batch logs, in order. */
  type Chain = seq<nat>

  ghost predicate Ordered(chain: Chain) {
    forall i, j :: 0 <= i <= j < |chain| ==> chain[i] <= chain[j]
  }

  /** The query from block `from` to block `to` returns logs lo to hi. */
  ghost predicate IsQuery(chain: Chain, from: nat, to: nat, lo: nat, hi: nat) {
    && lo <= hi <= |chain|
    && (forall k :: 0 <= k < lo ==> chain[k] < from)
    && (forall k :: lo <= k < hi ==> from <= chain[k] <= to)
    && (forall k :: hi <= k < |chain| ==> to < chain[k])
  }

  /** The new mark: the head, or the block of the log where the scan stopped. */
  function NewMark(chain: Chain, head: nat, lo: nat, hi: nat, stop: nat): nat
    requires lo <= hi <= |chain|
  {
    if stop < hi - lo then chain[lo + stop] else head
  }

  class Fetcher {
    var lastAggregatedBlock: nat

    constructor (mark: nat)
      ensures lastAggregatedBlock == mark
    {
      lastAggregatedBlock := mark;
    }

    /** `fetch`. A head below the mark is an error; otherwise the proofs of a prefix of the logs are returned, as
    many whole batches as fit the limit in order, and the mark moves to where the scan stopped. */
    method Fetch(chain: Chain, head: nat, lo: nat, hi: nat, ds: seq<Download>, limit: nat)
      returns (r: Option<seq<Proof>>, ghost stop: nat)
      requires Ordered(chain) && IsQuery(chain, lastAggregatedBlock, head, lo, hi) && |ds| == hi - lo
      modifies this
      ensures r.None? <==> head < old(lastAggregatedBlock)
      ensures r.None? ==> lastAggregatedBlock == old(lastAggregatedBlock)
      ensures r.Some? ==>
                && StopsAt(ds, limit, stop)
                && r.value == Collected(lo, ds, stop) && |r.value| <= limit
                && lastAggregatedBlock == NewMark(chain, head, lo, hi, stop)
      ensures r.Some? && stop < hi - lo ==> lastAggregatedBlock == chain[lo + stop]
      ensures r.Some? && stop == hi - lo ==> lastAggregatedBlock == head
    {
      stop := 0;
      if head < lastAggregatedBlock { return None, 0; }
      var proofs: seq<Proof> := [];
      for i := 0 to hi - lo
        invariant proofs == Collected(lo, ds, i) && |proofs| <= limit
        invariant lastAggregatedBlock == old(lastAggregatedBlock)
      {
        if ds[i].None? { continue; }
        var toAdd := ProofsOf(lo + i, ds[i]);
        if |proofs| + |toAdd| > limit {
          lastAggregatedBlock := chain[lo + i];
          return Some(proofs), i;
        }
        proofs := proofs + toAdd;
      }
      lastAggregatedBlock := head;
      return Some(proofs), hi - lo;
    }
  }

  // --- One scan ---

  /** The mark never moves back, and everything below the new mark has been scanned. */
  lemma ScanCovers(chain: Chain, mark: nat, head: nat, lo: nat, hi: nat, ds: seq<Download>, limit: nat, stop: nat)
    requires Ordered(chain) && IsQuery(chain, mark, head, lo, hi) && |ds| == hi - lo && StopsAt(ds, limit, stop)
    requires mark <= head
    ensures mark <= NewMark(chain, head, lo, hi, stop) <= head
    ensures forall k :: 0 <= k < |chain| && mark <= chain[k] < NewMark(chain, head, lo, hi, stop) ==>
              lo <= k < lo + stop
  {
  }

  /** How many of the scanned logs lie in block `b`, when they start there. */
  ghost predicate BlockPrefix(chain: Chain, lo: nat, hi: nat, b: nat, n: nat) {
    && lo + n <= hi <= |chain|
    && (forall k :: lo <= k < lo + n ==> chain[k] == b)
    && (forall k :: lo + n <= k < hi ==> chain[k] != b)
  }

  /** A scan leaves the mark where it was, short of the head, exactly when the proofs of the mark's own block
  exceed the limit. */
  lemma StuckExactly(chain: Chain, mark: nat, head: nat, lo: nat, hi: nat, ds: seq<Download>, limit: nat, stop: nat,
      n: nat)
    requires Ordered(chain) && IsQuery(chain, mark, head, lo, hi) && |ds| == hi - lo && StopsAt(ds, limit, stop)
    requires mark < head && BlockPrefix(chain, lo, hi, mark, n)
    ensures NewMark(chain, head, lo, hi, stop) == mark <==> Total(ds, n) > limit
  {
    if stop < n {
      TotalGrows(ds, stop + 1, n);
    } else {
      TotalGrows(ds, n, stop);
      assert stop < hi - lo ==> chain[lo + stop] != mark;
    }
  }

  // --- Runs of the aggregator ---

  /** One run of the process: what it read, and whether aggregation and submission succeeded. */
  datatype Round = Round(head: nat, lo: nat, hi: nat, ds: seq<Download>, stop: nat, succeeded: bool)

  ghost predicate ValidRound(chain: Chain, mark: nat, limit: nat, r: Round) {
    mark <= r.head ==> IsQuery(chain, mark, r.head, r.lo, r.hi) && |r.ds| == r.hi - r.lo && StopsAt(r.ds, limit, r.stop)
  }

  /** A round counts when the fetch did not fail and the rest of the run succeeded. */
  predicate Counts(mark: nat, r: Round) {
    mark <= r.head && r.succeeded
  }

  /** `start`: the fetcher is created from the persisted mark; the new mark is persisted on success only. */
  ghost function MarkAfter(chain: Chain, mark: nat, limit: nat, r: Round): nat
    requires ValidRound(chain, mark, limit, r)
  {
    if Counts(mark, r) then NewMark(chain, r.head, r.lo, r.hi, r.stop) else mark
  }

  ghost predicate Runs(chain: Chain, limit: nat, marks: seq<nat>, rounds: seq<Round>) {
    && |marks| == |rounds| + 1
    && forall i :: 0 <= i < |rounds| ==>
         ValidRound(chain, marks[i], limit, rounds[i]) && marks[i + 1] == MarkAfter(chain, marks[i], limit, rounds[i])
  }

  /** The round leaves this mark behind, having collected these proofs. */
  ghost predicate IsRound(chain: Chain, mark: nat, limit: nat, r: Round, newMark: nat, collected: seq<Proof>) {
    && ValidRound(chain, mark, limit, r)
    && newMark == MarkAfter(chain, mark, limit, r)
    && (if mark <= r.head then collected == Collected(r.lo, r.ds, r.stop) else collected == [])
  }

  /** `submitted` says whether aggregation and submission go through. A run without proofs skips them and succeeds,
  so that its mark is persisted too. */
  method Start(mark: nat, chain: Chain, head: nat, lo: nat, hi: nat, ds: seq<Download>, limit: nat, submitted: bool)
    returns (succeeded: bool, newMark: nat, aggregated: seq<Proof>)
    requires Ordered(chain) && IsQuery(chain, mark, head, lo, hi) && |ds| == hi - lo
    ensures succeeded <==> mark <= head && (aggregated == [] || submitted)
    ensures exists stop: nat :: IsRound(chain, mark, limit, Round(head, lo, hi, ds, stop, succeeded), newMark,
              aggregated)
    ensures |aggregated| <= limit
    ensures !succeeded ==> newMark == mark
    ensures succeeded ==> mark <= newMark <= head && (newMark == head || newMark in chain[lo..hi])
  {
    var fetcher := new Fetcher(mark);
    var r, stop := fetcher.Fetch(chain, head, lo, hi, ds, limit);
    succeeded, newMark, aggregated := false, mark, [];
    if r.Some? {
      aggregated := r.value;
      succeeded := aggregated == [] || submitted;
      if succeeded { newMark := fetcher.lastAggregatedBlock; }
      ScanCovers(chain, mark, head, lo, hi, ds, limit, stop);
      assert stop < hi - lo ==> chain[lo + stop] == chain[lo..hi][stop];
    }
    assert IsRound(chain, mark, limit, Round(head, lo, hi, ds, stop, succeeded), newMark, aggregated);
  }

  /** Log `k` was scanned by round `i`, which succeeded. */
  ghost predicate ScannedBy(marks: seq<nat>, rounds: seq<Round>, i: nat, k: nat)
    requires |marks| == |rounds| + 1
  {
    i < |rounds| && Counts(marks[i], rounds[i]) && rounds[i].lo <= k < rounds[i].lo + rounds[i].stop
  }

  /** Over every run, across failures, the mark never moves back, and every log between the first and the last
  mark has been scanned by a successful round. */
  lemma {:induction false} EveryLogIsScanned(chain: Chain, limit: nat, marks: seq<nat>, rounds: seq<Round>, k: nat)
    requires Ordered(chain) && Runs(chain, limit, marks, rounds)
    ensures marks[0] <= marks[|rounds|]
    ensures k < |chain| && marks[0] <= chain[k] < marks[|rounds|] ==> exists i: nat ::
              ScannedBy(marks, rounds, i, k) && rounds[i].succeeded && marks[i] <= chain[k] <= rounds[i].head
    decreases |rounds|
  {
    if rounds != [] {
      var n := |rounds| - 1;
      var marks', rounds' := marks[..n + 1], rounds[..n];
      EveryLogIsScanned(chain, limit, marks', rounds', k);
      var r := rounds[n];
      if Counts(marks[n], r) {
        ScanCovers(chain, marks[n], r.head, r.lo, r.hi, r.ds, limit, r.stop);
      }
      if k < |chain| && marks[0] <= chain[k] < marks[n + 1] {
        if chain[k] < marks[n] {
          var i: nat :| ScannedBy(marks', rounds', i, k) && rounds'[i].succeeded &&
            marks'[i] <= chain[k] <= rounds'[i].head;
          assert ScannedBy(marks, rounds, i, k);
        } else {
          assert ScannedBy(marks, rounds, n, k);
        }
      }
    }
  }

  /** So every compatible proof whose batch could be downloaded by the round that scanned it was in that round's
  list; nothing between the marks is lost. */
  lemma EveryProofIsAggregated(chain: Chain, limit: nat, marks: seq<nat>, rounds: seq<Round>, p: Proof)
    requires Ordered(chain) && Runs(chain, limit, marks, rounds)
    requires p.log < |chain| && marks[0] <= chain[p.log] < marks[|rounds|]
    ensures exists i: nat :: ScannedBy(marks, rounds, i, p.log) && rounds[i].succeeded &&
              var d := rounds[i].ds[p.log - rounds[i].lo];
              p in Collected(rounds[i].lo, rounds[i].ds, rounds[i].stop) <==> d.Some? && p.index < d.value
  {
    EveryLogIsScanned(chain, limit, marks, rounds, p.log);
    var i: nat :| ScannedBy(marks, rounds, i, p.log) && rounds[i].succeeded;
    CollectedExactly(rounds[i].lo, rounds[i].ds, rounds[i].stop, p);
  }

  // --- Runs that do not advance ---

  lemma {:induction false} MarksRise(chain: Chain, limit: nat, marks: seq<nat>, rounds: seq<Round>, i: nat, j: nat)
    requires Ordered(chain) && Runs(chain, limit, marks, rounds) && i <= j <= |rounds|
    ensures marks[i] <= marks[j]
    decreases j - i
  {
    if i < j {
      MarksRise(chain, limit, marks, rounds, i, j - 1);
      var r := rounds[j - 1];
      if Counts(marks[j - 1], r) {
        ScanCovers(chain, marks[j - 1], r.head, r.lo, r.hi, r.ds, limit, r.stop);
      }
    }
  }

  lemma {:induction false} BlockPrefixExists(chain: Chain, lo: nat, hi: nat, b: nat, at: nat) returns (n: nat)
    requires Ordered(chain) && lo <= at <= hi <= |chain| && (forall k :: lo <= k < hi ==> b <= chain[k])
    requires forall k :: lo <= k < at ==> chain[k] == b
    ensures BlockPrefix(chain, lo, hi, b, n)
    decreases hi - at
  {
    if at < hi && chain[at] == b {
      n := BlockPrefixExists(chain, lo, hi, b, at + 1);
    } else {
      n := at - lo;
      assert forall k :: at <= k < hi ==> chain[at] <= chain[k];
    }
  }

  /** What the round downloaded from the mark's own block exceeds the limit. */
  ghost predicate Overfull(chain: Chain, mark: nat, limit: nat, r: Round) {
    exists n: nat :: n <= |r.ds| && BlockPrefix(chain, r.lo, r.hi, mark, n) && Total(r.ds, n) > limit
  }

  lemma RoundStaysExactly(chain: Chain, mark: nat, limit: nat, r: Round)
    requires Ordered(chain) && ValidRound(chain, mark, limit, r) && Counts(mark, r)
    ensures MarkAfter(chain, mark, limit, r) == mark <==> r.head == mark || Overfull(chain, mark, limit, r)
  {
    ScanCovers(chain, mark, r.head, r.lo, r.hi, r.ds, limit, r.stop);
    if mark < r.head {
      var n := BlockPrefixExists(chain, r.lo, r.hi, mark, r.lo);
      StuckExactly(chain, mark, r.head, r.lo, r.hi, r.ds, limit, r.stop, n);
      if k: nat :| k <= |r.ds| && BlockPrefix(chain, r.lo, r.hi, mark, k) && Total(r.ds, k) > limit {
        StuckExactly(chain, mark, r.head, r.lo, r.hi, r.ds, limit, r.stop, k);
      }
    }
  }

  /** The process stays at a mark for good exactly when every later round that succeeds, and has a newer head, gets
  more proofs from the mark's block than the limit allows. */
  lemma MarksStayExactly(chain: Chain, limit: nat, marks: seq<nat>, rounds: seq<Round>)
    requires Ordered(chain) && Runs(chain, limit, marks, rounds)
    ensures (forall i :: 0 <= i <= |rounds| ==> marks[i] == marks[0]) <==>
              forall i :: 0 <= i < |rounds| && Counts(marks[0], rounds[i]) && rounds[i].head > marks[0] ==>
                Overfull(chain, marks[0], limit, rounds[i])
  {
    if forall i :: 0 <= i <= |rounds| ==> marks[i] == marks[0] {
      forall i | 0 <= i < |rounds| && Counts(marks[0], rounds[i]) && rounds[i].head > marks[0]
        ensures Overfull(chain, marks[0], limit, rounds[i])
      {
        assert marks[i] == marks[0] && marks[i + 1] == marks[0];
        RoundStaysExactly(chain, marks[i], limit, rounds[i]);
      }
    }
    if forall i :: 0 <= i < |rounds| && Counts(marks[0], rounds[i]) && rounds[i].head > marks[0] ==>
         Overfull(chain, marks[0], limit, rounds[i]) {
      forall i | 0 <= i <= |rounds| ensures marks[i] == marks[0] {
        MarksStay(chain, limit, marks, rounds, i);
      }
    }
  }

  lemma {:induction false} MarksStay(chain: Chain, limit: nat, marks: seq<nat>, rounds: seq<Round>, i: nat)
    requires Ordered(chain) && Runs(chain, limit, marks, rounds) && i <= |rounds|
    requires forall i :: 0 <= i < |rounds| && Counts(marks[0], rounds[i]) && rounds[i].head > marks[0] ==>
               Overfull(chain, marks[0], limit, rounds[i])
    ensures marks[i] == marks[0]
  {
    if i > 0 {
      MarksStay(chain, limit, marks, rounds, i - 1);
      if Counts(marks[i - 1], rounds[i - 1]) {
        RoundStaysExactly(chain, marks[i - 1], limit, rounds[i - 1]);
      }
    }
  }

  /** A failed download can get the process past such a block: two proofs of block 5 exceed a limit of one, and when
  the next round cannot download them the mark moves on without them. */
  lemma FailedDownloadPasses()
    ensures var first, second := Round(6, 0, 2, [Some(2), Some(0)], 0, true), Round(6, 0, 2, [None, Some(0)], 2, true);
            Runs([5, 6], 1, [5, 5, 6], [first, second]) && Overfull([5, 6], 5, 1, first)
  {
    var ds := [Some(2), Some(0)];
    var ds' := [None, Some(0)];
    assert Total(ds, 0) == 0 && Total(ds, 1) == 2;
    assert Total(ds', 1) == 0 && Total(ds', 2) == 0;
    assert StopsAt(ds, 1, 0) && StopsAt(ds', 1, 2);
    assert BlockPrefix([5, 6], 0, 2, 5, 1);
  }

  // --- Logs collected twice ---

  /** A log collected by one successful round is collected again by a later one exactly when it lies in the block of
  that round's mark, where scanning starts, and the scan gets to it before it stops. */
  lemma CollectedTwiceExactly(chain: Chain, limit: nat, marks: seq<nat>, rounds: seq<Round>, i: nat, j: nat, k: nat)
    requires Ordered(chain) && Runs(chain, limit, marks, rounds) && i < j < |rounds|
    requires ScannedBy(marks, rounds, i, k) && Counts(marks[j], rounds[j])
    ensures k < |chain|
    ensures ScannedBy(marks, rounds, j, k) <==> chain[k] == marks[j] && k < rounds[j].lo + rounds[j].stop
  {
    var r := rounds[i];
    assert ValidRound(chain, marks[i], limit, r) && ValidRound(chain, marks[j], limit, rounds[j]);
    assert chain[k] <= marks[i + 1] by {
      assert r.stop < r.hi - r.lo ==> chain[k] <= chain[r.lo + r.stop];
    }
    MarksRise(chain, limit, marks, rounds, i + 1, j);
  }
}
