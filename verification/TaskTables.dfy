/** The aggregator's task tables (aggregator/pkg/aggregator.go): five maps and a 32-bit counter, filled by
`AddNewTask` and emptied by the garbage collector. They are proved to behave like one append-only ledger of the
accepted tasks with a floor, below which everything but task 0 is forgotten. */
module TaskTables {

  /** Batch identifier hashes, and the root and sender they identify. Zero is Go's value for a missing entry. */
  type Hash = nat
  type BatchData = nat

  datatype Task = Task(hash: Hash, data: BatchData, block: nat, time: nat)

  /** One past the largest `uint32`. */
  const WORD: nat := 0x1_0000_0000

  /** `last` is the garbage collector's `lastIdxDeleted`. */
  datatype Tables = Tables(
    idxByHash: map<Hash, nat>,
    hashByIdx: map<nat, Hash>,
    blockByIdx: map<nat, nat>,
    dataByHash: map<Hash, BatchData>,
    timeByIdx: map<nat, nat>,
    next: nat,
    last: nat)

  const EMPTY: Tables := Tables(map[], map[], map[], map[], map[], 0, 0)

  // --- Operations on the tables ---

  function Fill(s: Tables, task: Task): Tables {
    s.(idxByHash := s.idxByHash[task.hash := s.next],
      hashByIdx := s.hashByIdx[s.next := task.hash],
      blockByIdx := s.blockByIdx[s.next := task.block],
      dataByHash := s.dataByHash[task.hash := task.data],
      timeByIdx := s.timeByIdx[s.next := task.time],
      next := (s.next + 1) % WORD)
  }

  predicate Accepts(s: Tables, task: Task) {
    task.hash !in s.idxByHash && s.next !in s.hashByIdx
  }

  /** `AddNewTask`: refuses a known hash, and an index that is already in use. */
  function Add(s: Tables, task: Task): Tables {
    if Accepts(s, task) then Fill(s, task) else s
  }

  function Delete(s: Tables, i: nat): Tables {
    if i in s.hashByIdx then
      var hash := s.hashByIdx[i];
      s.(idxByHash := s.idxByHash - {hash},
        blockByIdx := s.blockByIdx - {i},
        hashByIdx := s.hashByIdx - {i},
        dataByHash := s.dataByHash - {hash},
        timeByIdx := s.timeByIdx - {i})
    else s
  }

  function DeleteUpTo(s: Tables, from: nat, end: nat): (r: Tables)
    ensures r.next == s.next && r.last == s.last
    decreases end
  {
    if from > end || end == 0 then s else Delete(DeleteUpTo(s, from, end - 1), end)
  }

  /** The index a pass collects up to: a hash that is not in the tables gives 0. */
  function Target(s: Tables, hash: Hash): nat {
    if hash in s.idxByHash then s.idxByHash[hash] else 0
  }

  function Collect(s: Tables, hash: Hash): Tables {
    DeleteUpTo(s, s.last + 1, Target(s, hash)).(last := Target(s, hash))
  }

  /** The pass's loop counts up in 32 bits while the index is at most the target. It ends if some number of turns takes
  the index past the target. */
  ghost predicate LoopEnds(start: nat, target: nat) {
    exists turns: nat :: IndexAfter(start, turns) > target
  }

  function IndexAfter(start: nat, turns: nat): nat {
    (start + turns) % WORD
  }

  /** It ends exactly when the target is not the largest index. */
  lemma LoopEndsExactly(start: nat, target: nat)
    requires start < WORD && target < WORD
    ensures LoopEnds(start, target) <==> target + 1 < WORD
  {
    if target + 1 < WORD {
      assert IndexAfter(start, WORD - 1 - start) > target;
    }
  }

  predicate PassEnds(s: Tables, hash: Hash) {
    Target(s, hash) + 1 < WORD
  }

  /** What the response handler reads for a task index. */
  function Lookup(s: Tables, i: nat): Task {
    var hash := if i in s.hashByIdx then s.hashByIdx[i] else 0;
    Task(hash,
         if hash in s.dataByHash then s.dataByHash[hash] else 0,
         if i in s.blockByIdx then s.blockByIdx[i] else 0,
         if i in s.timeByIdx then s.timeByIdx[i] else 0)
  }

  // --- The ledger ---

  /** Every task ever accepted, in order, and the highest index ever collected. */
  datatype Ledger = Ledger(log: seq<Task>, floor: nat)

  ghost predicate Live(l: Ledger, i: nat) {
    i < |l.log| && (i == 0 || i > l.floor)
  }

  ghost predicate LiveHash(l: Ledger, hash: Hash, i: nat) {
    Live(l, i) && l.log[i].hash == hash
  }

  ghost predicate Known(l: Ledger, hash: Hash) {
    exists i: nat :: LiveHash(l, hash, i)
  }

  /** A task is accepted unless its hash is live or the 32-bit indices are used up. */
  ghost function LedgerAdd(l: Ledger, task: Task): Ledger {
    if Known(l, task.hash) || |l.log| == 0x1_0000_0000 then l else l.(log := l.log + [task])
  }

  ghost function Raise(l: Ledger, i: nat): Ledger {
    l.(floor := if i > l.floor then i else l.floor)
  }

  /** Collecting an old task raises the floor to its index; collecting an unknown one does nothing. */
  ghost function LedgerCollect(l: Ledger, hash: Hash): Ledger {
    if Known(l, hash) then
      var i: nat :| LiveHash(l, hash, i);
      Raise(l, i)
    else l
  }

  // --- The tables represent a ledger ---

  ghost predicate ByIndex(s: Tables, l: Ledger) {
    && (forall i: nat :: i in s.hashByIdx <==> Live(l, i))
    && s.blockByIdx.Keys == s.hashByIdx.Keys
    && s.timeByIdx.Keys == s.hashByIdx.Keys
    && forall i: nat :: i in s.hashByIdx ==>
      s.hashByIdx[i] == l.log[i].hash && s.blockByIdx[i] == l.log[i].block && s.timeByIdx[i] == l.log[i].time
  }

  ghost predicate ByHash(s: Tables, l: Ledger) {
    && s.dataByHash.Keys == s.idxByHash.Keys
    && (forall h :: h in s.idxByHash ==>
        LiveHash(l, h, s.idxByHash[h]) && s.dataByHash[h] == l.log[s.idxByHash[h]].data)
    && (forall i: nat :: Live(l, i) ==> l.log[i].hash in s.idxByHash && s.idxByHash[l.log[i].hash] == i)
  }

  ghost predicate Represents(s: Tables, l: Ledger) {
    ByIndex(s, l) && ByHash(s, l) && Counters(s, l)
  }

  ghost predicate Counters(s: Tables, l: Ledger) {
    && |l.log| <= WORD
    && s.next == (if |l.log| == WORD then 0 else |l.log|)
    && s.last <= l.floor && s.last + 1 < WORD
    && (l.floor == 0 || l.floor < |l.log|)
  }

  /** Hash-to-index and index-to-hash are mutual inverses, with matching companion maps. */
  lemma MutualInverses(s: Tables, l: Ledger)
    requires Represents(s, l)
    ensures forall h :: h in s.idxByHash ==> s.idxByHash[h] in s.hashByIdx && s.hashByIdx[s.idxByHash[h]] == h
    ensures forall i :: i in s.hashByIdx ==> s.hashByIdx[i] in s.idxByHash && s.idxByHash[s.hashByIdx[i]] == i
    ensures forall i: nat :: 1 <= i <= s.last ==> i !in s.hashByIdx
  {
  }

  lemma EmptyRepresents()
    ensures Represents(EMPTY, Ledger([], 0))
  {
  }

  lemma KnownIsIndexed(s: Tables, l: Ledger, hash: Hash)
    requires Represents(s, l)
    ensures Known(l, hash) <==> hash in s.idxByHash
    ensures forall i: nat :: LiveHash(l, hash, i) ==> hash in s.idxByHash && s.idxByHash[hash] == i
  {
    if hash in s.idxByHash {
      assert LiveHash(l, hash, s.idxByHash[hash]);
    }
  }

  /** The branch the source says should not happen: a new hash finds its index in use exactly when 2^32 tasks have
  been accepted. Task 0 is never collected, so from then on every new task is refused. */
  lemma IndexInUseExactly(s: Tables, l: Ledger)
    requires Represents(s, l)
    ensures s.next in s.hashByIdx <==> |l.log| == 0x1_0000_0000
  {
    assert s.next in s.hashByIdx <==> Live(l, s.next);
  }

  lemma AddRefines(s: Tables, l: Ledger, task: Task)
    requires Represents(s, l)
    ensures Represents(Add(s, task), LedgerAdd(l, task))
    ensures Accepts(s, task) <==> !Known(l, task.hash) && |l.log| < WORD
  {
    KnownIsIndexed(s, l, task.hash);
    IndexInUseExactly(s, l);
    if task.hash !in s.idxByHash && |l.log| < WORD {
      FillRefines(s, l, task);
    }
  }

  lemma FillRefines(s: Tables, l: Ledger, task: Task)
    requires Represents(s, l) && task.hash !in s.idxByHash && |l.log| < WORD
    ensures Represents(Fill(s, task), l.(log := l.log + [task]))
  {
    FillByIndex(s, l, task);
    FillByHash(s, l, task);
    FillCounters(s, l, task);
  }

  lemma FillCounters(s: Tables, l: Ledger, task: Task)
    requires Counters(s, l) && |l.log| < WORD
    ensures Counters(Fill(s, task), l.(log := l.log + [task]))
  {
  }

  lemma FillByIndex(s: Tables, l: Ledger, task: Task)
    requires ByIndex(s, l) && s.next == |l.log| && (l.floor == 0 || l.floor < |l.log|)
    ensures ByIndex(Fill(s, task), l.(log := l.log + [task]))
  {
    var l' := l.(log := l.log + [task]);
    assert forall i: nat :: Live(l', i) <==> Live(l, i) || i == s.next;
    assert forall i: nat :: i < |l.log| ==> l'.log[i] == l.log[i];
  }

  lemma FillByHash(s: Tables, l: Ledger, task: Task)
    requires ByHash(s, l) && s.next == |l.log| && (l.floor == 0 || l.floor < |l.log|) && task.hash !in s.idxByHash
    ensures ByHash(Fill(s, task), l.(log := l.log + [task]))
  {
    var l' := l.(log := l.log + [task]);
    assert forall i: nat :: Live(l', i) <==> Live(l, i) || i == s.next;
    assert forall i: nat :: i < |l.log| ==> l'.log[i] == l.log[i];
    assert LiveHash(l', task.hash, s.next);
    assert forall h, i: nat :: LiveHash(l, h, i) ==> LiveHash(l', h, i);
  }

  // --- A garbage collection pass ---

  lemma DeleteByIndex(s: Tables, l: Ledger, i: nat)
    requires ByIndex(s, l) && 1 <= i <= l.floor + 1
    ensures ByIndex(Delete(s, i), Raise(l, i))
  {
    assert forall k: nat :: Live(Raise(l, i), k) <==> Live(l, k) && k != i;
  }

  lemma DeleteByHash(s: Tables, l: Ledger, i: nat)
    requires ByIndex(s, l) && ByHash(s, l) && 1 <= i <= l.floor + 1
    ensures ByHash(Delete(s, i), Raise(l, i))
  {
    var l' := Raise(l, i);
    assert forall k: nat :: Live(l', k) <==> Live(l, k) && k != i;
    assert i in s.hashByIdx <==> Live(l, i);
    assert forall h :: h in s.idxByHash ==> (h in Delete(s, i).idxByHash <==> s.idxByHash[h] != i);
  }

  lemma {:induction false} DeleteUpToRefines(s: Tables, l: Ledger, from: nat, end: nat)
    requires ByIndex(s, l) && ByHash(s, l) && 1 <= from <= l.floor + 1
    ensures ByIndex(DeleteUpTo(s, from, end), Raise(l, end))
    ensures ByHash(DeleteUpTo(s, from, end), Raise(l, end))
    ensures DeleteUpTo(s, from, end).next == s.next
    decreases end
  {
    if from <= end {
      DeleteUpToRefines(s, l, from, end - 1);
      DeleteByIndex(DeleteUpTo(s, from, end - 1), Raise(l, end - 1), end);
      DeleteByHash(DeleteUpTo(s, from, end - 1), Raise(l, end - 1), end);
      assert Raise(Raise(l, end - 1), end) == Raise(l, end);
    } else {
      assert Raise(l, end) == l;
    }
  }

  lemma CollectRaises(s: Tables, l: Ledger, hash: Hash)
    requires ByHash(s, l)
    ensures LedgerCollect(l, hash) == Raise(l, Target(s, hash))
    ensures Target(s, hash) == 0 || Target(s, hash) < |l.log|
  {
    if hash in s.idxByHash {
      assert LiveHash(l, hash, s.idxByHash[hash]);
    }
  }

  lemma CollectMaps(s: Tables, l: Ledger, hash: Hash, t: nat)
    requires ByIndex(s, l) && ByHash(s, l) && s.last <= l.floor && t == Target(s, hash)
    ensures ByIndex(Collect(s, hash), Raise(l, t)) && ByHash(Collect(s, hash), Raise(l, t))
  {
    DeleteUpToRefines(s, l, s.last + 1, t);
    SameMaps(DeleteUpTo(s, s.last + 1, t), Collect(s, hash), Raise(l, t));
  }

  lemma SameMaps(s: Tables, s': Tables, l: Ledger)
    requires ByIndex(s, l) && ByHash(s, l) && s' == s.(last := s'.last)
    ensures ByIndex(s', l) && ByHash(s', l)
  {
  }

  lemma CollectRefines(s: Tables, l: Ledger, hash: Hash)
    requires Represents(s, l) && PassEnds(s, hash)
    ensures Represents(Collect(s, hash), LedgerCollect(l, hash))
  {
    CollectMaps(s, l, hash, Target(s, hash));
    CollectRaises(s, l, hash);
  }

  /** A pass that resolves to index t leaves no index in 1 to t and changes nothing else; task 0 always stays. */
  lemma CollectExactly(s: Tables, l: Ledger, hash: Hash, i: nat)
    requires Represents(s, l) && PassEnds(s, hash)
    ensures i in Collect(s, hash).hashByIdx <==> i in s.hashByIdx && !(1 <= i <= Target(s, hash))
    ensures i in Collect(s, hash).hashByIdx ==> Lookup(Collect(s, hash), i) == Lookup(s, i)
  {
    CollectRefines(s, l, hash);
    CollectRaises(s, l, hash);
    LookupFinds(s, l, i);
    LookupFinds(Collect(s, hash), LedgerCollect(l, hash), i);
    assert Live(Raise(l, Target(s, hash)), i) <==> Live(l, i) && !(1 <= i <= Target(s, hash));
  }

  /** A pass ends exactly when it is not for the task of the largest index, the 2^32nd accepted. */
  lemma PassEndsExactly(s: Tables, l: Ledger, hash: Hash)
    requires Represents(s, l)
    ensures PassEnds(s, hash) <==> LoopEnds(s.last + 1, Target(s, hash))
    ensures PassEnds(s, hash) <==> !(|l.log| == WORD && LiveHash(l, hash, WORD - 1))
  {
    CollectRaises(s, l, hash);
    LoopEndsExactly(s.last + 1, Target(s, hash));
    KnownIsIndexed(s, l, hash);
    if hash in s.idxByHash { assert LiveHash(l, hash, s.idxByHash[hash]); }
  }

  /** The response handler finds a live task as it was added. */
  lemma LookupFinds(s: Tables, l: Ledger, i: nat)
    requires Represents(s, l)
    ensures i in s.hashByIdx <==> Live(l, i)
    ensures Live(l, i) ==> Lookup(s, i) == l.log[i]
    ensures !Live(l, i) ==> Lookup(s, i).hash == 0 && Lookup(s, i).block == 0 && Lookup(s, i).time == 0
  {
  }

  // --- Runs ---

  datatype Step = AddTask(task: Task) | CollectTask(hash: Hash)

  function Apply(s: Tables, step: Step): Tables {
    match step
    case AddTask(task) => Add(s, task)
    case CollectTask(hash) => Collect(s, hash)
  }

  ghost function LedgerApply(l: Ledger, step: Step): Ledger {
    match step
    case AddTask(task) => LedgerAdd(l, task)
    case CollectTask(hash) => LedgerCollect(l, hash)
  }

  function TablesAfter(steps: seq<Step>): Tables {
    if steps == [] then EMPTY else Apply(TablesAfter(steps[..|steps| - 1]), steps[|steps| - 1])
  }

  ghost function LedgerAfter(steps: seq<Step>): Ledger {
    if steps == [] then Ledger([], 0) else LedgerApply(LedgerAfter(steps[..|steps| - 1]), steps[|steps| - 1])
  }

  /** Every pass of the run ends. */
  ghost predicate PassesEnd(steps: seq<Step>) {
    steps != [] ==>
      var before, last := steps[..|steps| - 1], steps[|steps| - 1];
      PassesEnd(before) && (last.CollectTask? ==> PassEnds(TablesAfter(before), last.hash))
  }

  /** In every interleaving of additions and passes that end the tables are the ledger's. */
  lemma {:induction false} RunRefines(steps: seq<Step>)
    requires PassesEnd(steps)
    ensures Represents(TablesAfter(steps), LedgerAfter(steps))
  {
    if steps == [] {
      EmptyRepresents();
    } else {
      var before := steps[..|steps| - 1];
      RunRefines(before);
      match steps[|steps| - 1]
      case AddTask(task) => AddRefines(TablesAfter(before), LedgerAfter(before), task);
      case CollectTask(hash) => CollectRefines(TablesAfter(before), LedgerAfter(before), hash);
    }
  }

  lemma {:induction false} LedgerGrows(steps: seq<Step>, later: seq<Step>)
    ensures LedgerAfter(steps).log <= LedgerAfter(steps + later).log
  {
    if later == [] {
      assert steps + later == steps;
    } else {
      var most := later[..|later| - 1];
      LedgerGrows(steps, most);
      assert (steps + later)[..|steps + later| - 1] == steps + most;
    }
  }

  /** Whatever was accepted as task i is what every later lookup of i finds, until a collection reaches i. */
  lemma AcceptedTaskStays(steps: seq<Step>, later: seq<Step>, i: nat)
    requires i < |LedgerAfter(steps).log| && PassesEnd(steps + later)
    ensures Live(LedgerAfter(steps + later), i) ==> Lookup(TablesAfter(steps + later), i) == LedgerAfter(steps).log[i]
    ensures Live(LedgerAfter(steps + later), i) <==> i == 0 || i > LedgerAfter(steps + later).floor
  {
    RunRefines(steps + later);
    LedgerGrows(steps, later);
    LookupFinds(TablesAfter(steps + later), LedgerAfter(steps + later), i);
  }

  /** Once 2^32 tasks have been accepted, none ever is again, whatever is collected. */
  lemma FullForever(steps: seq<Step>, later: seq<Step>, task: Task)
    requires |LedgerAfter(steps).log| == WORD && PassesEnd(steps + later)
    ensures !Accepts(TablesAfter(steps + later), task)
  {
    LedgerStaysFull(steps, later);
    RunRefines(steps + later);
    AddRefines(TablesAfter(steps + later), LedgerAfter(steps + later), task);
  }

  lemma {:induction false} LedgerStaysFull(steps: seq<Step>, later: seq<Step>)
    requires |LedgerAfter(steps).log| == WORD
    ensures LedgerAfter(steps + later).log == LedgerAfter(steps).log
  {
    if later == [] {
      assert steps + later == steps;
    } else {
      LedgerStaysFull(steps, later[..|later| - 1]);
      assert (steps + later)[..|steps + later| - 1] == steps + later[..|later| - 1];
    }
  }

  // --- The tables in place ---

  class Aggregator {
    var idxByHash: map<Hash, nat>
    var hashByIdx: map<nat, Hash>
    var blockByIdx: map<nat, nat>
    var dataByHash: map<Hash, BatchData>
    var timeByIdx: map<nat, nat>
    var nextBatchIndex: nat
    var lastIdxDeleted: nat

    ghost function State(): Tables
      reads this
    {
      Tables(idxByHash, hashByIdx, blockByIdx, dataByHash, timeByIdx, nextBatchIndex, lastIdxDeleted)
    }

    constructor ()
      ensures State() == EMPTY
    {
      idxByHash, hashByIdx, blockByIdx, dataByHash, timeByIdx := map[], map[], map[], map[], map[];
      nextBatchIndex, lastIdxDeleted := 0, 0;
    }

    /** The index handed to the BLS service, or nothing when the task is refused. */
    method AddNewTask(task: Task) returns (accepted: bool, index: nat)
      modifies this
      ensures State() == Add(old(State()), task)
      ensures accepted <==> Accepts(old(State()), task)
      ensures index == old(nextBatchIndex)
    {
      index := nextBatchIndex;
      if task.hash in idxByHash {
        return false, index;
      }
      if index in hashByIdx {
        return false, index;
      }
      idxByHash := idxByHash[task.hash := index];
      blockByIdx := blockByIdx[index := task.block];
      hashByIdx := hashByIdx[index := task.hash];
      dataByHash := dataByHash[task.hash := task.data];
      timeByIdx := timeByIdx[index := task.time];
      nextBatchIndex := (nextBatchIndex + 1) % WORD;
      accepted := true;
    }

    /** One pass of `ClearTasksFromMaps` for the hash of an old task. */
    method ClearTasks(oldTaskHash: Hash)
      requires PassEnds(State(), oldTaskHash) && lastIdxDeleted + 1 < WORD
      modifies this
      ensures State() == Collect(old(State()), oldTaskHash)
      ensures lastIdxDeleted == if oldTaskHash in old(idxByHash) then old(idxByHash)[oldTaskHash] else 0
    {
      ghost var before := State();
      var taskIdxToDelete := if oldTaskHash in idxByHash then idxByHash[oldTaskHash] else 0;
      var i := (lastIdxDeleted + 1) % WORD;
      while i <= taskIdxToDelete
        invariant lastIdxDeleted + 1 <= i < WORD
        invariant i <= taskIdxToDelete + 1 || i == lastIdxDeleted + 1
        invariant State() == DeleteUpTo(before, before.last + 1, i - 1)
        decreases WORD - i
      {
        if i in hashByIdx {
          var hash := hashByIdx[i];
          idxByHash := idxByHash - {hash};
          blockByIdx := blockByIdx - {i};
          hashByIdx := hashByIdx - {i};
          dataByHash := dataByHash - {hash};
          timeByIdx := timeByIdx - {i};
        }
        i := (i + 1) % WORD;
      }
      lastIdxDeleted := taskIdxToDelete;
      assert State() == Collect(before, oldTaskHash);
    }
  }
}
