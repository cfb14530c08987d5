/** Inputs on which the batcher does not do what its comments say, with the fee settings of
config-files/config-batcher.yaml: runs from the initial state after which putting a failed batch back breaks the
invariant, and a queue whose batch is not as big as possible. */
module Scenarios {
  import opened BatchQueue
  import opened BatchExtraction
  import opened BatchChoice
  import opened FeeModel
  import opened PaymentService
  import opened BatcherState
  import opened SenderSteps
  import opened BatcherSteps
  import opened BatchRestore
  import opened RestoreInvariant
  import opened BatcherRuns

  function Shipped(maxSize: nat): Config {
    Config(maxSize, 10, 125, 330_000, 268_435_456, 3_000)
  }

  const FIRST: Key := Key(1, 0)
  const SECOND: Key := Key(1, 1)
  const BALANCE: nat := 10_000_000

  /** What one proof alone costs at a gas price of one. */
  const ALONE: nat := 539_500

  function Start(maxSize: nat): State {
    State(Shipped(maxSize), map[], map[], false, false, 0, map[], map[1 := Account(0, BALANCE)])
  }

  function Joined(maxSize: nat): State {
    Start(maxSize).(users := map[1 := NewUser(0)])
  }

  function Queued(maxSize: nat, fee: nat): State {
    Start(maxSize).(queue := map[FIRST := Proof(fee, 1)], users := map[1 := UserState(1, fee, fee, 1)])
  }

  function Flying(maxSize: nat, fee: nat): State {
    Queued(maxSize, fee).(queue := map[], inflight := map[FIRST := Proof(fee, 1)], posting := true, gasPrice := 1)
  }

  /** Nonce 0 is in flight and nonce 1 is queued. */
  function Both(maxSize: nat, fee: nat, next: nat): State {
    Flying(maxSize, fee).(queue := map[SECOND := Proof(next, 1)], users := map[1 := UserState(2, next, fee + next, 2)])
  }

  function Steps(fee: nat, next: nat): seq<Step> {
    [InsertUser(1, 0), Submit(1, 0, Proof(fee, 1), BALANCE), ExtractBatch([FIRST], 1),
        Submit(1, 1, Proof(next, 1), BALANCE)]
  }

  function States(maxSize: nat, fee: nat, next: nat): seq<State> {
    [Start(maxSize), Joined(maxSize), Queued(maxSize, fee), Flying(maxSize, fee), Both(maxSize, fee, next)]
  }

  ghost predicate Fits(maxSize: nat, fee: nat, next: nat) {
    maxSize >= 1 && ALONE <= fee <= 1_000_000 && next <= fee
  }

  lemma JoinStep(maxSize: nat)
    ensures Safe(Start(maxSize), InsertUser(1, 0)) && Apply(Start(maxSize), InsertUser(1, 0)) == Joined(maxSize)
  {
    assert LaneOf(map[], 1) == map[];
  }

  lemma SubmitStep(maxSize: nat, fee: nat)
    requires maxSize >= 1 && fee <= 1_000_000
    ensures Enabled(Joined(maxSize), Submit(1, 0, Proof(fee, 1), BALANCE))
    ensures Apply(Joined(maxSize), Submit(1, 0, Proof(fee, 1), BALANCE)) == Queued(maxSize, fee)
  {
  }

  lemma ExtractStep(maxSize: nat, fee: nat)
    requires ALONE <= fee
    ensures Enabled(Queued(maxSize, fee), ExtractBatch([FIRST], 1))
    ensures Apply(Queued(maxSize, fee), ExtractBatch([FIRST], 1)) == Flying(maxSize, fee)
  {
    var q: Queue := map[FIRST := Proof(fee, 1)];
    assert KeySet([FIRST]) == {FIRST};
    assert Part(q, {FIRST}) == q && q - {FIRST} == map[];
    BytesRemove(q, FIRST);
    assert FeePerProof(1, 1, ConstantGasCost(125, 330_000)) == ALONE;
    OneProofIsExtraction(q, LimitsOf(Shipped(maxSize), 1), fee);
  }

  lemma OneProofIsExtraction(q: Queue, l: Limits, fee: nat)
    requires q == map[FIRST := Proof(fee, 1)] && Bytes(q) == 1 && l.maxBytes >= 10 && l.maxProofs >= 1
    requires FeePerProof(1, l.gasPrice, l.constantGas) <= fee
    ensures IsExtraction(q, [FIRST], q - KeySet([FIRST]), l)
  {
    var taken := KeySet([FIRST]);
    assert taken == {FIRST};
    assert Part(q, taken) == q;
  }

  lemma SubmitNextStep(maxSize: nat, fee: nat, next: nat)
    requires Fits(maxSize, fee, next)
    ensures Enabled(Flying(maxSize, fee), Submit(1, 1, Proof(next, 1), BALANCE))
    ensures Apply(Flying(maxSize, fee), Submit(1, 1, Proof(next, 1), BALANCE)) == Both(maxSize, fee, next)
  {
  }

  lemma BothIsReached(maxSize: nat, fee: nat, next: nat)
    requires Fits(maxSize, fee, next)
    ensures Run(States(maxSize, fee, next), Steps(fee, next))
    ensures AllSafe(States(maxSize, fee, next), Steps(fee, next))
    ensures Inv(Both(maxSize, fee, next)) && AllCrossOrdered(Both(maxSize, fee, next))
  {
    BothRun(maxSize, fee, next);
    RunWithRestoresKeepsInv(States(maxSize, fee, next), Steps(fee, next), 4);
  }

  lemma BothRun(maxSize: nat, fee: nat, next: nat)
    requires Fits(maxSize, fee, next)
    ensures Run(States(maxSize, fee, next), Steps(fee, next))
    ensures AllSafe(States(maxSize, fee, next), Steps(fee, next))
  {
    BothSteps(maxSize, fee, next);
    JoinStep(maxSize);
  }

  lemma BothSteps(maxSize: nat, fee: nat, next: nat)
    requires Fits(maxSize, fee, next)
    ensures Run(States(maxSize, fee, next), Steps(fee, next))
  {
    JoinStep(maxSize);
    SubmitStep(maxSize, fee);
    ExtractStep(maxSize, fee);
    SubmitNextStep(maxSize, fee, next);
  }

  // --- Restoring into a full queue of one ---

  lemma SingleTurn(m0: Merge, k: Key, f: Queue, limit: nat, m: Merge)
    requires KeySet([k]) <= f.Keys && MergeRun(m0, [k], f, limit, m)
    ensures k in f && MergeOne(m0, k, f[k], limit, m)
  {
    var batch := [k];
    KeySetPrefix(batch);
    assert batch[..0] == [];
  }

  /** Putting nonce 0 back is a single turn. */
  lemma OneTurn(maxSize: nat, fee: nat, next: nat, m: Merge)
    requires RestoreRuns(Both(maxSize, fee, next), [FIRST], m)
    ensures var s := Both(maxSize, fee, next);
            MergeOne(Merge(s.queue, s.users, map[], map[]), FIRST, Proof(fee, 1), maxSize, m)
  {
    var s := Both(maxSize, fee, next);
    SingleTurn(Merge(s.queue, s.users, map[], map[]), FIRST, s.inflight, maxSize, m);
  }

  lemma OnlySecondIsLowest(next: nat, low: Key)
    requires Lowest(map[SECOND := Proof(next, 1)], low)
    ensures low == SECOND
  {
  }

  ghost predicate Reached(s: State, states: seq<State>, steps: seq<Step>) {
    Run(states, steps) && AllSafe(states, steps) && s == states[|steps|]
  }

  /** Nonce 1 queued at the fee of nonce 0 in flight: no two proofs of the batch have equal fees, yet every restore
  drops nonce 0 and keeps nonce 1. */
  lemma EqualFeesCanBeSplit(m: Merge)
    requires RestoreRuns(Both(1, 600_000, 600_000), [FIRST], m)
    ensures Reached(Both(1, 600_000, 600_000), States(1, 600_000, 600_000), Steps(600_000, 600_000))
    ensures AllCrossOrdered(Both(1, 600_000, 600_000))
    ensures SECOND in m.queue && FIRST in m.dropped && !Inv(AfterMerge(Both(1, 600_000, 600_000), m))
  {
    var s := Both(1, 600_000, 600_000);
    BothIsReached(1, 600_000, 600_000);
    OneTurn(1, 600_000, 600_000, m);
    forall low | Lowest(s.queue, low) ensures low == SECOND { OnlySecondIsLowest(600_000, low); }
    assert Full(Merge(s.queue, s.users, map[], map[]), 1);
    RestoreExact(s, [FIRST], m);
    assert 0 in LaneOf(m.dropped, 1);
    assert !SenderIsClean(s, m, 1);
  }

  /** Nonce 1 queued below nonce 0: putting nonce 0 back evicts the sender's only queued proof, the record is
  forgotten, and then nonce 0 is queued without one. */
  lemma RecordCanBeForgotten(m: Merge)
    requires RestoreRuns(Both(1, 700_000, 600_000), [FIRST], m)
    ensures Reached(Both(1, 700_000, 600_000), States(1, 700_000, 600_000), Steps(700_000, 600_000))
    ensures AllCrossOrdered(Both(1, 700_000, 600_000))
    ensures FIRST in m.queue && m.users == map[] && !Inv(AfterMerge(Both(1, 700_000, 600_000), m))
  {
    var s := Both(1, 700_000, 600_000);
    BothIsReached(1, 700_000, 600_000);
    OneTurn(1, 700_000, 600_000, m);
    forall low | Lowest(s.queue, low) ensures low == SECOND { OnlySecondIsLowest(600_000, low); }
    assert Full(Merge(s.queue, s.users, map[], map[]), 1);
    assert s.queue - {SECOND} == map[];
    assert s.users - {1} == map[];
    RestoreExact(s, [FIRST], m);
    assert 0 in LaneOf(m.queue, 1);
    assert !SenderIsClean(s, m, 1);
  }

  // --- A replacement that outbids the batch ---

  const BETTER: Proof := Proof(700_000, 1)

  ghost function Outbid(): State {
    ReplacementIsAccepted();
    AfterReplace(Both(10_000, 600_000, 200_000), 1, 1, BETTER)
  }

  lemma ReplacementIsAccepted()
    ensures CanReplace(Both(10_000, 600_000, 200_000), 1, 1, BETTER, BALANCE)
  {
    var s := Both(10_000, 600_000, 200_000);
    assert MinBump(200_000, 10) == 220_000;
    assert forall k :: k in s.queue ==> k == SECOND;
  }

  lemma OutbidIsReached()
    ensures Reached(Outbid(), States(10_000, 600_000, 200_000) + [Outbid()],
                    Steps(600_000, 200_000) + [Replace(1, 1, BETTER, BALANCE)])
    ensures Inv(Outbid()) && CanRestore(Outbid())
  {
    BothIsReached(10_000, 600_000, 200_000);
    ReplacementIsAccepted();
    ReplaceKeepsInv(Both(10_000, 600_000, 200_000), 1, 1, BETTER, BALANCE);
    RunGoesOn(States(10_000, 600_000, 200_000), Steps(600_000, 200_000), Replace(1, 1, BETTER, BALANCE));
  }

  lemma RunGoesOn(states: seq<State>, steps: seq<Step>, step: Step)
    requires Run(states, steps) && AllSafe(states, steps) && Enabled(states[|steps|], step)
    requires Safe(states[|steps|], step)
    ensures Reached(Apply(states[|steps|], step), states + [Apply(states[|steps|], step)], steps + [step])
  {
    RunLonger(states, steps, step);
    SafeLonger(states, steps, step);
  }

  lemma RunLonger(states: seq<State>, steps: seq<Step>, step: Step)
    requires Run(states, steps) && Enabled(states[|steps|], step)
    ensures Run(states + [Apply(states[|steps|], step)], steps + [step])
  {
    var states', steps' := states + [Apply(states[|steps|], step)], steps + [step];
    forall i | 0 <= i < |steps'| ensures Enabled(states'[i], steps'[i]) &&
        states'[i + 1] == Apply(states'[i], steps'[i]) {
      if i < |steps| {
        assert states'[i] == states[i] && states'[i + 1] == states[i + 1] && steps'[i] == steps[i];
      }
    }
  }

  lemma SafeLonger(states: seq<State>, steps: seq<Step>, step: Step)
    requires Run(states, steps) && AllSafe(states, steps) && Enabled(states[|steps|], step)
    requires Safe(states[|steps|], step)
    requires Run(states + [Apply(states[|steps|], step)], steps + [step])
    ensures AllSafe(states + [Apply(states[|steps|], step)], steps + [step])
  {
    var states', steps' := states + [Apply(states[|steps|], step)], steps + [step];
    forall i | 0 <= i < |steps'| ensures Safe(states'[i], steps'[i]) {
      if i < |steps| {
        assert states'[i] == states[i] && steps'[i] == steps[i];
      } else {
        assert states'[i] == states[|steps|] && steps'[i] == step;
      }
    }
  }

  lemma OutbidIsOutbid()
    ensures !NothingOutbid(Outbid())
  {
    var s, s' := Both(10_000, 600_000, 200_000), Outbid();
    ReplacementIsAccepted();
    ReplacedView(s, 1, 1, BETTER);
    var v := ViewOf(s', 1);
    assert 1 in LaneOf(s.queue, 1) && v.queued[1] == BETTER;
    assert 0 in LaneOf(s.inflight, 1) && v.flying[0].maxFee == 600_000;
    assert !NoOutbid(v.queued, v.flying);
  }

  /** Raising nonce 1 above the in-flight nonce 0 passes every check, since only queued proofs are looked at; if the
  batch then fails and is put back, with all the room there is, the sender's fees rise with the nonce. */
  lemma ReplacementCanBreakRestore(m: Merge)
    requires RestoreRuns(Outbid(), [FIRST], m)
    ensures Reached(Outbid(), States(10_000, 600_000, 200_000) + [Outbid()],
                    Steps(600_000, 200_000) + [Replace(1, 1, BETTER, BALANCE)])
    ensures CanRestore(Outbid()) && !Inv(AfterMerge(Outbid(), m))
  {
    OutbidIsReached();
    OutbidIsOutbid();
    RoomIsClean(Outbid(), [FIRST], m);
    RestoreExact(Outbid(), [FIRST], m);
  }

  // --- A byte limit that costs proofs ---

  function Tight(): Limits {
    LimitsOf(Shipped(10_000).(maxBytes := 4_000_100), 1)
  }

  function SmallAndLarge(): Queue {
    map[Key(1, 0) := Proof(560_000, 1_000), Key(2, 0) := Proof(570_000, 1_000), Key(3, 0) := Proof(600_000, 4_000_000)]
  }

  lemma TightFees()
    ensures Tight() == Limits(1, 4_000_100, 3_000, 537_500)
    ensures FeePerProof(1, 1, 537_500) == ALONE && FeePerProof(2, 1, 537_500) == 270_750
  {
  }

  lemma TwoSmallProofsFit()
    ensures Acceptable(SmallAndLarge(), {Key(1, 0), Key(2, 0)}, Tight())
  {
    var q, a, b := SmallAndLarge(), Key(1, 0), Key(2, 0);
    var small := Part(q, {a, b});
    TightFees();
    BytesRemove(small, a);
    BytesRemove(small - {a}, b);
    assert small - {a} - {b} == map[];
  }

  /** Dropping the cheapest first is not the best choice when the byte limit binds: two small proofs that both pay
  are passed over because the dearest proof leaves no room for them, and only one proof is taken. */
  lemma SizeLimitCostsProofs(batch: seq<Key>, rest: Queue)
    requires IsExtraction(SmallAndLarge(), batch, rest, Tight())
    ensures |batch| == 1 && Achievable(SmallAndLarge(), 2, Tight())
  {
    var q, a, b, c := SmallAndLarge(), Key(1, 0), Key(2, 0), Key(3, 0);
    TwoSmallProofsFit();
    AcceptableIsAchievable(q, {a, b}, Tight());
    assert |{a, b}| == 2;
    TightFees();
    var taken := KeySet(batch);
    KeySetSize(batch);
    CutTakesDearest(q, taken, batch);
    LargeLeavesNoRoom(q, taken);
    SubsetSize(taken, {c});
  }

  lemma CutTakesDearest(q: Queue, taken: set<Key>, batch: seq<Key>)
    requires q == SmallAndLarge() && batch != [] && taken == KeySet(batch) && taken <= q.Keys && IsCut(q, taken)
    ensures Key(3, 0) in taken && (Key(1, 0) in taken ==> Key(2, 0) in taken)
  {
    var a, b, c := Key(1, 0), Key(2, 0), Key(3, 0);
    assert PopsBefore(q, a, b) && PopsBefore(q, b, c) && PopsBefore(q, a, c);
    assert batch[0] in taken;
  }

  lemma LargeLeavesNoRoom(q: Queue, taken: set<Key>)
    requires q == SmallAndLarge() && taken <= q.Keys && Key(3, 0) in taken &&
               (Key(1, 0) in taken ==> Key(2, 0) in taken)
    requires BytesFit(Part(q, taken), Tight())
    ensures taken <= {Key(3, 0)}
  {
    var part := Part(q, taken);
    BytesRemove(part, Key(3, 0));
    if Key(2, 0) in taken {
      BytesRemove(part - {Key(3, 0)}, Key(2, 0));
    }
  }
}
