/** The bitmap of disabled verifiers: what the contract's owner writes
(contracts/src/core/AlignedLayerServiceManager.sol) and what the operator reads (operator/pkg/utils.go). */
module VerifierBitmap {
  import opened Basics

  // --- Reading ---

  function Bit(bitmap: nat, i: nat): bool {
    (bitmap / Pow2(i)) % 2 == 1
  }

  /** The bitmap is cut to 64 bits. */
  const UINT64: nat := 0x1_0000_0000_0000_0000

  /** `IsVerifierDisabled`: the id is cut to 8 bits, the bitmap to 64, and shifts of 64 or more give no bit. */
  function IsDisabled(bitmap: nat, system: nat): bool {
    system % 256 < 64 && Bit(bitmap % UINT64, system % 256)
  }

  // --- Writing ---

  /** The owner's calls: `disableVerifier`, `enableVerifier` and `setDisabledVerifiers`. */
  datatype Call = Disable(id: nat) | Enable(id: nat) | SetTo(ids: set<nat>)

  ghost predicate Touches(call: Call, id: nat) {
    match call
    case Disable(i) => i == id
    case Enable(i) => i == id
    case SetTo(ids) => true
  }

  ghost predicate Disables(call: Call, id: nat) {
    match call
    case Disable(i) => i == id
    case Enable(i) => false
    case SetTo(ids) => id in ids
  }

  /** The last call that says anything of this verifier disables it. */
  ghost predicate DisabledByOwner(calls: seq<Call>, id: nat) {
    exists k :: 0 <= k < |calls| && Disables(calls[k], id) && forall l :: k < l < |calls| ==> !Touches(calls[l], id)
  }

  /** The ids written so far. */
  ghost function Written(calls: seq<Call>): set<nat> {
    if calls == [] then {} else
      var before := Written(calls[..|calls| - 1]);
      match calls[|calls| - 1]
      case Disable(id) => before + {id}
      case Enable(id) => before - {id}
      case SetTo(ids) => ids
  }

  /** The number whose set bits are these. */
  ghost function SumOf(ids: set<nat>): nat {
    if ids == {} then 0 else
      var i :| i in ids;
      Pow2(i) + SumOf(ids - {i})
  }

  /** The stored bitmap: disabling adds the verifier's power of two unless it is there, enabling takes it away. */
  ghost function BitmapAfter(calls: seq<Call>): int {
    if calls == [] then 0 else
      var before := calls[..|calls| - 1];
      match calls[|calls| - 1]
      case Disable(id) => BitmapAfter(before) + if id in Written(before) then 0 else Pow2(id)
      case Enable(id) => BitmapAfter(before) - if id in Written(before) then Pow2(id) else 0
      case SetTo(ids) => SumOf(ids)
  }

  lemma {:induction false} WrittenIsDisabled(calls: seq<Call>, id: nat)
    ensures id in Written(calls) <==> DisabledByOwner(calls, id)
  {
    if calls != [] {
      var n := |calls| - 1;
      var before, last := calls[..n], calls[n];
      WrittenIsDisabled(before, id);
      if DisabledByOwner(before, id) && !Touches(last, id) {
        var k :| 0 <= k < n && Disables(before[k], id) && forall l :: k < l < n ==> !Touches(before[l], id);
        assert calls[k] == before[k];
      }
      if DisabledByOwner(calls, id) && !Touches(last, id) {
        var k :| 0 <= k < |calls| && Disables(calls[k], id) && forall l :: k < l < |calls| ==> !Touches(calls[l], id);
        assert before[k] == calls[k];
      }
      assert Disables(last, id) ==> DisabledByOwner(calls, id);
    }
  }

  // --- Bits ---

  lemma DivUnique(n: nat, d: nat, q: nat, rest: nat)
    requires d > 0 && n == d * q + rest && rest < d
    ensures n / d == q
  {
    var r := n / d - q;
    assert d * r == rest - n % d;
    assert r > 0 ==> d * r >= d;
    assert r < 0 ==> d * r <= -1 * d;
  }

  /** The higher bits are those of the half. */
  lemma HalfBits(n: nat, i: nat)
    ensures Bit(n, i + 1) <==> Bit(n / 2, i)
    ensures Bit(n, 0) <==> n % 2 == 1
  {
    var d := Pow2(i);
    var h := n / 2;
    var rest := h % d;
    assert Pow2(i + 1) == 2 * d;
    assert h == d * (h / d) + rest;
    assert n == 2 * d * (h / d) + (2 * rest + n % 2);
    DivUnique(n, 2 * d, h / d, 2 * rest + n % 2);
    assert Pow2(0) == 1;
  }

  /** Adding the power of a clear bit sets it and nothing else. */
  lemma {:induction false} AddBit(n: nat, i: nat, j: nat)
    requires !Bit(n, i)
    ensures Bit(n + Pow2(i), j) <==> j == i || Bit(n, j)
  {
    HalfBits(n, 0);
    HalfBits(n + Pow2(i), 0);
    if i == 0 {
      assert Pow2(0) == 1 && (n + 1) / 2 == n / 2;
      if j > 0 {
        HalfBits(n, j - 1);
        HalfBits(n + 1, j - 1);
      }
    } else {
      HalfBits(n, i - 1);
      assert (n + Pow2(i)) / 2 == n / 2 + Pow2(i - 1) && (n + Pow2(i)) % 2 == n % 2;
      if j > 0 {
        HalfBits(n, j - 1);
        HalfBits(n + Pow2(i), j - 1);
        AddBit(n / 2, i - 1, j - 1);
      }
    }
  }

  /** Taking away the power of a set bit clears it and nothing else. */
  lemma {:induction false} SubtractBit(n: nat, i: nat, j: nat)
    requires Bit(n, i)
    ensures n >= Pow2(i) && (Bit(n - Pow2(i), j) <==> j != i && Bit(n, j))
  {
    HalfBits(n, 0);
    if i == 0 {
      assert Pow2(0) == 1 && (n - 1) / 2 == n / 2;
      HalfBits(n - 1, 0);
      if j > 0 {
        HalfBits(n, j - 1);
        HalfBits(n - 1, j - 1);
      }
    } else {
      HalfBits(n, i - 1);
      SubtractBit(n / 2, i - 1, if j > 0 then j - 1 else 0);
      assert (n - Pow2(i)) / 2 == n / 2 - Pow2(i - 1) && (n - Pow2(i)) % 2 == n % 2;
      HalfBits(n - Pow2(i), 0);
      if j > 0 {
        HalfBits(n, j - 1);
        HalfBits(n - Pow2(i), j - 1);
      }
    }
  }

  lemma {:induction false} SumBits(ids: set<nat>)
    ensures forall j: nat :: Bit(SumOf(ids), j) <==> j in ids
    decreases |ids|
  {
    if ids == {} {
      forall j: nat ensures !Bit(0, j) { DivUnique(0, Pow2(j), 0, 0); }
    } else {
      var i :| i in ids && SumOf(ids) == Pow2(i) + SumOf(ids - {i});
      SumBits(ids - {i});
      forall j: nat ensures Bit(SumOf(ids), j) <==> j in ids { AddBit(SumOf(ids - {i}), i, j); }
    }
  }

  /** The bitmap's set bits are exactly the ids written. */
  lemma {:induction false} BitsAreWritten(calls: seq<Call>)
    ensures BitmapAfter(calls) >= 0
    ensures forall j: nat :: Bit(BitmapAfter(calls), j) <==> j in Written(calls)
  {
    if calls == [] {
      forall j: nat ensures !Bit(0, j) { DivUnique(0, Pow2(j), 0, 0); }
    } else {
      var before := calls[..|calls| - 1];
      BitsAreWritten(before);
      match calls[|calls| - 1]
      case Disable(id) =>
        if id !in Written(before) {
          forall j: nat ensures Bit(BitmapAfter(calls), j) <==> j in Written(calls) {
            AddBit(BitmapAfter(before), id, j);
          }
        }
      case Enable(id) =>
        if id in Written(before) {
          SubtractBit(BitmapAfter(before), id, 0);
          forall j: nat ensures Bit(BitmapAfter(calls), j) <==> j in Written(calls) {
            SubtractBit(BitmapAfter(before), id, j);
          }
        }
      case SetTo(ids) => SumBits(ids);
    }
  }

  // --- What the operator reads of what the owner wrote ---

  /** Adding a multiple of `2 * d` keeps the bit of weight `d`. */
  lemma ShiftKeepsBit(low: nat, d: nat, k: nat)
    requires d > 0
    ensures (d * (2 * k) + low) / d % 2 == low / d % 2
  {
    DivShift(low, d, 2 * k);
    EvenShift(low / d, k);
  }

  lemma DivShift(low: nat, d: nat, k: nat)
    requires d > 0
    ensures (d * k + low) / d == k + low / d
  {
    var q := low / d;
    assert d * k + low == d * (k + q) + low % d;
    DivUnique(d * k + low, d, k + q, low % d);
  }

  lemma EvenShift(x: nat, k: nat)
    ensures (x + 2 * k) % 2 == x % 2
  {
  }

  lemma CutKeepsBit(bitmap: nat, d: nat, c: nat)
    requires d > 0 && d * (2 * c) == UINT64
    ensures (bitmap % UINT64) / d % 2 == bitmap / d % 2
  {
    var q, low := bitmap / UINT64, bitmap % UINT64;
    Regroup(d, c, q);
    ShiftKeepsBit(low, d, c * q);
  }

  lemma Regroup(d: nat, c: nat, q: nat)
    ensures d * (2 * c) * q == d * (2 * (c * q))
  {
    assert (2 * c) * q == 2 * (c * q);
  }

  lemma SixBits()
    ensures Pow2(0) == 1 && Pow2(1) == 2 && Pow2(2) == 4 && Pow2(3) == 8 && Pow2(4) == 16 && Pow2(5) == 32
  {
  }

  /** For every sequence of the owner's calls, a known verifier is read as disabled exactly when the last call that
  says anything of it disables it. */
  lemma DisabledExactly(calls: seq<Call>, system: nat)
    requires system < 6
    ensures BitmapAfter(calls) >= 0
    ensures IsDisabled(BitmapAfter(calls), system) <==> DisabledByOwner(calls, system)
  {
    BitsAreWritten(calls);
    WrittenIsDisabled(calls, system);
    SixBits();
    CutKeepsBit(BitmapAfter(calls), Pow2(system), UINT64 / 2 / Pow2(system));
  }
}
