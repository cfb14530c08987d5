/** Packing Merkle leaves into an EIP-4844 blob (`construct_blob`, aggregation_mode/src/backend/mod.rs). */
module BlobPacking {
  import opened Basics

  type Byte = x: int | 0 <= x < 256

  type Leaf = s: seq<Byte> | |s| == 32 witness seq(32, _ => 0)

  const FIELD_ELEMENTS_PER_BLOB: nat := 4096
  const BYTES_PER_BLOB: nat := 131072
  const PAYLOAD: nat := 126976

  /** The order of the BLS12-381 scalar field (Parameters section of EIP-4844). */
  const BLS_MODULUS: nat := 52435875175126190479447740508185965837690552500527637822603658699938581184513

  function Flatten(leaves: seq<Leaf>): (r: seq<Byte>)
    ensures |r| == 32 * |leaves|
  {
    if leaves == [] then [] else Flatten(leaves[..|leaves| - 1]) + leaves[|leaves| - 1]
  }

  // --- Where each byte goes ---

  /** Byte `j` of a blob holding `data` in its first `used` field elements: a zero before every 31 bytes of data. */
  function PackedByte(data: seq<Byte>, used: nat, j: nat): Byte {
    if j % 32 == 0 || j >= 32 * used then 0 else
      var p := 31 * (j / 32) + j % 32 - 1;
      if p < |data| then data[p] else 0
  }

  ghost predicate Packed(blob: seq<Byte>, data: seq<Byte>, used: nat) {
    |blob| == BYTES_PER_BLOB && forall j :: 0 <= j < BYTES_PER_BLOB ==> blob[j] == PackedByte(data, used, j)
  }

  /** Byte `p` of the leaves, counted from the first leaf's first byte, is in field element `p / 31`, after its zero
  byte. */
  ghost predicate HoldsByte(blob: seq<Byte>, leaves: seq<Leaf>, p: nat) {
    && p / 32 < |leaves| && 32 * (p / 31) + p % 31 + 1 < |blob|
    && blob[32 * (p / 31) + p % 31 + 1] == leaves[p / 32][p % 32]
  }

  lemma PackedHolds(blob: seq<Byte>, leaves: seq<Leaf>, p: nat)
    requires |leaves| <= 3968 && Packed(blob, Flatten(leaves), Elements(32 * |leaves|)) && p < 32 * |leaves|
    ensures HoldsByte(blob, leaves, p)
  {
    HoldsAt(blob, Flatten(leaves), p);
    FlattenAt(leaves, p);
  }

  lemma HoldsAt(blob: seq<Byte>, data: seq<Byte>, p: nat)
    requires |data| <= PAYLOAD && Packed(blob, data, Elements(|data|)) && p < |data|
    ensures 32 * (p / 31) + p % 31 + 1 < |blob| && blob[32 * (p / 31) + p % 31 + 1] == data[p]
  {
    UnpackAt(blob, data, p);
  }

  lemma {:induction false} FlattenAt(leaves: seq<Leaf>, p: nat)
    requires p < 32 * |leaves|
    ensures p / 32 < |leaves| && Flatten(leaves)[p] == leaves[p / 32][p % 32]
  {
    var n := |leaves| - 1;
    if p < 32 * n { FlattenAt(leaves[..n], p); }
  }

  /** The number of field elements that `len` bytes take. */
  function Elements(len: nat): nat {
    (len + 30) / 31
  }

  /** The code: 31 bytes at a time after a zero byte. A chunk that does not fit makes the source panic. */
  method ConstructBlob(leaves: seq<Leaf>) returns (r: Option<seq<Byte>>)
    ensures r.Some? <==> |leaves| <= 3968
    ensures r.Some? ==> Packed(r.value, Flatten(leaves), Elements(32 * |leaves|))
    ensures r.Some? ==> forall p: nat :: p < 32 * |leaves| ==> HoldsByte(r.value, leaves, p)
  {
    var data := Flatten(leaves);
    var blob := new Byte[BYTES_PER_BLOB](_ => 0);
    var offset, i := 0, 0;
    while 31 * i < |data|
      invariant offset == 32 * i && i <= Elements(|data|) && i <= FIELD_ELEMENTS_PER_BLOB
      invariant forall j :: 0 <= j < BYTES_PER_BLOB ==> blob[j] == PackedByte(data, i, j)
      decreases |data| - 31 * i
    {
      var size := if 31 * i + 31 <= |data| then 31 else |data| - 31 * i;
      if offset + 1 + size > blob.Length { return None; }
      WriteChunk(blob, data, i, size);
      i := i + 1;
      offset := offset + 32;
    }
    r := Some(blob[..]);
    forall p: nat | p < 32 * |leaves| ensures HoldsByte(blob[..], leaves, p) { PackedHolds(blob[..], leaves, p); }
  }

  method WriteChunk(blob: array<Byte>, data: seq<Byte>, i: nat, size: nat)
    requires blob.Length == BYTES_PER_BLOB && i < FIELD_ELEMENTS_PER_BLOB
    requires 31 * i < |data| && size == (if 31 * i + 31 <= |data| then 31 else |data| - 31 * i)
    requires forall j :: 0 <= j < BYTES_PER_BLOB ==> blob[j] == PackedByte(data, i, j)
    modifies blob
    ensures forall j :: 0 <= j < BYTES_PER_BLOB ==> blob[j] == PackedByte(data, i + 1, j)
  {
    var start := 32 * i + 1;
    blob[32 * i] := 0;
    for c := 0 to size
      invariant forall j :: 0 <= j < BYTES_PER_BLOB && !(start <= j < start + c) ==> blob[j] == PackedByte(data, i, j)
      invariant forall j :: start <= j < start + c ==> blob[j] == data[31 * i + (j - start)]
    {
      blob[start + c] := data[31 * i + c];
    }
    forall j | 0 <= j < BYTES_PER_BLOB ensures blob[j] == PackedByte(data, i + 1, j) {
      if 32 * i <= j < 32 * i + 32 {
        assert j / 32 == i && j % 32 == j - 32 * i;
      }
    }
  }

  // --- Reading a blob back ---

  /** Stripping the first byte of every field element. */
  function Unpack(blob: seq<Byte>): (r: seq<Byte>)
    requires |blob| == BYTES_PER_BLOB
    ensures |r| == PAYLOAD
  {
    seq(PAYLOAD, p requires 0 <= p < PAYLOAD => blob[32 * (p / 31) + p % 31 + 1])
  }

  /** Packing and stripping gives back the leaves followed by zeros. */
  lemma UnpackPacked(blob: seq<Byte>, data: seq<Byte>)
    requires |data| <= PAYLOAD && Packed(blob, data, Elements(|data|))
    ensures Unpack(blob)[..|data|] == data
    ensures forall p :: |data| <= p < PAYLOAD ==> Unpack(blob)[p] == 0
  {
    forall p | 0 <= p < PAYLOAD ensures Unpack(blob)[p] == if p < |data| then data[p] else 0 {
      UnpackAt(blob, data, p);
    }
  }

  lemma UnpackAt(blob: seq<Byte>, data: seq<Byte>, p: nat)
    requires |data| <= PAYLOAD && Packed(blob, data, Elements(|data|)) && p < PAYLOAD
    ensures Unpack(blob)[p] == if p < |data| then data[p] else 0
  {
    var j := 32 * (p / 31) + p % 31 + 1;
    assert j / 32 == p / 31 && j % 32 == p % 31 + 1;
    assert blob[j] == PackedByte(data, Elements(|data|), j);
  }

  const ZERO_LEAF: Leaf := seq(32, _ => 0)

  /** Two leaf lists with the same blob are equal up to trailing zero leaves: the shorter is a prefix of the longer,
  whose other leaves are zero. */
  lemma BlobDeterminesLeaves(blob: seq<Byte>, leaves: seq<Leaf>, others: seq<Leaf>)
    requires |leaves| <= |others| <= 3968
    requires Packed(blob, Flatten(leaves), Elements(32 * |leaves|))
    requires Packed(blob, Flatten(others), Elements(32 * |others|))
    ensures others[..|leaves|] == leaves
    ensures forall i :: |leaves| <= i < |others| ==> others[i] == ZERO_LEAF
  {
    var n := |leaves|;
    UnpackPacked(blob, Flatten(leaves));
    UnpackPacked(blob, Flatten(others));
    FlattenPrefix(others, n);
    assert Flatten(others[..n]) == Unpack(blob)[..32 * n];
    FlattenInjective(leaves, others[..n]);
    forall i | n <= i < |others| ensures others[i] == ZERO_LEAF {
      LeafAt(others, i);
      forall p | 0 <= p < 32 ensures others[i][p] ==
          0 { assert Flatten(others)[32 * i + p] == Unpack(blob)[32 * i + p]; }
    }
  }

  lemma {:induction false} FlattenPrefix(leaves: seq<Leaf>, n: nat)
    requires n <= |leaves|
    ensures Flatten(leaves)[..32 * n] == Flatten(leaves[..n])
  {
    if n < |leaves| {
      var most := leaves[..|leaves| - 1];
      FlattenPrefix(most, n);
      assert most[..n] == leaves[..n];
    } else {
      assert leaves[..n] == leaves;
    }
  }

  lemma LeafAt(leaves: seq<Leaf>, i: nat)
    requires i < |leaves|
    ensures forall p :: 0 <= p < 32 ==> Flatten(leaves)[32 * i + p] == leaves[i][p]
  {
    FlattenPrefix(leaves, i + 1);
    var most := leaves[..i + 1];
    assert most[..i] == leaves[..i];
    assert Flatten(most) == Flatten(most[..i]) + leaves[i];
    forall p | 0 <= p < 32 ensures Flatten(leaves)[32 * i + p] == leaves[i][p] {
      assert Flatten(leaves)[..32 * (i + 1)][32 * i + p] == Flatten(most)[32 * i + p];
    }
  }

  lemma {:induction false} FlattenInjective(l: seq<Leaf>, m: seq<Leaf>)
    requires |l| == |m| && Flatten(l) == Flatten(m)
    ensures l == m
  {
    if l != [] {
      var n := |l| - 1;
      assert Flatten(l)[..32 * n] == Flatten(l[..n]) && Flatten(l)[32 * n..] == l[n];
      assert Flatten(m)[..32 * n] == Flatten(m[..n]) && Flatten(m)[32 * n..] == m[n];
      FlattenInjective(l[..n], m[..n]);
      assert l == l[..n] + [l[n]] && m == m[..n] + [m[n]];
    }
  }

  // --- Field elements ---

  /** The big-endian value of a byte string. */
  function Value(s: seq<Byte>): nat {
    if s == [] then 0 else 256 * Value(s[..|s| - 1]) + s[|s| - 1]
  }

  function Pow256(n: nat): nat {
    if n == 0 then 1 else 256 * Pow256(n - 1)
  }

  lemma {:induction false} LeadingZero(s: seq<Byte>)
    requires s != [] && s[0] == 0
    ensures Value(s) < Pow256(|s| - 1)
  {
    var n := |s| - 1;
    if n == 0 {
      assert Value(s[..0]) == 0;
    } else {
      LeadingZero(s[..n]);
      assert s[..n][0] == 0;
    }
  }

  /** Every field element of the blob is canonical: below 2^248 and so below the field's order. */
  lemma ElementsAreCanonical(blob: seq<Byte>, data: seq<Byte>, used: nat, i: nat)
    requires Packed(blob, data, used) && i < FIELD_ELEMENTS_PER_BLOB
    ensures 32 * i + 32 <= |blob| && Value(blob[32 * i..32 * i + 32]) < Pow256(31) < BLS_MODULUS
  {
    assert blob[32 * i] == PackedByte(data, used, 32 * i);
    assert (32 * i) % 32 == 0;
    LeadingZero(blob[32 * i..32 * i + 32]);
    ModulusIsLarge();
  }

  lemma ModulusIsLarge()
    ensures Pow256(31) < BLS_MODULUS
  {
    assert Pow256(8) == 0x1_0000_0000_0000_0000;
    assert Pow256(16) == 0x1_0000_0000_0000_0000_0000_0000_0000_0000;
    assert Pow256(24) == 0x1_0000_0000_0000_0000_0000_0000_0000_0000_0000_0000_0000_0000;
  }
}
