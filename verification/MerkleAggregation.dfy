/** Two-level proof aggregation (aggregation_mode): chunk roots, the guest programs' assertions, and what a
Merkle root under the order-insensitive pair hash commits to.

A node is a 32-byte string, represented by its big-endian value, so that the byte-wise comparison of the source
is the order of naturals. The hash is any function `h` of two nodes; no property of it is assumed. Where the
source relies on collision resistance, the results below exhibit a collision of `h` instead. */
module MerkleAggregation {
  import opened Basics

  type Node = nat

  type Hash = (Node, Node) -> Node

  /** Two different inputs of the hash with one output. */
  datatype Collision = Collision(a: Node, b: Node, c: Node, d: Node)

  predicate IsCollision(h: Hash, x: Collision) {
    (x.a, x.b) != (x.c, x.d) && h(x.a, x.b) == h(x.c, x.d)
  }

  /** `hash_new_parent`: the smaller child is hashed first. */
  function Parent(h: Hash, left: Node, right: Node): Node {
    if left < right then h(left, right) else h(right, left)
  }

  /** The root of a perfect tree. */
  function Root(h: Hash, height: nat, leaves: seq<Node>): Node
    requires |leaves| == Pow2(height)
  {
    if height == 0 then leaves[0] else
      var half := Pow2(height - 1);
      Parent(h, Root(h, height - 1, leaves[..half]), Root(h, height - 1, leaves[half..]))
  }

  // --- What a root binds ---

  /** The two lists are the leaves of one tree up to swapping the children of some nodes. */
  ghost predicate SwapEqual(height: nat, l: seq<Node>, m: seq<Node>)
    requires |l| == Pow2(height) && |m| == Pow2(height)
  {
    if height == 0 then l == m else
      var half := Pow2(height - 1);
      || (SwapEqual(height - 1, l[..half], m[..half]) && SwapEqual(height - 1, l[half..], m[half..]))
      || (SwapEqual(height - 1, l[..half], m[half..]) && SwapEqual(height - 1, l[half..], m[..half]))
  }

  /** Equal parents have equal children, in one order or the other, or give a collision. */
  lemma ParentBinds(h: Hash, a: Node, b: Node, c: Node, d: Node) returns (x: Option<Collision>)
    requires Parent(h, a, b) == Parent(h, c, d)
    ensures x.None? ==> (a == c && b == d) || (a == d && b == c)
    ensures x.Some? ==> IsCollision(h, x.value)
  {
    var p, q := if a < b then a else b, if a < b then b else a;
    var r, s := if c < d then c else d, if c < d then d else c;
    x := if (p, q) == (r, s) then None else Some(Collision(p, q, r, s));
  }

  /** Two lists of the same power-of-two length with the same root are swap-equal, or the proof finds a collision. */
  lemma {:induction false} RootBinds(h: Hash, height: nat, l: seq<Node>, m: seq<Node>) returns (x: Option<Collision>)
    requires |l| == Pow2(height) && |m| == Pow2(height) && Root(h, height, l) == Root(h, height, m)
    ensures x.None? ==> SwapEqual(height, l, m)
    ensures x.Some? ==> IsCollision(h, x.value)
  {
    if height == 0 {
      x := None;
    } else {
      var half := Pow2(height - 1);
      var la, lb, ma, mb := l[..half], l[half..], m[..half], m[half..];
      var n := height - 1;
      x := ParentBinds(h, Root(h, n, la), Root(h, n, lb), Root(h, n, ma), Root(h, n, mb));
      if x.None? {
        if Root(h, n, la) == Root(h, n, ma) && Root(h, n, lb) == Root(h, n, mb) {
          x := RootBinds(h, n, la, ma);
          if x.None? { x := RootBinds(h, n, lb, mb); }
        } else {
          x := RootBinds(h, n, la, mb);
          if x.None? { x := RootBinds(h, n, lb, ma); }
        }
      }
    }
  }

  /** The converse holds of every hash: swapping children never changes the root. */
  lemma {:induction false} SwapKeepsRoot(h: Hash, height: nat, l: seq<Node>, m: seq<Node>)
    requires |l| == Pow2(height) && |m| == Pow2(height) && SwapEqual(height, l, m)
    ensures Root(h, height, l) == Root(h, height, m)
  {
    if height > 0 {
      var half := Pow2(height - 1);
      if SwapEqual(height - 1, l[..half], m[..half]) && SwapEqual(height - 1, l[half..], m[half..]) {
        SwapKeepsRoot(h, height - 1, l[..half], m[..half]);
        SwapKeepsRoot(h, height - 1, l[half..], m[half..]);
      } else {
        SwapKeepsRoot(h, height - 1, l[..half], m[half..]);
        SwapKeepsRoot(h, height - 1, l[half..], m[..half]);
      }
    }
  }

  lemma {:induction false} SwapKeepsLeaves(height: nat, l: seq<Node>, m: seq<Node>)
    requires |l| == Pow2(height) && |m| == Pow2(height) && SwapEqual(height, l, m)
    ensures multiset(l) == multiset(m)
  {
    if height > 0 {
      var half := Pow2(height - 1);
      assert l == l[..half] + l[half..] && m == m[..half] + m[half..];
      if SwapEqual(height - 1, l[..half], m[..half]) && SwapEqual(height - 1, l[half..], m[half..]) {
        SwapKeepsLeaves(height - 1, l[..half], m[..half]);
        SwapKeepsLeaves(height - 1, l[half..], m[half..]);
      } else {
        SwapKeepsLeaves(height - 1, l[..half], m[half..]);
        SwapKeepsLeaves(height - 1, l[half..], m[..half]);
      }
    }
  }

  // --- Inclusion ---

  /** `processProofCalldata`: from a leaf upwards, each node is hashed with its sibling, the smaller first. */
  function Climb(h: Hash, leaf: Node, path: seq<Node>): Node {
    if path == [] then leaf else
      var a, b := Climb(h, leaf, path[..|path| - 1]), path[|path| - 1];
      if a < b then h(a, b) else h(b, a)
  }

  /** Every leaf has a path of siblings, one per level, that climbs to the root. */
  lemma {:induction false} InclusionPath(h: Hash, height: nat, leaves: seq<Node>, i: nat) returns (path: seq<Node>)
    requires |leaves| == Pow2(height) && i < |leaves|
    ensures |path| == height && Climb(h, leaves[i], path) == Root(h, height, leaves)
  {
    if height == 0 {
      path := [];
    } else {
      var half := Pow2(height - 1);
      var below;
      if i < half {
        assert leaves[..half][i] == leaves[i];
        below := InclusionPath(h, height - 1, leaves[..half], i);
        path := below + [Root(h, height - 1, leaves[half..])];
      } else {
        assert leaves[half..][i - half] == leaves[i];
        below := InclusionPath(h, height - 1, leaves[half..], i - half);
        path := below + [Root(h, height - 1, leaves[..half])];
      }
      assert path[..|path| - 1] == below;
    }
  }

  /** A path of that length that climbs to the root starts at a leaf, or a collision is found. */
  lemma {:induction false} ClimbStartsAtLeaf(h: Hash, height: nat, leaves: seq<Node>, leaf: Node, path: seq<Node>)
    returns (x: Option<Collision>)
    requires |leaves| == Pow2(height) && |path| == height && Climb(h, leaf, path) == Root(h, height, leaves)
    ensures x.None? ==> leaf in leaves
    ensures x.Some? ==> IsCollision(h, x.value)
  {
    if height == 0 {
      x := None;
    } else {
      var half := Pow2(height - 1);
      var below := path[..height - 1];
      var left, right := Root(h, height - 1, leaves[..half]), Root(h, height - 1, leaves[half..]);
      var node := Climb(h, leaf, below);
      x := ParentBinds(h, node, path[height - 1], left, right);
      if x.None? {
        if node == left {
          x := ClimbStartsAtLeaf(h, height - 1, leaves[..half], leaf, below);
        } else {
          x := ClimbStartsAtLeaf(h, height - 1, leaves[half..], leaf, below);
        }
      }
    }
  }

  // --- Lists of different length ---

  /** The nodes `depth` levels below the root. */
  function Level(h: Hash, height: nat, leaves: seq<Node>, depth: nat): (r: seq<Node>)
    requires |leaves| == Pow2(height) && depth <= height
    ensures |r| == Pow2(depth)
  {
    if depth == 0 then [Root(h, height, leaves)] else
      var half := Pow2(height - 1);
      Level(h, height - 1, leaves[..half], depth - 1) + Level(h, height - 1, leaves[half..], depth - 1)
  }

  /** The root does not bind the number of leaves: the nodes of every level have the root of the whole tree. */
  lemma {:induction false} RootDoesNotBindLength(h: Hash, height: nat, leaves: seq<Node>, depth: nat)
    requires |leaves| == Pow2(height) && depth <= height
    ensures Root(h, depth, Level(h, height, leaves, depth)) == Root(h, height, leaves)
  {
    if depth > 0 {
      var half := Pow2(height - 1);
      var left, right := Level(h, height - 1, leaves[..half], depth - 1),
          Level(h, height - 1, leaves[half..], depth - 1);
      RootDoesNotBindLength(h, height - 1, leaves[..half], depth - 1);
      RootDoesNotBindLength(h, height - 1, leaves[half..], depth - 1);
      var level := Level(h, height, leaves, depth);
      assert level[..Pow2(depth - 1)] == left && level[Pow2(depth - 1)..] == right;
    }
  }

  /** A list and the leaves of a taller tree with the same root: the list holds the nodes of that tree at its own
  depth, up to swapped children, or a collision is found. */
  lemma RootBindsLevel(h: Hash, depth: nat, l: seq<Node>, height: nat, leaves: seq<Node>) returns (x: Option<Collision>)
    requires |l| == Pow2(depth) && |leaves| == Pow2(height) && depth <= height
    requires Root(h, depth, l) == Root(h, height, leaves)
    ensures x.None? ==> SwapEqual(depth, l, Level(h, height, leaves, depth))
    ensures x.None? ==> multiset(l) == multiset(Level(h, height, leaves, depth))
    ensures x.Some? ==> IsCollision(h, x.value)
  {
    RootDoesNotBindLength(h, height, leaves, depth);
    x := RootBinds(h, depth, l, Level(h, height, leaves, depth));
    if x.None? { SwapKeepsLeaves(depth, l, Level(h, height, leaves, depth)); }
  }

  // --- The guest programs ---

  /** A statement "program `programId` ran with these public inputs". */
  datatype Claim = Claim(programId: nat, publicInputs: nat)

  /** What surrounds the programs: which claims the zkVM accepts, how a claim is committed to, the tree builder
  (without a result for an empty list), and the id of the user-proofs program. */
  datatype Setting = Setting(
    verifies: Claim -> bool,
    commitment: Claim -> Node,
    build: seq<Node> -> Option<Node>,
    userProgram: nat)

  function Commitments(s: Setting, claims: seq<Claim>): (r: seq<Node>)
    ensures |r| == |claims| && forall i :: 0 <= i < |claims| ==> r[i] == s.commitment(claims[i])
  {
    seq(|claims|, i requires 0 <= i < |claims| => s.commitment(claims[i]))
  }

  ghost predicate AllVerify(s: Setting, claims: seq<Claim>) {
    forall i :: 0 <= i < |claims| ==> s.verifies(claims[i])
  }

  /** The user-proofs program: verify every proof, then commit the root; it panics when a proof does not verify or
  when there is none. */
  method UserProofsAggregator(s: Setting, claims: seq<Claim>) returns (r: Option<Node>)
    ensures r.Some? <==> AllVerify(s, claims) && s.build(Commitments(s, claims)).Some?
    ensures r.Some? ==> r == s.build(Commitments(s, claims))
  {
    for i := 0 to |claims|
      invariant forall j :: 0 <= j < i ==> s.verifies(claims[j])
    {
      if !s.verifies(claims[i]) { return None; }
    }
    r := s.build(Commitments(s, claims));
  }

  datatype Chunk = Chunk(claim: Claim, leaves: seq<Node>)

  function AllLeaves(chunks: seq<Chunk>): seq<Node> {
    if chunks == [] then [] else AllLeaves(chunks[..|chunks| - 1]) + chunks[|chunks| - 1].leaves
  }

  /** What the chunk program asserts of one chunk. */
  ghost predicate ChunkHolds(s: Setting, c: Chunk) {
    && c.claim.programId == s.userProgram
    && s.build(c.leaves) == Some(c.claim.publicInputs)
    && s.verifies(c.claim)
  }

  /** The chunk program: every chunk comes from the user-proofs program, its leaves have the committed root, and it
  verifies; the root of all leaves is committed. */
  method ChunkAggregator(s: Setting, chunks: seq<Chunk>) returns (r: Option<Node>)
    ensures r.Some? <==>
              (forall i :: 0 <= i < |chunks| ==> ChunkHolds(s, chunks[i])) && s.build(AllLeaves(chunks)).Some?
    ensures r.Some? ==> r == s.build(AllLeaves(chunks))
  {
    var leaves := [];
    for i := 0 to |chunks|
      invariant forall j :: 0 <= j < i ==> ChunkHolds(s, chunks[j])
      invariant leaves == AllLeaves(chunks[..i])
    {
      var c := chunks[i];
      if c.claim.programId != s.userProgram { return None; }
      var root := s.build(c.leaves);
      if root != Some(c.claim.publicInputs) { return None; }
      assert chunks[..i + 1][..i] == chunks[..i];
      leaves := leaves + c.leaves;
      if !s.verifies(c.claim) { return None; }
    }
    assert chunks[..|chunks|] == chunks;
    r := s.build(leaves);
  }

  // --- Honest aggregation: the two levels equal the flat root ---

  /** The zkVM proves what its programs output, and every non-empty list has a root. */
  ghost predicate Complete(s: Setting) {
    && (forall claims: seq<Claim> :: AllVerify(s, claims) && s.build(Commitments(s, claims)).Some? ==>
          s.verifies(Claim(s.userProgram, s.build(Commitments(s, claims)).value)))
    && (forall l: seq<Node> :: s.build(l).Some? <==> l != [])
  }

  /** `aggregate_proofs`: chunks of `perChunk` proofs are aggregated one by one, then together. For verified proofs
  and every positive chunk size no assertion inside the programs fails and the result is the root that
  `compute_proofs_merkle_root` takes over the flat list, so the mismatch branch is never taken. */
  method AggregateProofs(s: Setting, proofs: seq<Claim>, perChunk: nat) returns (r: Option<Node>)
    requires Complete(s) && AllVerify(s, proofs) && perChunk >= 1
    ensures r == s.build(Commitments(s, proofs))
    ensures r.Some? <==> proofs != []
  {
    var chunks: seq<Chunk> := [];
    var i := 0;
    while i < |proofs|
      invariant i <= |proofs|
      invariant forall j :: 0 <= j < |chunks| ==> ChunkHolds(s, chunks[j])
      invariant AllLeaves(chunks) == Commitments(s, proofs[..i])
      decreases |proofs| - i
    {
      var end := if i + perChunk < |proofs| then i + perChunk else |proofs|;
      var part := proofs[i..end];
      var leaves := Commitments(s, part);
      var root := UserProofsAggregator(s, part);
      assert root.Some?;
      var c := Chunk(Claim(s.userProgram, root.value), leaves);
      AppendChunk(s, proofs, i, end, chunks, c);
      chunks := chunks + [c];
      i := end;
    }
    assert proofs[..|proofs|] == proofs;
    r := ChunkAggregator(s, chunks);
  }

  lemma AppendChunk(s: Setting, proofs: seq<Claim>, i: nat, end: nat, chunks: seq<Chunk>, c: Chunk)
    requires i <= end <= |proofs|
    requires AllLeaves(chunks) == Commitments(s, proofs[..i]) && c.leaves == Commitments(s, proofs[i..end])
    ensures AllLeaves(chunks + [c]) == Commitments(s, proofs[..end])
  {
    assert (chunks + [c])[..|chunks|] == chunks;
    assert proofs[..end] == proofs[..i] + proofs[i..end];
  }

  // --- Dishonest hosts: what an accepted chunk carries ---

  /** `inner` are verified proofs whose commitments have this root: what a verified run of the user-proofs
  program read. */
  ghost predicate IsInner(s: Setting, inner: seq<Claim>, root: Node) {
    AllVerify(s, inner) && s.build(Commitments(s, inner)) == Some(root)
  }

  /** On power-of-two lists the builder is the perfect tree. */
  ghost predicate BuildsPerfectTrees(s: Setting, h: Hash) {
    forall height: nat, l: seq<Node> :: |l| == Pow2(height) ==> s.build(l) == Some(Root(h, height, l))
  }

  /** A leaf is the commitment of a proof that verified. */
  ghost predicate Backed(s: Setting, leaf: Node) {
    exists c: Claim :: s.verifies(c) && s.commitment(c) == leaf
  }

  /** What an accepted chunk's leaves are, next to the commitments that its proof verified: the same, or the nodes of
  one level of the tree over them, or leaves below them. */
  ghost predicate Matches(s: Setting, h: Hash, leaves: seq<Node>, hostHeight: nat, inner: seq<Claim>, height: nat)
    requires |leaves| == Pow2(hostHeight) && |inner| == Pow2(height)
  {
    var verified := Commitments(s, inner);
    if hostHeight <= height then multiset(leaves) == multiset(Level(h, height, verified, hostHeight))
    else multiset(verified) == multiset(Level(h, hostHeight, leaves, height))
  }

  /** For every power-of-two number of leaves from the host and of verified proofs, the shorter list is a level of the
  taller tree, or the hash has a collision, which the proof finds. */
  lemma AcceptedChunkMatches(s: Setting, h: Hash, c: Chunk, hostHeight: nat, inner: seq<Claim>, height: nat)
    returns (x: Option<Collision>)
    requires BuildsPerfectTrees(s, h) && ChunkHolds(s, c) && IsInner(s, inner, c.claim.publicInputs)
    requires |c.leaves| == Pow2(hostHeight) && |inner| == Pow2(height)
    ensures x.Some? ==> IsCollision(h, x.value)
    ensures x.None? ==> Matches(s, h, c.leaves, hostHeight, inner, height)
  {
    var verified := Commitments(s, inner);
    if hostHeight <= height {
      x := RootBindsLevel(h, hostHeight, c.leaves, height, verified);
    } else {
      x := RootBindsLevel(h, height, verified, hostHeight, c.leaves);
    }
  }

  lemma LevelOfLeaves(h: Hash, height: nat, leaves: seq<Node>)
    requires |leaves| == Pow2(height)
    ensures Level(h, height, leaves, height) == leaves
  {
    if height > 0 {
      var half := Pow2(height - 1);
      LevelOfLeaves(h, height - 1, leaves[..half]);
      LevelOfLeaves(h, height - 1, leaves[half..]);
      assert leaves == leaves[..half] + leaves[half..];
    }
  }

  /** With as many leaves as verified proofs, the leaves are exactly the verified commitments. */
  lemma AcceptedChunkIsVerified(s: Setting, h: Hash, c: Chunk, inner: seq<Claim>, height: nat)
    returns (x: Option<Collision>)
    requires BuildsPerfectTrees(s, h) && ChunkHolds(s, c) && IsInner(s, inner, c.claim.publicInputs)
    requires |c.leaves| == Pow2(height) && |inner| == Pow2(height)
    ensures x.Some? ==> IsCollision(h, x.value)
    ensures x.None? ==> multiset(c.leaves) == multiset(Commitments(s, inner)) && forall leaf :: leaf in c.leaves ==>
              Backed(s, leaf)
  {
    var other := Commitments(s, inner);
    x := AcceptedChunkMatches(s, h, c, height, inner, height);
    LevelOfLeaves(h, height, other);
    if x.None? {
      forall leaf | leaf in c.leaves ensures Backed(s, leaf) {
        assert leaf in multiset(c.leaves);
        assert leaf in other;
        var i :| 0 <= i < |other| && other[i] == leaf;
        assert s.verifies(inner[i]) && s.commitment(inner[i]) == leaf;
      }
    }
  }

  /** The chunk program does not compare the numbers: for two verified proofs, a host that lists only the parent of
  their commitments passes every assertion, with a leaf that is no commitment it was given. */
  lemma ParentPassesForALeaf(s: Setting, h: Hash, first: Claim, second: Claim, c: Chunk)
    requires BuildsPerfectTrees(s, h) && s.verifies(first) && s.verifies(second)
    requires var node := Parent(h, s.commitment(first), s.commitment(second));
             c == Chunk(Claim(s.userProgram, node), [node]) && s.verifies(c.claim)
    ensures ChunkHolds(s, c) && IsInner(s, [first, second], c.claim.publicInputs)
  {
    var two := Commitments(s, [first, second]);
    assert two == [s.commitment(first), s.commitment(second)];
    assert two[..1] == [two[0]] && two[1..] == [two[1]];
    assert Pow2(1) == 2 && Pow2(0) == 1;
    assert Root(h, 1, two) == c.claim.publicInputs;
    assert Root(h, 0, c.leaves) == c.claim.publicInputs;
  }

  /** The zkVM is sound for this chunk: some run of the user-proofs program read verified proofs with the chunk's
  root. Both numbers are powers of two; they need not agree. */
  ghost predicate SoundChunk(s: Setting, c: Chunk) {
    exists inner: seq<Claim>, height: nat, hostHeight: nat :: SoundFor(s, c, inner, height, hostHeight)
  }

  ghost predicate SoundFor(s: Setting, c: Chunk, inner: seq<Claim>, height: nat, hostHeight: nat) {
    IsInner(s, inner, c.claim.publicInputs) && |inner| == Pow2(height) && |c.leaves| == Pow2(hostHeight)
  }

  ghost predicate ChunkMatches(s: Setting, h: Hash, c: Chunk) {
    exists inner: seq<Claim>, height: nat, hostHeight: nat ::
      SoundFor(s, c, inner, height, hostHeight) && Matches(s, h, c.leaves, hostHeight, inner, height)
  }

  lemma SoundChunkMatches(s: Setting, h: Hash, c: Chunk) returns (x: Option<Collision>)
    requires BuildsPerfectTrees(s, h) && ChunkHolds(s, c) && SoundChunk(s, c)
    ensures x.Some? ==> IsCollision(h, x.value)
    ensures x.None? ==> ChunkMatches(s, h, c)
  {
    var inner: seq<Claim>, height: nat, hostHeight: nat :| SoundFor(s, c, inner, height, hostHeight);
    x := AcceptedChunkMatches(s, h, c, hostHeight, inner, height);
  }

  /** Whatever power-of-two lists of leaves the host supplies, every accepted chunk matches verified proofs, or a
  collision of the hash is found. */
  lemma AcceptedChunksMatch(s: Setting, h: Hash, chunks: seq<Chunk>) returns (x: Option<Collision>)
    requires BuildsPerfectTrees(s, h)
    requires forall i :: 0 <= i < |chunks| ==> ChunkHolds(s, chunks[i]) && SoundChunk(s, chunks[i])
    ensures x.Some? ==> IsCollision(h, x.value)
    ensures x.None? ==> forall i :: 0 <= i < |chunks| ==> ChunkMatches(s, h, chunks[i])
  {
    x := None;
    var n := 0;
    while n < |chunks| && x.None?
      invariant n <= |chunks| && (x.Some? ==> IsCollision(h, x.value))
      invariant x.None? ==> forall i :: 0 <= i < n ==> ChunkMatches(s, h, chunks[i])
    {
      x := SoundChunkMatches(s, h, chunks[n]);
      n := n + 1;
    }
  }

  /** The host lists as many leaves as the chunk's proof verified. */
  ghost predicate HonestLength(s: Setting, c: Chunk) {
    exists inner: seq<Claim>, height: nat :: SoundFor(s, c, inner, height, height)
  }

  /** When the lengths agree, every leaf below an accepted root is the commitment of a verified proof, or a collision
  is found. */
  lemma {:induction false} AcceptedLeavesAreVerified(s: Setting, h: Hash, chunks: seq<Chunk>)
    returns (x: Option<Collision>)
    requires BuildsPerfectTrees(s, h)
    requires forall i :: 0 <= i < |chunks| ==> ChunkHolds(s, chunks[i]) && HonestLength(s, chunks[i])
    ensures x.Some? ==> IsCollision(h, x.value)
    ensures x.None? ==> forall leaf :: leaf in AllLeaves(chunks) ==> Backed(s, leaf)
  {
    if chunks == [] {
      x := None;
    } else {
      var last, rest := chunks[|chunks| - 1], chunks[..|chunks| - 1];
      x := AcceptedLeavesAreVerified(s, h, rest);
      if x.None? {
        var inner: seq<Claim>, height: nat :| SoundFor(s, last, inner, height, height);
        x := AcceptedChunkIsVerified(s, h, last, inner, height);
      }
    }
  }
}
