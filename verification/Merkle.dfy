/** The Merkle tree under anchored batches (`audit/merkle.rs`).

    The hash is a parameter; what the arguments need of it (no collisions within or across
    the two prefixes) is the predicate `CollisionFree`. */
module Merkle {
  import opened Options
  import opened OpLog

  /** `H(0x00 ++ leaf)` and `H(0x01 ++ left ++ right)`. */
  datatype Hasher = Hasher(leaf: Digest -> Digest, node: (Digest, Digest) -> Digest)

  datatype Side = Left | Right

  datatype Proof = Proof(leafIndex: nat, siblings: seq<(Digest, Side)>)

  const ZERO: Digest := 0

  ghost predicate CollisionFree(h: Hasher) {
    && (forall a, b :: h.leaf(a) == h.leaf(b) ==> a == b)
    && (forall a, b, c, d :: h.node(a, b) == h.node(c, d) ==> a == c && b == d)
    && (forall a, b, c :: h.leaf(a) != h.node(b, c))
  }

  function LeafLayer(h: Hasher, leaves: seq<Digest>): (r: seq<Digest>)
    ensures |r| == |leaves|
  {
    seq<Digest>(|leaves|, i requires 0 <= i < |leaves| => h.leaf(leaves[i]))
  }

  /** The right partner of the left child at `i`: its neighbour, or itself at the odd end. */
  function Partner(layer: seq<Digest>, i: nat): Digest
    requires i < |layer|
  {
    if i + 1 < |layer| then layer[i + 1] else layer[i]
  }

  function Up(h: Hasher, layer: seq<Digest>): (r: seq<Digest>)
    ensures |r| == (|layer| + 1) / 2
  {
    seq<Digest>((|layer| + 1) / 2, i requires 0 <= i < (|layer| + 1) / 2 => h.node(layer[2 * i], Partner(layer, 2 * i)))
  }

  /** The layer `l` levels above the leaf hashes. */
  function Level(h: Hasher, leaves: seq<Digest>, l: nat): seq<Digest> {
    if l == 0 then LeafLayer(h, leaves) else Up(h, Level(h, leaves, l - 1))
  }

  /** The levels below the root, for a list of `n` leaves. */
  function Depth(n: nat): nat {
    if n <= 1 then 0 else 1 + Depth((n + 1) / 2)
  }

  function Root(h: Hasher, leaves: seq<Digest>): Digest {
    if leaves == [] then ZERO
    else DepthIsEnough(h, leaves); Level(h, leaves, Depth(|leaves|))[0]
  }

  function Halved(n: nat, l: nat): nat {
    if l == 0 then n else (Halved(n, l - 1) + 1) / 2
  }

  lemma {:induction false} LevelSize(h: Hasher, leaves: seq<Digest>, l: nat)
    ensures |Level(h, leaves, l)| == Halved(|leaves|, l)
  {
    if l > 0 { LevelSize(h, leaves, l - 1); }
  }

  lemma {:induction false} HalvedShift(n: nat, l: nat)
    ensures Halved(n, l + 1) == Halved((n + 1) / 2, l)
  {
    if l > 0 { HalvedShift(n, l - 1); }
  }

  /** Below the root layer every layer has more than one node; the root layer has one. */
  lemma {:induction false} DepthHalves(n: nat, l: nat)
    requires n > 0 && l <= Depth(n)
    ensures Halved(n, l) > 0
    ensures Halved(n, l) == 1 <==> l == Depth(n)
    decreases l
  {
    if l > 0 {
      DepthHalves((n + 1) / 2, l - 1);
      HalvedShift(n, l - 1);
    }
  }

  lemma DepthIsEnough(h: Hasher, leaves: seq<Digest>)
    requires leaves != []
    ensures |Level(h, leaves, Depth(|leaves|))| == 1
  {
    LevelSize(h, leaves, Depth(|leaves|));
    DepthHalves(|leaves|, Depth(|leaves|));
  }

  method NextLayer(h: Hasher, current: seq<Digest>) returns (next: seq<Digest>)
    ensures next == Up(h, current)
  {
    next := [];
    var i := 0;
    while i < |current|
      invariant 0 <= i <= |current| + 1 && i % 2 == 0
      invariant next == Up(h, current)[..i / 2]
      decreases |current| - i
    {
      assert Up(h, current)[..i / 2 + 1] == Up(h, current)[..i / 2] + [Up(h, current)[i / 2]];
      assert 2 * (i / 2) == i;
      assert Up(h, current)[i / 2] == h.node(current[i], Partner(current, i));
      var left := current[i];
      var right := if i + 1 < |current| then current[i + 1] else left;
      next := next + [h.node(left, right)];
      i := i + 2;
    }
  }

  method BuildLevels(h: Hasher, leaves: seq<Digest>) returns (levels: seq<seq<Digest>>)
    ensures |levels| == Depth(|leaves|) + 1 && AreLevels(h, leaves, levels)
  {
    levels := [LeafLayer(h, leaves)];
    while |levels[|levels| - 1]| > 1
      invariant 1 <= |levels| <= Depth(|leaves|) + 1 && AreLevels(h, leaves, levels)
      decreases Depth(|leaves|) + 1 - |levels|
    {
      var next := NextLayer(h, levels[|levels| - 1]);
      LevelsPush(h, leaves, levels, next);
      levels := levels + [next];
    }
    TallestIsRoot(h, leaves, |levels| - 1);
  }

  ghost predicate AreLevels(h: Hasher, leaves: seq<Digest>, levels: seq<seq<Digest>>) {
    forall l :: 0 <= l < |levels| ==> levels[l] == Level(h, leaves, l)
  }

  lemma LevelsPush(h: Hasher, leaves: seq<Digest>, levels: seq<seq<Digest>>, next: seq<Digest>)
    requires 1 <= |levels| <= Depth(|leaves|) + 1 && AreLevels(h, leaves, levels)
    requires |levels[|levels| - 1]| > 1 && next == Up(h, levels[|levels| - 1])
    ensures |levels| <= Depth(|leaves|) && AreLevels(h, leaves, levels + [next])
  {
    TallestIsRoot(h, leaves, |levels| - 1);
  }

  /** A layer within the depth is the root layer exactly when it has at most one node. */
  lemma TallestIsRoot(h: Hasher, leaves: seq<Digest>, l: nat)
    requires l <= Depth(|leaves|)
    ensures |Level(h, leaves, l)| <= 1 <==> l == Depth(|leaves|)
  {
    LevelSize(h, leaves, l);
    if leaves != [] { DepthHalves(|leaves|, l); }
  }

  method MerkleRoot(h: Hasher, leaves: seq<Digest>) returns (root: Digest)
    ensures root == Root(h, leaves)
  {
    if leaves == [] { return ZERO; }
    var levels := BuildLevels(h, leaves);
    DepthIsEnough(h, leaves);
    root := levels[|levels| - 1][0];
  }

  /** The smallest trees, written out: zero for no leaves, and an odd node paired with itself. */
  lemma SmallRoots(h: Hasher, a: Digest, b: Digest, c: Digest)
    ensures Root(h, []) == 0 && Root(h, [a]) == h.leaf(a)
    ensures Root(h, [a, b]) == h.node(h.leaf(a), h.leaf(b))
    ensures Root(h, [a, b, c]) == h.node(h.node(h.leaf(a), h.leaf(b)), h.node(h.leaf(c), h.leaf(c)))
  {
    var x, y := [a], [a, b];
    assert Depth(1) == 0 && Depth(2) == 1;
    assert Level(h, x, 0) == [h.leaf(a)];
    assert Level(h, y, 0) == [h.leaf(a), h.leaf(b)];
    UpPair(h, h.leaf(a), h.leaf(b));
    assert Level(h, y, 1) == Up(h, Level(h, y, 0));
    ThreeLeaves(h, a, b, c);
  }

  lemma ThreeLeaves(h: Hasher, a: Digest, b: Digest, c: Digest)
    ensures Root(h, [a, b, c]) == h.node(h.node(h.leaf(a), h.leaf(b)), h.node(h.leaf(c), h.leaf(c)))
  {
    var z, bottom := [a, b, c], [h.leaf(a), h.leaf(b), h.leaf(c)];
    var middle := [h.node(h.leaf(a), h.leaf(b)), h.node(h.leaf(c), h.leaf(c))];
    assert Depth(3) == 1 + Depth(2) == 2;
    assert Level(h, z, 0) == bottom;
    UpTriple(h, h.leaf(a), h.leaf(b), h.leaf(c));
    assert Level(h, z, 1) == Up(h, Level(h, z, 0)) == Up(h, bottom) == middle;
    UpPair(h, middle[0], middle[1]);
    assert middle == [middle[0], middle[1]];
    assert Level(h, z, 2) == Up(h, Level(h, z, 1)) == Up(h, middle);
  }

  lemma UpPair(h: Hasher, x: Digest, y: Digest)
    ensures Up(h, [x, y]) == [h.node(x, y)]
  {
    assert |Up(h, [x, y])| == 1 && Up(h, [x, y])[0] == h.node([x, y][0], Partner([x, y], 0));
  }

  lemma UpTriple(h: Hasher, x: Digest, y: Digest, z: Digest)
    ensures Up(h, [x, y, z]) == [h.node(x, y), h.node(z, z)]
  {
    var layer, up := [x, y, z], Up(h, [x, y, z]);
    assert |up| == 2 && up[0] == h.node(layer[0], Partner(layer, 0)) && up[1] == h.node(layer[2], Partner(layer, 2));
  }

  /** The position of leaf `i`'s ancestor `l` levels up. */
  function Ancestor(i: nat, l: nat): nat {
    if l == 0 then i else Ancestor(i, l - 1) / 2
  }

  lemma {:induction false} AncestorInRange(n: nat, i: nat, l: nat)
    requires i < n
    ensures Ancestor(i, l) < Halved(n, l)
  {
    if l > 0 { AncestorInRange(n, i, l - 1); }
  }

  function Combine(h: Hasher, node: Digest, step: (Digest, Side)): Digest {
    if step.1 == Left then h.node(step.0, node) else h.node(node, step.0)
  }

  function Climb(h: Hasher, node: Digest, siblings: seq<(Digest, Side)>): Digest {
    if siblings == [] then node
    else Combine(h, Climb(h, node, siblings[..|siblings| - 1]), siblings[|siblings| - 1])
  }

  /** A step names the true sibling of position `p`; a lone node may be on either side of itself. */
  predicate StepAt(layer: seq<Digest>, p: nat, step: (Digest, Side)) {
    && p < |layer|
    && if step.1 == Left
       then (p % 2 == 1 && step.0 == layer[p - 1]) || (p % 2 == 0 && p + 1 == |layer| && step.0 == layer[p])
       else p % 2 == 0 && step.0 == Partner(layer, p)
  }

  ghost predicate PathOf(h: Hasher, leaves: seq<Digest>, i: nat, siblings: seq<(Digest, Side)>) {
    forall l :: 0 <= l < |siblings| ==> StepAt(Level(h, leaves, l), Ancestor(i, l), siblings[l])
  }

  lemma StepUp(h: Hasher, layer: seq<Digest>, p: nat, step: (Digest, Side))
    requires StepAt(layer, p, step)
    ensures Combine(h, layer[p], step) == Up(h, layer)[p / 2]
  {
    var j := p / 2;
    assert p == 2 * j + p % 2;
    assert Up(h, layer)[j] == h.node(layer[2 * j], Partner(layer, 2 * j));
  }

  lemma StepDown(h: Hasher, layer: seq<Digest>, j: nat, node: Digest, step: (Digest, Side)) returns (c: nat)
    requires CollisionFree(h) && j < |Up(h, layer)|
    requires Combine(h, node, step) == Up(h, layer)[j]
    ensures c / 2 == j && StepAt(layer, c, step) && layer[c] == node
  {
    assert Up(h, layer)[j] == h.node(layer[2 * j], Partner(layer, 2 * j));
    c := if step.1 == Left && 2 * j + 1 < |layer| then 2 * j + 1 else 2 * j;
  }

  lemma NoLeafIsANode(h: Hasher, leaves: seq<Digest>, k: nat, j: nat, leaf: Digest, siblings: seq<(Digest, Side)>)
    requires CollisionFree(h) && j < |Level(h, leaves, k)|
    requires Climb(h, h.leaf(leaf), siblings) == Level(h, leaves, k)[j]
    ensures siblings == [] <==> k == 0
  {
    if k > 0 {
      var below := Level(h, leaves, k - 1);
      assert Level(h, leaves, k)[j] == h.node(below[2 * j], Partner(below, 2 * j));
    }
  }

  /** A path climbs from leaf `i` through its ancestors. */
  lemma {:induction false} PathClimbs(h: Hasher, leaves: seq<Digest>, i: nat, siblings: seq<(Digest, Side)>)
    requires i < |leaves| && PathOf(h, leaves, i, siblings)
    ensures Ancestor(i, |siblings|) < |Level(h, leaves, |siblings|)|
    ensures Climb(h, h.leaf(leaves[i]), siblings) == Level(h, leaves, |siblings|)[Ancestor(i, |siblings|)]
  {
    var k := |siblings|;
    AncestorInRange(|leaves|, i, k);
    LevelSize(h, leaves, k);
    if k > 0 {
      PathClimbs(h, leaves, i, siblings[..k - 1]);
      StepUp(h, Level(h, leaves, k - 1), Ancestor(i, k - 1), siblings[k - 1]);
    }
  }

  /** One layer down from what climbs to a node. */
  lemma ClimbDown(h: Hasher, leaves: seq<Digest>, k: nat, j: nat, leaf: Digest, siblings: seq<(Digest, Side)>)
    returns (c: nat)
    requires CollisionFree(h) && k > 0 && siblings != [] && j < |Level(h, leaves, k)|
    requires Climb(h, h.leaf(leaf), siblings) == Level(h, leaves, k)[j]
    ensures c < |Level(h, leaves, k - 1)| && c / 2 == j
    ensures StepAt(Level(h, leaves, k - 1), c, siblings[|siblings| - 1])
    ensures Climb(h, h.leaf(leaf), siblings[..|siblings| - 1]) == Level(h, leaves, k - 1)[c]
  {
    var n := |siblings| - 1;
    c := StepDown(h, Level(h, leaves, k - 1), j, Climb(h, h.leaf(leaf), siblings[..n]), siblings[n]);
  }

  /** Under a collision-free hash, what climbs to a node of layer `k` is a leaf below it by its
      own path: the number of steps, every sibling and the leaf are forced. */
  lemma {:induction false} ClimbersArePaths(h: Hasher, leaves: seq<Digest>, k: nat, j: nat, leaf: Digest,
                                            siblings: seq<(Digest, Side)>)
    returns (i: nat)
    requires CollisionFree(h) && j < |Level(h, leaves, k)|
    requires Climb(h, h.leaf(leaf), siblings) == Level(h, leaves, k)[j]
    ensures |siblings| == k && i < |leaves| && leaves[i] == leaf && Ancestor(i, k) == j
    ensures PathOf(h, leaves, i, siblings)
    decreases k
  {
    NoLeafIsANode(h, leaves, k, j, leaf, siblings);
    if k == 0 {
      i := j;
    } else {
      var n := |siblings| - 1;
      var c := ClimbDown(h, leaves, k, j, leaf, siblings);
      i := ClimbersArePaths(h, leaves, k - 1, c, leaf, siblings[..n]);
      PathPush(h, leaves, i, siblings);
    }
  }

  lemma PathPush(h: Hasher, leaves: seq<Digest>, i: nat, siblings: seq<(Digest, Side)>)
    requires siblings != [] && PathOf(h, leaves, i, siblings[..|siblings| - 1])
    requires StepAt(Level(h, leaves, |siblings| - 1), Ancestor(i, |siblings| - 1), siblings[|siblings| - 1])
    ensures PathOf(h, leaves, i, siblings)
  {
    var n := |siblings| - 1;
    forall l | 0 <= l < |siblings| ensures StepAt(Level(h, leaves, l), Ancestor(i, l), siblings[l]) {
      if l < n { assert siblings[..n][l] == siblings[l]; }
    }
  }

  method InclusionProof(h: Hasher, leaves: seq<Digest>, leafIndex: nat) returns (proof: Option<Proof>)
    ensures proof == None <==> leafIndex >= |leaves|
    ensures proof.Some? ==> proof.value.leafIndex == leafIndex
    ensures proof.Some? ==>
            |proof.value.siblings| == Depth(|leaves|) && PathOf(h, leaves, leafIndex, proof.value.siblings)
    ensures proof.Some? ==> Climb(h, h.leaf(leaves[leafIndex]), proof.value.siblings) == Root(h, leaves)
  {
    if leafIndex >= |leaves| { return None; }
    var levels := BuildLevels(h, leaves);
    var siblings: seq<(Digest, Side)> := [];
    var index := leafIndex;
    for l := 0 to |levels| - 1
      invariant |siblings| == l && index == Ancestor(leafIndex, l)
      invariant PathOf(h, leaves, leafIndex, siblings)
    {
      var layer := levels[l];
      AncestorInRange(|leaves|, leafIndex, l);
      LevelSize(h, leaves, l);
      var step := if index % 2 == 1 then (layer[index - 1], Left)
        else (if index + 1 < |layer| then layer[index + 1] else layer[index], Right);
      assert StepAt(Level(h, leaves, l), Ancestor(leafIndex, l), step);
      siblings := siblings + [step];
      index := index / 2;
    }
    FullPathClimbs(h, leaves, leafIndex, siblings);
    proof := Some(Proof(leafIndex, siblings));
  }

  method VerifyProof(h: Hasher, root: Digest, leaf: Digest, proof: Proof) returns (ok: bool)
    ensures ok <==> Climb(h, h.leaf(leaf), proof.siblings) == root
  {
    var node := h.leaf(leaf);
    for l := 0 to |proof.siblings|
      invariant node == Climb(h, h.leaf(leaf), proof.siblings[..l])
    {
      assert proof.siblings[..l + 1][..l] == proof.siblings[..l];
      var (sibling, side) := proof.siblings[l];
      node := if side == Left then h.node(sibling, node) else h.node(node, sibling);
    }
    assert proof.siblings[..|proof.siblings|] == proof.siblings;
    ok := node == root;
  }

  ghost predicate Included(h: Hasher, leaves: seq<Digest>, leaf: Digest, siblings: seq<(Digest, Side)>) {
    exists i :: 0 <= i < |leaves| && leaves[i] == leaf && PathOf(h, leaves, i, siblings)
  }

  lemma IncludedIsAccepted(h: Hasher, leaves: seq<Digest>, leaf: Digest, siblings: seq<(Digest, Side)>)
    requires leaves != [] && |siblings| == Depth(|leaves|) && Included(h, leaves, leaf, siblings)
    ensures Climb(h, h.leaf(leaf), siblings) == Root(h, leaves)
  {
    var i :| 0 <= i < |leaves| && leaves[i] == leaf && PathOf(h, leaves, i, siblings);
    FullPathClimbs(h, leaves, i, siblings);
  }

  lemma FullPathClimbs(h: Hasher, leaves: seq<Digest>, i: nat, siblings: seq<(Digest, Side)>)
    requires i < |leaves| && |siblings| == Depth(|leaves|) && PathOf(h, leaves, i, siblings)
    ensures Climb(h, h.leaf(leaves[i]), siblings) == Root(h, leaves)
  {
    PathClimbs(h, leaves, i, siblings);
    DepthIsEnough(h, leaves);
  }

  lemma AcceptedIsIncluded(h: Hasher, leaves: seq<Digest>, leaf: Digest, siblings: seq<(Digest, Side)>)
    requires CollisionFree(h) && leaves != [] && Climb(h, h.leaf(leaf), siblings) == Root(h, leaves)
    ensures |siblings| == Depth(|leaves|) && Included(h, leaves, leaf, siblings)
  {
    DepthIsEnough(h, leaves);
    var i := ClimbersArePaths(h, leaves, Depth(|leaves|), 0, leaf, siblings);
  }

  /** Verification is exact: against the root of a batch, a leaf is accepted with a sibling list
      if and only if the leaf is in the batch and the list is the full path of one of its places. */
  lemma AcceptedIffIncluded(h: Hasher, leaves: seq<Digest>, leaf: Digest, siblings: seq<(Digest, Side)>)
    requires CollisionFree(h) && leaves != []
    ensures Climb(h, h.leaf(leaf), siblings) == Root(h, leaves) <==>
            |siblings| == Depth(|leaves|) && Included(h, leaves, leaf, siblings)
  {
    if Climb(h, h.leaf(leaf), siblings) == Root(h, leaves) { AcceptedIsIncluded(h, leaves, leaf, siblings); }
    else if |siblings| == Depth(|leaves|) && Included(h, leaves, leaf, siblings) {
      IncludedIsAccepted(h, leaves, leaf, siblings);
    }
  }

  lemma UpInjective(h: Hasher, a: seq<Digest>, b: seq<Digest>)
    requires CollisionFree(h) && |a| == |b| && Up(h, a) == Up(h, b)
    ensures a == b
  {
    forall i | 0 <= i < |a| ensures a[i] == b[i] {
      var j := i / 2;
      assert Up(h, a)[j] == h.node(a[2 * j], Partner(a, 2 * j));
      assert Up(h, b)[j] == h.node(b[2 * j], Partner(b, 2 * j));
    }
  }

  lemma {:induction false} LevelsInjective(h: Hasher, a: seq<Digest>, b: seq<Digest>, l: nat)
    requires CollisionFree(h) && |a| == |b| && Level(h, a, l) == Level(h, b, l)
    ensures a == b
  {
    if l == 0 {
      forall i | 0 <= i < |a| ensures a[i] == b[i] {
        assert LeafLayer(h, a)[i] == h.leaf(a[i]) && LeafLayer(h, b)[i] == h.leaf(b[i]);
      }
    } else {
      LevelSize(h, a, l - 1);
      LevelSize(h, b, l - 1);
      UpInjective(h, Level(h, a, l - 1), Level(h, b, l - 1));
      LevelsInjective(h, a, b, l - 1);
    }
  }

  /** A root commits to the whole batch of a given size, contents and order. */
  lemma RootCommits(h: Hasher, a: seq<Digest>, b: seq<Digest>)
    requires CollisionFree(h) && |a| == |b|
    ensures Root(h, a) == Root(h, b) <==> a == b
  {
    if a != [] && Root(h, a) == Root(h, b) {
      DepthIsEnough(h, a);
      DepthIsEnough(h, b);
      assert Level(h, a, Depth(|a|)) == Level(h, b, Depth(|a|));
      LevelsInjective(h, a, b, Depth(|a|));
    }
  }

  ghost predicate Distinct(leaves: seq<Digest>) {
    forall i, j :: 0 <= i < j < |leaves| ==> leaves[i] != leaves[j]
  }

  /** Every leaf has a path of any length. */
  lemma {:induction false} PathExists(h: Hasher, leaves: seq<Digest>, i: nat, k: nat)
    returns (siblings: seq<(Digest, Side)>)
    requires i < |leaves|
    ensures |siblings| == k && PathOf(h, leaves, i, siblings)
  {
    if k == 0 {
      siblings := [];
    } else {
      var below := PathExists(h, leaves, i, k - 1);
      var layer, p := Level(h, leaves, k - 1), Ancestor(i, k - 1);
      AncestorInRange(|leaves|, i, k - 1);
      LevelSize(h, leaves, k - 1);
      var step := if p % 2 == 1 then (layer[p - 1], Left) else (Partner(layer, p), Right);
      siblings := below + [step];
      assert siblings[..k - 1] == below;
      PathPush(h, leaves, i, siblings);
    }
  }

  /** Batches with one root have the same leaves. */
  lemma SameRootSameLeaves(h: Hasher, a: seq<Digest>, b: seq<Digest>, i: nat)
    requires CollisionFree(h) && b != [] && i < |a| && Root(h, a) == Root(h, b)
    ensures a[i] in b
  {
    var siblings := PathExists(h, a, i, Depth(|a|));
    FullPathClimbs(h, a, i, siblings);
    AcceptedIsIncluded(h, b, a[i], siblings);
  }

  lemma {:induction false} DistinctFits(a: seq<Digest>, b: set<Digest>)
    requires Distinct(a) && forall i :: 0 <= i < |a| ==> a[i] in b
    ensures |a| <= |b|
  {
    if a != [] {
      var n := |a| - 1;
      assert forall i :: 0 <= i < n ==> a[i] != a[n];
      DistinctFits(a[..n], b - {a[n]});
    }
  }

  function LeafSet(b: seq<Digest>): set<Digest> { set x | x in b }

  lemma {:induction false} SetFits(b: seq<Digest>)
    ensures |LeafSet(b)| <= |b|
  {
    if b != [] {
      var n := |b| - 1;
      SetFits(b[..n]);
      assert LeafSet(b) == LeafSet(b[..n]) + {b[n]};
    }
  }

  lemma NotLonger(h: Hasher, a: seq<Digest>, b: seq<Digest>)
    requires CollisionFree(h) && b != [] && Distinct(a) && Root(h, a) == Root(h, b)
    ensures |a| <= |b|
  {
    forall i | 0 <= i < |a| ensures a[i] in LeafSet(b) { SameRootSameLeaves(h, a, b, i); }
    DistinctFits(a, LeafSet(b));
    SetFits(b);
  }

  /** Op hashes do not repeat, and then the size need not be known: over batches of distinct leaves of
      any sizes a root commits to contents and order. */
  lemma RootCommitsToDistinct(h: Hasher, a: seq<Digest>, b: seq<Digest>)
    requires CollisionFree(h) && a != [] && b != [] && Distinct(a) && Distinct(b)
    ensures Root(h, a) == Root(h, b) <==> a == b
  {
    if Root(h, a) == Root(h, b) {
      NotLonger(h, a, b);
      NotLonger(h, b, a);
      RootCommits(h, a, b);
    }
  }

  lemma {:induction false} LevelsMeet(h: Hasher, a: seq<Digest>, b: seq<Digest>, l: nat)
    requires Level(h, a, 1) == Level(h, b, 1) && l >= 1
    ensures Level(h, a, l) == Level(h, b, l)
  {
    if l > 1 { LevelsMeet(h, a, b, l - 1); }
  }

  /** The size must be known too: repeating the last leaf of any odd batch of more than one
      leaves the root as it was, for every hash. */
  lemma RepeatedTailSameRoot(h: Hasher, leaves: seq<Digest>)
    requires |leaves| > 1 && |leaves| % 2 == 1
    ensures Root(h, leaves + [leaves[|leaves| - 1]]) == Root(h, leaves)
  {
    var more := leaves + [leaves[|leaves| - 1]];
    var a, b := Level(h, leaves, 0), Level(h, more, 0);
    assert Up(h, a) == Up(h, b) by {
      forall j | 0 <= j < |Up(h, a)| ensures Up(h, a)[j] == Up(h, b)[j] {
        assert Partner(a, 2 * j) == Partner(b, 2 * j);
      }
    }
    assert Level(h, leaves, 1) == Up(h, a) && Level(h, more, 1) == Up(h, b);
    assert Depth(|more|) == Depth(|leaves|);
    LevelsMeet(h, leaves, more, Depth(|leaves|));
  }

  // ---------------------------------------------------------------- a collision-free hash exists

  function Power2(n: nat): nat { if n == 0 then 1 else 2 * Power2(n - 1) }

  /** An injective pairing. */
  function Pair(a: nat, b: nat): nat { Power2(a) * (2 * b + 1) }

  lemma {:induction false} PairInjective(a: nat, b: nat, c: nat, d: nat)
    requires Pair(a, b) == Pair(c, d)
    ensures a == c && b == d
    decreases a
  {
    PairSplits(a, b);
    PairSplits(c, d);
    if a > 0 && c > 0 { PairInjective(a - 1, b, c - 1, d); }
  }

  lemma PairSplits(a: nat, b: nat)
    ensures if a == 0 then Pair(a, b) == 2 * b + 1 else Pair(a, b) == 2 * Pair(a - 1, b)
  {
  }

  /** Leaves hash to odd digests and nodes to even ones. */
  lemma CollisionFreeExists() returns (h: Hasher)
    ensures CollisionFree(h)
  {
    h := Hasher((a: Digest) => 2 * a + 1, (a: Digest, b: Digest) => 2 * Pair(a, b));
    forall a, b, c, d | h.node(a, b) == h.node(c, d) ensures a == c && b == d { PairInjective(a, b, c, d); }
    forall a, b, c ensures h.leaf(a) != h.node(b, c) { OddIsNotEven(a, Pair(b, c)); }
  }

  lemma OddIsNotEven(a: nat, b: nat)
    ensures 2 * a + 1 != 2 * b
  {
  }
}
