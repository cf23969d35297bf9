/** One author's hash chain under forks and gaps (`oplog/store.rs`).

    An author's ops link by `prev` into a forest hanging from `GENESIS_PREV`. A verified
    read keeps the longest genesis-rooted branch and quarantines the rest. `Selects`
    says which branch that is from the SET of ops alone. */
module AuthorChain {
  import opened OpLog

  /** No op names a descendant: `depth` grows along every link. A preimage-resistant hash
      gives every set of ops such a `depth`. */
  ghost predicate Acyclic(ops: set<Op>, depth: Digest -> nat) {
    forall op :: op in ops ==> depth(op.prev) < depth(op.digest)
  }

  function Children(ops: set<Op>, d: Digest): set<Op> {
    set op | op in ops && op.prev == d
  }

  /** `path` starts at a child of `d` and each op names the previous one. */
  ghost predicate Linked(ops: set<Op>, d: Digest, path: seq<Op>)
    decreases |path|
  {
    path == [] || (path[0] in Children(ops, d) && Linked(ops, path[0].digest, path[1..]))
  }

  /** The longest linked path below `d` has `h` ops. */
  ghost predicate IsHeight(ops: set<Op>, d: Digest, h: nat) {
    && (exists path :: Linked(ops, d, path) && |path| == h)
    && (forall path :: Linked(ops, d, path) ==> |path| <= h)
  }

  /** The tie-break: lower (lamport, op_id, hash). */
  predicate Before(a: Op, b: Op) {
    if a.lamport != b.lamport then a.lamport < b.lamport
    else if a.opId != b.opId then a.opId < b.opId
    else a.digest < b.digest
  }

  /** Of two siblings, `a` wins: a taller subtree, or equally tall and earlier. */
  ghost predicate Preferred(ops: set<Op>, a: Op, b: Op) {
    exists ha, hb ::
      IsHeight(ops, a.digest, ha) && IsHeight(ops, b.digest, hb) && (ha > hb || (ha == hb && Before(a, b)))
  }

  /** `path` is the branch kept below `d`: at every fork the preferred child, down to a leaf. */
  ghost predicate Selects(ops: set<Op>, d: Digest, path: seq<Op>)
    decreases |path|
  {
    if path == [] then Children(ops, d) == {}
    else
      && path[0] in Children(ops, d)
      && (forall o :: o in Children(ops, d) && o != path[0] ==> Preferred(ops, path[0], o))
      && Selects(ops, path[0].digest, path[1..])
  }

  lemma HeightIsUnique(ops: set<Op>, d: Digest, h: nat, k: nat)
    requires IsHeight(ops, d, h) && IsHeight(ops, d, k)
    ensures h == k
  {
  }

  lemma {:induction false} SelectionIsUnique(ops: set<Op>, d: Digest, p: seq<Op>, q: seq<Op>)
    requires Selects(ops, d, p) && Selects(ops, d, q)
    ensures p == q
    decreases |p|
  {
    if p != [] && q != [] {
      if p[0] != q[0] {
        NotBothPreferred(ops, p[0], q[0]);
        assert false;
      }
      SelectionIsUnique(ops, p[0].digest, p[1..], q[1..]);
      assert p == [p[0]] + p[1..] && q == [q[0]] + q[1..];
    }
  }

  lemma NotBothPreferred(ops: set<Op>, a: Op, b: Op)
    requires Preferred(ops, a, b)
    ensures !Preferred(ops, b, a)
  {
    if Preferred(ops, b, a) {
      var ha, hb :| IsHeight(ops, a.digest, ha) && IsHeight(ops, b.digest, hb)
        && (ha > hb || (ha == hb && Before(a, b)));
      var kb, ka :| IsHeight(ops, b.digest, kb) && IsHeight(ops, a.digest, ka)
        && (kb > ka || (kb == ka && Before(b, a)));
      HeightIsUnique(ops, a.digest, ha, ka);
      HeightIsUnique(ops, b.digest, hb, kb);
    }
  }

  /** One level of the height recurrence. */
  lemma HeightStep(ops: set<Op>, d: Digest, h: nat)
    requires h == 0 ==> Children(ops, d) == {}
    requires h > 0 ==> exists c :: c in Children(ops, d) && IsHeight(ops, c.digest, h - 1)
    requires forall c :: c in Children(ops, d) ==> exists k: nat :: k < h && IsHeight(ops, c.digest, k)
    ensures IsHeight(ops, d, h)
  {
    if h > 0 {
      var c :| c in Children(ops, d) && IsHeight(ops, c.digest, h - 1);
      var tail :| Linked(ops, c.digest, tail) && |tail| == h - 1;
      assert ([c] + tail)[1..] == tail;
      assert Linked(ops, d, [c] + tail);
    } else {
      assert Linked(ops, d, []);
    }
    forall path: seq<Op> | Linked(ops, d, path) ensures |path| <= h {
      if path != [] {
        var k: nat :| k < h && IsHeight(ops, path[0].digest, k);
        assert |path[1..]| <= k;
      }
    }
  }

  /** The kept branch is a longest genesis-rooted one: no linked path is longer. */
  lemma {:induction false} SelectionIsLongest(ops: set<Op>, d: Digest, path: seq<Op>)
    requires Selects(ops, d, path)
    ensures Linked(ops, d, path)
    ensures IsHeight(ops, d, |path|)
    decreases |path|
  {
    if path != [] {
      var first := path[0];
      SelectionIsLongest(ops, first.digest, path[1..]);
      forall c | c in Children(ops, d) ensures exists k: nat :: k < |path| && IsHeight(ops, c.digest, k) {
        if c != first {
          var hf, hc :| IsHeight(ops, first.digest, hf) && IsHeight(ops, c.digest, hc)
                        && (hf > hc || (hf == hc && Before(first, c)));
          HeightIsUnique(ops, first.digest, hf, |path| - 1);
        }
      }
    }
    HeightStep(ops, d, |path|);
  }

  // ---------------------------------------------------------------- the algorithm

  /** One author's ops after the read path deduplicated them by hash. */
  ghost predicate Deduplicated(chain: seq<Op>) {
    forall i, j :: 0 <= i < j < |chain| ==> chain[i].digest != chain[j].digest
  }

  function Kids(children: map<Digest, seq<nat>>, d: Digest): seq<nat> {
    if d in children then children[d] else []
  }

  /** `kids` are, in order, the indices below `n` of the ops naming `d`. */
  ghost predicate Lists(chain: seq<Op>, n: nat, d: Digest, kids: seq<nat>) {
    && n <= |chain|
    && (forall k :: 0 <= k < |kids| ==> kids[k] < n && chain[kids[k]].prev == d)
    && Rising(kids)
    && (forall i :: 0 <= i < n && chain[i].prev == d ==> i in kids)
  }

  ghost predicate Rising(kids: seq<nat>) {
    forall k, l :: 0 <= k < l < |kids| ==> kids[k] < kids[l]
  }

  /** `children` lists, for every parent hash, exactly the ops naming it. */
  ghost predicate Indexes(chain: seq<Op>, children: map<Digest, seq<nat>>) {
    && (forall d :: Lists(chain, |chain|, d, Kids(children, d)))
    && (forall d :: d in children ==> children[d] != [])
  }

  lemma ListsMore(chain: seq<Op>, i: nat, d: Digest, kids: seq<nat>)
    requires i < |chain|
    requires Lists(chain, i, d, kids)
    ensures Lists(chain, i + 1, d, if chain[i].prev == d then kids + [i] else kids)
  {
    if chain[i].prev == d { ListsPush(chain, i, d, kids, kids + [i]); }
  }

  lemma ListsPush(chain: seq<Op>, i: nat, d: Digest, kids: seq<nat>, more: seq<nat>)
    requires i < |chain| && chain[i].prev == d && Lists(chain, i, d, kids) && more == kids + [i]
    ensures Lists(chain, i + 1, d, more)
  {
    RisingPush(kids, i);
    forall k | 0 <= k < |more| ensures more[k] < i + 1 && chain[more[k]].prev == d {
      if k < |kids| { assert more[k] == kids[k]; }
    }
    forall j | 0 <= j < i + 1 && chain[j].prev == d ensures j in more {
      if j < i { assert j in kids; } else { assert more[|kids|] == i; }
    }
  }

  lemma RisingPush(kids: seq<nat>, i: nat)
    requires Rising(kids) && forall k :: 0 <= k < |kids| ==> kids[k] < i
    ensures Rising(kids + [i])
  {
  }

  method IndexChildren(chain: seq<Op>) returns (children: map<Digest, seq<nat>>)
    ensures Indexes(chain, children)
  {
    children := map[];
    for i := 0 to |chain|
      invariant forall d :: Lists(chain, i, d, Kids(children, d))
      invariant forall d :: d in children ==> children[d] != []
    {
      var p := chain[i].prev;
      ghost var before := children;
      children := children[p := Kids(children, p) + [i]];
      forall d ensures Lists(chain, i + 1, d, Kids(children, d)) {
        ListsMore(chain, i, d, Kids(before, d));
      }
    }
  }

  lemma KidsAreChildren(chain: seq<Op>, children: map<Digest, seq<nat>>, d: Digest)
    requires Indexes(chain, children)
    ensures forall c :: c in Kids(children, d) ==> c < |chain| && chain[c] in Children(ToSet(chain), d)
    ensures forall op :: op in Children(ToSet(chain), d) ==> exists c :: c in Kids(children, d) && chain[c] == op
  {
    assert Lists(chain, |chain|, d, Kids(children, d));
    forall op | op in Children(ToSet(chain), d) ensures exists c :: c in Kids(children, d) && chain[c] == op {
      var i :| 0 <= i < |chain| && chain[i] == op;
      assert Lists(chain, |chain|, d, Kids(children, d));
    }
  }

  /** The height table entry of op `i` is right: the ops on the tallest path from it, itself included. */
  ghost predicate Measured(chain: seq<Op>, height: seq<nat>, i: nat) {
    i < |chain| == |height| && height[i] > 0 && IsHeight(ToSet(chain), chain[i].digest, height[i] - 1)
  }

  method TallestChild(height: seq<nat>, kids: seq<nat>) returns (tallest: nat)
    requires forall c :: c in kids ==> c < |height|
    ensures forall c :: c in kids ==> height[c] <= tallest
    ensures if kids == [] then tallest == 0 else exists c :: c in kids && height[c] == tallest
  {
    assert forall j :: 0 <= j < |kids| ==> kids[j] in kids;
    tallest := 0;
    for k := 0 to |kids|
      invariant forall j :: 0 <= j < k ==> height[kids[j]] <= tallest
      invariant if k == 0 then tallest == 0 else exists j :: 0 <= j < k && height[kids[j]] == tallest
    {
      if k == 0 || height[kids[k]] > tallest { tallest := height[kids[k]]; }
    }
    if kids != [] {
      var j :| 0 <= j < |kids| && height[kids[j]] == tallest;
      assert kids[j] in kids;
    }
  }

  lemma MeasuredFromChildren(chain: seq<Op>, children: map<Digest, seq<nat>>, height: seq<nat>, i: nat, tallest: nat)
    requires Indexes(chain, children)
    requires i < |chain| == |height|
    requires forall c :: c in Kids(children, chain[i].digest) ==> Measured(chain, height, c)
    requires forall c :: c in Kids(children, chain[i].digest) ==> height[c] <= tallest
    requires if Kids(children, chain[i].digest) == [] then tallest == 0
             else exists c :: c in Kids(children, chain[i].digest) && height[c] == tallest
    ensures IsHeight(ToSet(chain), chain[i].digest, tallest)
  {
    var d, ops := chain[i].digest, ToSet(chain);
    KidsAreChildren(chain, children, d);
    if Kids(children, d) != [] {
      var c :| c in Kids(children, d) && height[c] == tallest;
      assert Measured(chain, height, c);
    }
    forall op | op in Children(ops, d) ensures exists k: nat :: k < tallest && IsHeight(ops, op.digest, k) {
      var c :| c in Kids(children, d) && chain[c] == op;
      assert Measured(chain, height, c);
      assert height[c] - 1 < tallest;
    }
    HeightStep(ops, d, tallest);
  }

  // The depth-first walk: `expanded` ops have been unfolded once, `done` ones also measured.

  ghost predicate OnStack(stack: seq<(nat, bool)>, i: nat) {
    exists p :: 0 <= p < |stack| && stack[p].0 == i
  }

  ghost predicate StackShape(chain: seq<Op>, stack: seq<(nat, bool)>, expanded: set<nat>, done: set<nat>) {
    && (forall p :: 0 <= p < |stack| ==>
       stack[p].0 < |chain| && (stack[p].1 <==> stack[p].0 in expanded) && stack[p].0 !in done)
    && (forall p, q :: 0 <= p < q < |stack| ==> stack[p].0 != stack[q].0)
    && done <= expanded
    && (forall i :: i in expanded ==> i < |chain|)
  }

  /** Whatever the walk has met hangs below genesis, under an expanded parent. */
  ghost predicate Hangs(chain: seq<Op>, expanded: set<nat>, depth: Digest -> nat, i: nat) {
    && i < |chain|
    && depth(GENESIS_PREV) < depth(chain[i].digest)
    && (chain[i].prev == GENESIS_PREV || exists j :: j in expanded && j < |chain| && chain[j].digest == chain[i].prev)
  }

  ghost predicate Met(chain: seq<Op>, stack: seq<(nat, bool)>, expanded: set<nat>, depth: Digest -> nat) {
    && (forall i :: i in expanded ==> Hangs(chain, expanded, depth, i))
    && (forall p :: 0 <= p < |stack| ==> Hangs(chain, expanded, depth, stack[p].0))
  }

  /** Children of an expanded op that are not yet measured lie above it on the stack. */
  ghost predicate Pending(chain: seq<Op>, children: map<Digest, seq<nat>>, stack: seq<(nat, bool)>, done: set<nat>) {
    forall p, c ::
      (0 <= p < |stack| && stack[p].1 && stack[p].0 < |chain|
       && c in Kids(children, chain[stack[p].0].digest) && c !in done) ==>
        exists q :: p < q < |stack| && stack[q].0 == c
  }

  /** Genesis roots and children of measured ops are met, the latter measured. */
  ghost predicate Covers(chain: seq<Op>, children: map<Digest, seq<nat>>, stack: seq<(nat, bool)>, expanded: set<nat>,
                         done: set<nat>) {
    && (forall c :: c in Kids(children, GENESIS_PREV) ==> c in done || OnStack(stack, c))
    && (forall i, c :: i in done && i < |chain| && c in Kids(children, chain[i].digest) ==> c in done)
    && (forall i :: i in expanded ==> i in done || OnStack(stack, i))
  }

  ghost predicate Walking(chain: seq<Op>, children: map<Digest, seq<nat>>, depth: Digest -> nat, height: seq<nat>,
                          stack: seq<(nat, bool)>, expanded: set<nat>, done: set<nat>) {
    && StackShape(chain, stack, expanded, done)
    && Met(chain, stack, expanded, depth)
    && Pending(chain, children, stack, done)
    && Covers(chain, children, stack, expanded, done)
    && (forall i :: i in done ==> Measured(chain, height, i))
  }

  function Marks(kids: seq<nat>): seq<(nat, bool)> {
    seq(|kids|, k requires 0 <= k < |kids| => (kids[k], false))
  }

  /** No expanded op shares the digest of one that is not. */
  lemma OneParent(chain: seq<Op>, expanded: set<nat>, i: nat)
    requires Deduplicated(chain) && i < |chain| && i !in expanded
    ensures forall j :: j in expanded && j < |chain| ==> chain[j].digest != chain[i].digest
  {
  }

  /** A child of an op below genesis that is not expanded hangs under no expanded one. */
  lemma HangsNot(chain: seq<Op>, expanded: set<nat>, depth: Digest -> nat, i: nat, c: nat)
    requires i < |chain| && c < |chain| && chain[c].prev == chain[i].digest
    requires depth(GENESIS_PREV) < depth(chain[i].digest)
    requires forall j :: j in expanded && j < |chain| ==> chain[j].digest != chain[i].digest
    ensures !Hangs(chain, expanded, depth, c)
  {
  }

  lemma NotMetYet(chain: seq<Op>, stack: seq<(nat, bool)>, expanded: set<nat>, depth: Digest -> nat, c: nat)
    requires Met(chain, stack, expanded, depth) && !Hangs(chain, expanded, depth, c)
    ensures c !in expanded && !OnStack(stack, c)
  {
  }

  /** A child of the op being expanded has not been met before: its one parent was not expanded. */
  lemma KidIsNew(chain: seq<Op>, stack: seq<(nat, bool)>, expanded: set<nat>, depth: Digest -> nat, i: nat, c: nat)
    requires Deduplicated(chain) && Met(chain, stack, expanded, depth)
    requires i < |chain| && i !in expanded && depth(GENESIS_PREV) < depth(chain[i].digest)
    requires c < |chain| && chain[c].prev == chain[i].digest && depth(chain[c].prev) < depth(chain[c].digest)
    ensures NewKid(chain, stack, expanded, depth, i, c)
  {
    OneParent(chain, expanded, i);
    HangsNot(chain, expanded, depth, i, c);
    NotMetYet(chain, stack, expanded, depth, c);
  }

  /** What is known of the op on top of the stack. */
  lemma TopIsMet(chain: seq<Op>, stack: seq<(nat, bool)>, expanded: set<nat>, done: set<nat>, depth: Digest -> nat,
                 i: nat)
    requires StackShape(chain, stack, expanded, done) && Met(chain, stack, expanded, depth)
    requires |stack| > 0 && stack[|stack| - 1] == (i, false)
    ensures i < |chain| && i !in expanded && depth(GENESIS_PREV) < depth(chain[i].digest)
  {
    assert Hangs(chain, expanded, depth, stack[|stack| - 1].0);
  }

  /** What is known of a listed child. */
  lemma KidLinks(chain: seq<Op>, children: map<Digest, seq<nat>>, depth: Digest -> nat, d: Digest, c: nat)
    requires Acyclic(ToSet(chain), depth) && Indexes(chain, children) && c in Kids(children, d)
    ensures c < |chain| && chain[c].prev == d && depth(d) < depth(chain[c].digest)
  {
    assert Lists(chain, |chain|, d, Kids(children, d));
    assert chain[c] in ToSet(chain);
  }

  ghost predicate NewKid(chain: seq<Op>, stack: seq<(nat, bool)>, expanded: set<nat>, depth: Digest -> nat, i: nat,
                         c: nat) {
    && i < |chain|
    && c < |chain|
    && chain[c].prev == chain[i].digest
    && c !in expanded
    && !OnStack(stack, c)
    && depth(GENESIS_PREV) < depth(chain[c].digest)
  }

  lemma Expand(chain: seq<Op>, children: map<Digest, seq<nat>>, depth: Digest -> nat, height: seq<nat>,
               stack: seq<(nat, bool)>, expanded: set<nat>, done: set<nat>, i: nat)
    requires Deduplicated(chain) && Acyclic(ToSet(chain), depth) && Indexes(chain, children)
    requires Walking(chain, children, depth, height, stack, expanded, done)
    requires |stack| > 0 && stack[|stack| - 1] == (i, false)
    ensures i !in expanded && i < |chain|
    ensures var kids := Kids(children, chain[i].digest);
            Walking(chain, children, depth, height, stack[..|stack| - 1] + [(i, true)] + Marks(kids), expanded + {i},
              done)
  {
    var kids := Kids(children, chain[i].digest);
    var next := stack[..|stack| - 1] + [(i, true)] + Marks(kids);
    TopIsMet(chain, stack, expanded, done, depth, i);
    assert Lists(chain, |chain|, chain[i].digest, kids);
    forall c | c in kids ensures NewKid(chain, stack, expanded, depth, i, c) {
      KidLinks(chain, children, depth, chain[i].digest, c);
      KidIsNew(chain, stack, expanded, depth, i, c);
    }
    MarksReplace(stack, i, kids);
    ExpandShape(chain, stack, expanded, done, depth, i, kids, next);
    ExpandMet(chain, stack, expanded, depth, i, kids, next);
    ExpandPending(chain, children, stack, done, i, kids, next);
    ExpandCovers(chain, children, stack, expanded, done, i, kids, next);
  }

  lemma MarksReplace(stack: seq<(nat, bool)>, i: nat, kids: seq<nat>)
    requires |stack| > 0 && stack[|stack| - 1] == (i, false)
    ensures Replaces(stack, i, kids, stack[..|stack| - 1] + [(i, true)] + Marks(kids))
  {
  }

  lemma ExpandCovers(chain: seq<Op>, children: map<Digest, seq<nat>>, stack: seq<(nat, bool)>, expanded: set<nat>,
                     done: set<nat>, i: nat, kids: seq<nat>, next: seq<(nat, bool)>)
    requires Covers(chain, children, stack, expanded, done)
    requires Replaces(stack, i, kids, next)
    ensures Covers(chain, children, next, expanded + {i}, done)
  {
    forall c: nat | OnStack(stack, c) ensures OnStack(next, c) {
      var p :| 0 <= p < |stack| && stack[p].0 == c;
      assert next[p].0 == c;
    }
    assert OnStack(next, i) by { assert next[|stack| - 1].0 == i; }
  }

  ghost predicate Replaces(stack: seq<(nat, bool)>, i: nat, kids: seq<nat>, next: seq<(nat, bool)>) {
    && |stack| > 0
    && stack[|stack| - 1] == (i, false)
    && |next| == |stack| + |kids|
    && (forall p :: 0 <= p < |stack| - 1 ==> next[p] == stack[p])
    && next[|stack| - 1] == (i, true)
    && (forall p :: |stack| <= p < |next| ==> next[p] == (kids[p - |stack|], false) && kids[p - |stack|] in kids)
  }

  lemma ExpandShape(chain: seq<Op>, stack: seq<(nat, bool)>, expanded: set<nat>, done: set<nat>, depth: Digest -> nat,
                    i: nat, kids: seq<nat>, next: seq<(nat, bool)>)
    requires StackShape(chain, stack, expanded, done)
    requires Replaces(stack, i, kids, next)
    requires Rising(kids)
    requires forall c :: c in kids ==> NewKid(chain, stack, expanded, depth, i, c)
    ensures StackShape(chain, next, expanded + {i}, done)
  {
    forall p, q | 0 <= p < q < |next| ensures next[p].0 != next[q].0 {
      if p < |stack| <= q { assert OnStack(stack, next[p].0) by { assert stack[p].0 == next[p].0; } }
      if p < q < |stack| { assert stack[p].0 == next[p].0 && stack[q].0 == next[q].0; }
    }
    forall p | 0 <= p < |next|
      ensures next[p].0 < |chain| && (next[p].1 <==> next[p].0 in expanded + {i}) && next[p].0 !in done
    {
      if p >= |stack| { assert OnStack(stack, i) by { assert stack[|stack| - 1].0 == i; } }
    }
  }

  lemma ExpandMet(chain: seq<Op>, stack: seq<(nat, bool)>, expanded: set<nat>, depth: Digest -> nat, i: nat,
                  kids: seq<nat>, next: seq<(nat, bool)>)
    requires Met(chain, stack, expanded, depth)
    requires Replaces(stack, i, kids, next) && i < |chain|
    requires forall c :: c in kids ==> NewKid(chain, stack, expanded, depth, i, c)
    ensures Met(chain, next, expanded + {i}, depth)
  {
    assert Hangs(chain, expanded, depth, stack[|stack| - 1].0);
    forall x: nat | Hangs(chain, expanded, depth, x) ensures Hangs(chain, expanded + {i}, depth, x) {
      if chain[x].prev != GENESIS_PREV {
        var j :| j in expanded && j < |chain| && chain[j].digest == chain[x].prev;
        assert j in expanded + {i};
      }
    }
    forall p | 0 <= p < |next| ensures Hangs(chain, expanded + {i}, depth, next[p].0) {
      if p < |stack| - 1 { assert Hangs(chain, expanded, depth, stack[p].0); }
      else if p >= |stack| { assert i in expanded + {i}; }
    }
  }

  lemma ExpandPending(chain: seq<Op>, children: map<Digest, seq<nat>>, stack: seq<(nat, bool)>, done: set<nat>, i: nat,
                      kids: seq<nat>, next: seq<(nat, bool)>)
    requires Pending(chain, children, stack, done)
    requires Replaces(stack, i, kids, next) && i < |chain| && kids == Kids(children, chain[i].digest)
    ensures Pending(chain, children, next, done)
  {
    forall p, c | 0 <= p < |next| && next[p].1 && next[p].0 < |chain| && c in Kids(children, chain[next[p].0].digest)
      && c !in done
      ensures exists q :: p < q < |next| && next[q].0 == c
    {
      if p == |stack| - 1 {
        var k :| 0 <= k < |kids| && kids[k] == c;
        assert next[|stack| + k].0 == c;
      } else {
        assert p < |stack| - 1;
        var q :| p < q < |stack| && stack[q].0 == c;
        assert next[q].0 == c;
      }
    }
  }

  lemma Finish(chain: seq<Op>, children: map<Digest, seq<nat>>, depth: Digest -> nat, height: seq<nat>,
               stack: seq<(nat, bool)>, expanded: set<nat>, done: set<nat>, i: nat, tallest: nat)
    requires |height| == |chain|
    requires Walking(chain, children, depth, height, stack, expanded, done)
    requires |stack| > 0 && stack[|stack| - 1] == (i, true)
    requires i < |chain| && IsHeight(ToSet(chain), chain[i].digest, tallest)
    requires forall c :: c in Kids(children, chain[i].digest) ==> c in done
    ensures Walking(chain, children, depth, height[i := 1 + tallest], stack[..|stack| - 1], expanded, done + {i})
  {
    var next, measured := stack[..|stack| - 1], height[i := 1 + tallest];
    assert StackShape(chain, next, expanded, done + {i});
    FinishPending(chain, children, stack, done, i);
    FinishCovers(chain, children, stack, expanded, done, i);
    forall x: nat | x in done + {i} ensures Measured(chain, measured, x) {
      if x != i { assert Measured(chain, height, x); }
    }
  }

  lemma FinishPending(chain: seq<Op>, children: map<Digest, seq<nat>>, stack: seq<(nat, bool)>, done: set<nat>, i: nat)
    requires Pending(chain, children, stack, done)
    requires |stack| > 0 && stack[|stack| - 1] == (i, true)
    ensures Pending(chain, children, stack[..|stack| - 1], done + {i})
  {
    var next := stack[..|stack| - 1];
    forall p, c | 0 <= p < |next| && next[p].1 && next[p].0 < |chain| && c in Kids(children, chain[next[p].0].digest)
      && c !in done + {i}
      ensures exists q :: p < q < |next| && next[q].0 == c
    {
      assert stack[p] == next[p];
      var q :| p < q < |stack| && stack[q].0 == c;
      assert next[q].0 == c;
    }
  }

  lemma FinishCovers(chain: seq<Op>, children: map<Digest, seq<nat>>, stack: seq<(nat, bool)>, expanded: set<nat>,
                     done: set<nat>, i: nat)
    requires Covers(chain, children, stack, expanded, done)
    requires |stack| > 0 && stack[|stack| - 1] == (i, true) && i < |chain|
    requires forall c :: c in Kids(children, chain[i].digest) ==> c in done
    ensures Covers(chain, children, stack[..|stack| - 1], expanded, done + {i})
  {
    var next := stack[..|stack| - 1];
    forall c: nat | OnStack(stack, c) && c != i ensures OnStack(next, c) {
      var p :| 0 <= p < |stack| && stack[p].0 == c;
      assert next[p].0 == c;
    }
  }

  /** Top of the stack expanded: all its children are measured. */
  lemma ChildrenDone(chain: seq<Op>, children: map<Digest, seq<nat>>, stack: seq<(nat, bool)>, done: set<nat>, i: nat)
    requires Pending(chain, children, stack, done)
    requires |stack| > 0 && stack[|stack| - 1] == (i, true) && i < |chain|
    ensures forall c :: c in Kids(children, chain[i].digest) ==> c in done
  {
    assert stack[|stack| - 1].1;
  }

  lemma WalkStarts(chain: seq<Op>, children: map<Digest, seq<nat>>, depth: Digest -> nat, height: seq<nat>)
    requires Acyclic(ToSet(chain), depth) && Indexes(chain, children)
    ensures Walking(chain, children, depth, height, Marks(Kids(children, GENESIS_PREV)), {}, {})
  {
    var kids := Kids(children, GENESIS_PREV);
    var stack := Marks(kids);
    assert Lists(chain, |chain|, GENESIS_PREV, kids);
    forall p | 0 <= p < |stack| ensures stack[p] == (kids[p], false) && Hangs(chain, {}, depth, stack[p].0) {
      assert chain[kids[p]] in ToSet(chain);
    }
    forall c | c in kids ensures OnStack(stack, c) {
      var k :| 0 <= k < |kids| && kids[k] == c;
      assert stack[k].0 == c;
    }
  }

  /** Subtree heights by an explicit-stack post-order walk from genesis: right for every op it
      meets, and it meets every root and every child of an op it meets. */
  method Heights(chain: seq<Op>, children: map<Digest, seq<nat>>, ghost depth: Digest -> nat)
    returns (height: seq<nat>, ghost met: set<nat>)
    requires Deduplicated(chain) && Acyclic(ToSet(chain), depth) && Indexes(chain, children)
    ensures |height| == |chain|
    ensures forall i :: i in met ==> Measured(chain, height, i)
    ensures forall c :: c in Kids(children, GENESIS_PREV) ==> c in met
    ensures forall i, c :: i in met && i < |chain| && c in Kids(children, chain[i].digest) ==> c in met
  {
    height := seq(|chain|, _ => 0);
    var stack := Marks(Kids(children, GENESIS_PREV));
    ghost var expanded, done: set<nat> := {}, {};
    ghost var unseen := set i {:trigger i in expanded} | 0 <= i < |chain| && i !in expanded;
    WalkStarts(chain, children, depth, height);
    while stack != []
      invariant |height| == |chain|
      invariant Walking(chain, children, depth, height, stack, expanded, done)
      invariant unseen == set i | 0 <= i < |chain| && i !in expanded
      decreases unseen, |stack|
    {
      var (i, unfolded) := stack[|stack| - 1];
      assert stack[|stack| - 1] == (i, unfolded);
      if unfolded {
        ChildrenDone(chain, children, stack, done, i);
        assert Lists(chain, |chain|, chain[i].digest, Kids(children, chain[i].digest));
        var tallest := TallestChild(height, Kids(children, chain[i].digest));
        MeasuredFromChildren(chain, children, height, i, tallest);
        Finish(chain, children, depth, height, stack, expanded, done, i, tallest);
        height := height[i := 1 + tallest];
        stack := stack[..|stack| - 1];
        done := done + {i};
      } else {
        Expand(chain, children, depth, height, stack, expanded, done, i);
        stack := stack[..|stack| - 1] + [(i, true)] + Marks(Kids(children, chain[i].digest));
        expanded := expanded + {i};
        unseen := unseen - {i};
      }
    }
    met := done;
  }

  function Digests(path: seq<Op>): set<Digest> {
    set op | op in path :: op.digest
  }

  /** The selection rank at a fork: a taller subtree, then the earlier op. */
  predicate Ranks(chain: seq<Op>, height: seq<nat>, a: nat, b: nat)
    requires a < |chain| == |height| && b < |chain|
  {
    height[a] > height[b] || (height[a] == height[b] && Before(chain[a], chain[b]))
  }

  method BestChild(chain: seq<Op>, height: seq<nat>, kids: seq<nat>) returns (best: nat)
    requires Deduplicated(chain) && |height| == |chain|
    requires kids != [] && forall k :: 0 <= k < |kids| ==> kids[k] < |chain|
    ensures best in kids
    ensures forall k :: 0 <= k < |kids| && kids[k] != best ==> Ranks(chain, height, best, kids[k])
  {
    best := kids[0];
    for k := 1 to |kids|
      invariant best in kids[..k]
      invariant forall j :: 0 <= j < k && kids[j] != best ==> Ranks(chain, height, best, kids[j])
    {
      if Ranks(chain, height, kids[k], best) { best := kids[k]; }
    }
  }

  lemma MeasuredPreference(chain: seq<Op>, height: seq<nat>, a: nat, b: nat)
    requires Measured(chain, height, a) && Measured(chain, height, b)
    requires Ranks(chain, height, a, b)
    ensures Preferred(ToSet(chain), chain[a], chain[b])
  {
    assert IsHeight(ToSet(chain), chain[a].digest, height[a] - 1)
           && IsHeight(ToSet(chain), chain[b].digest, height[b] - 1);
  }

  /** Every selection below `e`, put after `path`, is a selection below `d`. */
  ghost predicate Continues(ops: set<Op>, d: Digest, path: seq<Op>, e: Digest) {
    forall rest :: Selects(ops, e, rest) ==> Selects(ops, d, path + rest)
  }

  lemma ContinuesFurther(ops: set<Op>, d: Digest, path: seq<Op>, e: Digest, op: Op)
    requires Continues(ops, d, path, e) && Continues(ops, e, [op], op.digest)
    ensures Continues(ops, d, path + [op], op.digest)
  {
    forall rest | Selects(ops, op.digest, rest) ensures Selects(ops, d, path + [op] + rest) {
      assert path + [op] + rest == path + ([op] + rest);
    }
  }

  lemma ContinuesToLeaf(ops: set<Op>, d: Digest, path: seq<Op>, e: Digest)
    requires Continues(ops, d, path, e) && Children(ops, e) == {}
    ensures Selects(ops, d, path)
  {
    assert Selects(ops, e, []);
    assert path + [] == path;
  }

  /** Choosing the best child extends every continuation of the branch. */
  lemma SelectStep(chain: seq<Op>, children: map<Digest, seq<nat>>, height: seq<nat>, cursor: Digest, best: nat)
    requires Indexes(chain, children) && |height| == |chain|
    requires forall c :: c in Kids(children, cursor) ==> Measured(chain, height, c)
    requires best in Kids(children, cursor)
    requires forall c :: c in Kids(children, cursor) && c != best ==> Ranks(chain, height, best, c)
    ensures best < |chain| && chain[best].prev == cursor
    ensures Continues(ToSet(chain), cursor, [chain[best]], chain[best].digest)
  {
    var ops := ToSet(chain);
    KidsAreChildren(chain, children, cursor);
    forall o | o in Children(ops, cursor) && o != chain[best] ensures Preferred(ops, chain[best], o) {
      var c :| c in Kids(children, cursor) && chain[c] == o;
      MeasuredPreference(chain, height, best, c);
    }
    forall rest | Selects(ops, chain[best].digest, rest) ensures Selects(ops, cursor, [chain[best]] + rest) {
      assert ([chain[best]] + rest)[1..] == rest;
    }
  }

  /** The fork step: the child the op set prefers. */
  method Follow(chain: seq<Op>, children: map<Digest, seq<nat>>, height: seq<nat>, cursor: Digest, ghost met: set<nat>)
    returns (best: nat)
    requires Deduplicated(chain) && Indexes(chain, children) && |height| == |chain|
    requires cursor in children
    requires forall i :: i in met ==> Measured(chain, height, i)
    requires forall c :: c in Kids(children, cursor) ==> c in met
    ensures best in Kids(children, cursor) && best < |chain| && chain[best].prev == cursor
    ensures Continues(ToSet(chain), cursor, [chain[best]], chain[best].digest)
  {
    assert Lists(chain, |chain|, cursor, Kids(children, cursor));
    best := BestChild(chain, height, children[cursor]);
    SelectStep(chain, children, height, cursor, best);
  }

  lemma DigestsPush(path: seq<Op>, op: Op)
    ensures Digests(path + [op]) == Digests(path) + {op.digest}
  {
    assert forall o :: o in path + [op] <==> o in path || o == op;
  }

  /** `keep` are the digests of the branch `ops` selects. */
  ghost predicate KeepsBranch(ops: set<Op>, keep: set<Digest>) {
    exists path :: Selects(ops, GENESIS_PREV, path) && keep == Digests(path)
  }

  /** The ops a verified read keeps for one author: the digests of exactly the branch the op
      set selects. Together with `SelectionIsUnique` this makes the choice independent of
      fetch order, and with `SelectionIsLongest` a longest rooted chain. */
  method LongestRootedChain(chain: seq<Op>, ghost depth: Digest -> nat) returns (keep: set<Digest>, ghost path: seq<Op>)
    requires Deduplicated(chain) && Acyclic(ToSet(chain), depth)
    ensures KeepsBranch(ToSet(chain), keep)
    ensures Selects(ToSet(chain), GENESIS_PREV, path) && keep == Digests(path)
  {
    var children := IndexChildren(chain);
    var height, met := Heights(chain, children, depth);
    ghost var ops, left := ToSet(chain), ToSet(chain);
    keep, path := {}, [];
    var cursor := GENESIS_PREV;
    ContinuesFromStart(ops, GENESIS_PREV);
    while cursor in children
      invariant keep == Digests(path)
      invariant forall c :: c in Kids(children, cursor) ==> c in met
      invariant Continues(ops, GENESIS_PREV, path, cursor)
      invariant forall op :: op in ops && depth(op.digest) > depth(cursor) ==> op in left
      decreases left
    {
      var best := Follow(chain, children, height, cursor, met);
      var op := chain[best];
      assert op in ops;
      ContinuesFurther(ops, GENESIS_PREV, path, cursor, op);
      DigestsPush(path, op);
      keep, path := keep + {op.digest}, path + [op];
      cursor := op.digest;
      left := left - {op};
    }
    KidsAreChildren(chain, children, cursor);
    ContinuesToLeaf(ops, GENESIS_PREV, path, cursor);
  }

  lemma ContinuesFromStart(ops: set<Op>, d: Digest)
    ensures Continues(ops, d, [], d)
  {
    assert forall rest: seq<Op> :: [] + rest == rest;
  }

  // ---------------------------------------------------------------- on the fields of the ops

  /** A selected branch starts at an op naming `d` and each next op names the one before it; it ends at
      an op nothing names. */
  lemma {:induction false} BranchLinks(ops: set<Op>, d: Digest, path: seq<Op>, i: nat)
    requires Selects(ops, d, path) && i < |path|
    ensures path[i] in ops && path[i].prev == if i == 0 then d else path[i - 1].digest
    ensures i == |path| - 1 ==> forall o :: o in ops ==> o.prev != path[i].digest
    ensures Selects(ops, path[i].prev, path[i..])
    decreases |path|
  {
    if i > 0 {
      BranchLinks(ops, path[0].digest, path[1..], i - 1);
      assert path[1..][i - 1..] == path[i..];
    } else {
      assert path[0..] == path;
      if |path| == 1 {
        forall o | o in ops ensures o.prev != path[0].digest { assert o !in Children(ops, path[0].digest); }
      }
    }
  }

  /** At every fork the branch takes the child with the longest chain below it and, of several as
      long, the one lowest in (lamport, op id, hash). */
  lemma ForkTakesLowest(ops: set<Op>, d: Digest, path: seq<Op>, i: nat, o: Op)
    requires Selects(ops, d, path) && i < |path|
    requires o in ops && o != path[i] && o.prev == path[i].prev
    ensures exists h :: IsHeight(ops, o.digest, h)
    ensures forall h: nat :: IsHeight(ops, o.digest, h) ==> h <= |path| - i - 1
    ensures IsHeight(ops, o.digest, |path| - i - 1) ==>
              var p := path[i];
              || p.lamport < o.lamport
              || (p.lamport == o.lamport && p.opId < o.opId)
              || (p.lamport == o.lamport && p.opId == o.opId && p.digest < o.digest)
  {
    BranchLinks(ops, d, path, i);
    assert path[i..][0] == path[i] && path[i..][1..] == path[i + 1..];
    assert o in Children(ops, path[i].prev);
    SelectionIsLongest(ops, path[i].digest, path[i + 1..]);
    var hp, ho :| IsHeight(ops, path[i].digest, hp) && IsHeight(ops, o.digest, ho)
      && (hp > ho || (hp == ho && Before(path[i], o)));
    HeightIsUnique(ops, path[i].digest, hp, |path| - i - 1);
    forall h: nat | IsHeight(ops, o.digest, h) ensures h == ho { HeightIsUnique(ops, o.digest, h, ho); }
  }
}
