/** The quarantine report of one author and what its records decide (`oplog/store.rs`). */
module Inspection {
  import opened Options
  import opened OpLog
  import opened AuthorChain
  import opened Quarantine
  import opened Sorting

  datatype Drop = Drop(op: Op, cause: DropClass, hasListedChildren: bool)

  datatype QuarantineClass = Fork | Gap | Mixed

  datatype Detail = Detail(classification: QuarantineClass, survivingOps: nat, survivingTip: Option<Op>,
    dropped: seq<Drop>)

  /** A record that says of a dropped op what the op set says. */
  ghost predicate DropOf(ops: set<Op>, kept: seq<Op>, d: Drop) {
    && d.op in ops
    && d.op !in kept
    && d.cause == ClassOf(ops, d.op)
    && (d.hasListedChildren <==> Children(ops, d.op.digest) != {})
  }

  // ---------------------------------------------------------------- the drops

  function RecordOf(op: Op, rooted: set<Digest>, children: map<Digest, seq<nat>>): Drop {
    Drop(op, if op.digest in rooted then ForkLoser else GapOrphan, op.digest in children)
  }

  /** The records of the first `n` ops that are not kept. */
  function Drops(chain: seq<Op>, keep: set<Digest>, rooted: set<Digest>, children: map<Digest, seq<nat>>,
                 n: nat): seq<Drop>
    requires n <= |chain|
  {
    if n == 0 then []
    else
      Drops(chain, keep, rooted, children, n - 1)
      + if chain[n - 1].digest !in keep then [RecordOf(chain[n - 1], rooted, children)] else []
  }

  lemma {:induction false} DropsElements(chain: seq<Op>, keep: set<Digest>, rooted: set<Digest>,
                                         children: map<Digest, seq<nat>>, n: nat, d: Drop)
    requires n <= |chain|
    ensures d in Drops(chain, keep, rooted, children, n) <==>
            exists i :: 0 <= i < n && chain[i].digest !in keep && d == RecordOf(chain[i], rooted, children)
  {
    if n > 0 {
      DropsElements(chain, keep, rooted, children, n - 1, d);
      if chain[n - 1].digest !in keep && d == RecordOf(chain[n - 1], rooted, children) {
        assert d in Drops(chain, keep, rooted, children, n);
      }
    }
  }

  lemma OffBranch(chain: seq<Op>, path: seq<Op>, i: nat)
    requires Deduplicated(chain) && i < |chain| && ToSet(path) <= ToSet(chain)
    ensures chain[i].digest in Digests(path) <==> chain[i] in path
  {
    if chain[i].digest in Digests(path) {
      var twin :| twin in path && twin.digest == chain[i].digest;
      assert twin in ToSet(path);
      var j :| 0 <= j < |chain| && chain[j] == twin;
    }
  }

  lemma ListedChildren(chain: seq<Op>, children: map<Digest, seq<nat>>, d: Digest)
    requires Indexes(chain, children)
    ensures d in children <==> Children(ToSet(chain), d) != {}
  {
    KidsAreChildren(chain, children, d);
    if d in children { assert Kids(children, d)[0] in Kids(children, d); }
  }

  lemma RecordIsRight(chain: seq<Op>, path: seq<Op>, rooted: set<Digest>, children: map<Digest, seq<nat>>, i: nat)
    requires i < |chain| && Indexes(chain, children) && chain[i] !in path
    requires chain[i].digest in rooted <==> RootedAt(chain, i)
    ensures DropOf(ToSet(chain), path, RecordOf(chain[i], rooted, children))
  {
    ListedChildren(chain, children, chain[i].digest);
  }

  /** The records are right, one for every op off the branch. */
  ghost predicate DropsOf(ops: set<Op>, path: seq<Op>, dropped: seq<Drop>) {
    && (forall d :: d in dropped ==> DropOf(ops, path, d))
    && (forall op :: op in ops && op !in path ==> Recorded(dropped, op))
  }

  ghost predicate Recorded(dropped: seq<Drop>, op: Op) { exists d :: d in dropped && d.op == op }

  lemma DropsAreRight(chain: seq<Op>, path: seq<Op>, rooted: set<Digest>, children: map<Digest, seq<nat>>)
    requires Deduplicated(chain) && Indexes(chain, children) && ToSet(path) <= ToSet(chain)
    requires forall i :: 0 <= i < |chain| ==> (chain[i].digest in rooted <==> RootedAt(chain, i))
    ensures DropsOf(ToSet(chain), path, Drops(chain, Digests(path), rooted, children, |chain|))
  {
    var keep, n := Digests(path), |chain|;
    var all := Drops(chain, keep, rooted, children, n);
    forall d | d in all ensures DropOf(ToSet(chain), path, d) {
      DropsElements(chain, keep, rooted, children, n, d);
      var i :| 0 <= i < n && chain[i].digest !in keep && d == RecordOf(chain[i], rooted, children);
      OffBranch(chain, path, i);
      RecordIsRight(chain, path, rooted, children, i);
    }
    forall op | op in ToSet(chain) && op !in path ensures Recorded(all, op) {
      var i :| 0 <= i < n && chain[i] == op;
      OffBranch(chain, path, i);
      DropsElements(chain, keep, rooted, children, n, RecordOf(op, rooted, children));
    }
  }

  method ListDrops(chain: seq<Op>, keep: set<Digest>, rooted: set<Digest>, children: map<Digest, seq<nat>>)
    returns (dropped: seq<Drop>)
    ensures dropped == Drops(chain, keep, rooted, children, |chain|)
  {
    dropped := [];
    for i := 0 to |chain|
      invariant dropped == Drops(chain, keep, rooted, children, i)
    {
      if chain[i].digest !in keep { dropped := dropped + [RecordOf(chain[i], rooted, children)]; }
    }
  }

  // ---------------------------------------------------------------- their order

  predicate DropBefore(a: Drop, b: Drop) { Before(a.op, b.op) }

  ghost function ElementsOf(dropped: seq<Drop>): set<Drop> { set d | d in dropped }

  lemma {:induction false} DropsDistinct(chain: seq<Op>, keep: set<Digest>, rooted: set<Digest>,
                                         children: map<Digest, seq<nat>>, n: nat)
    requires Deduplicated(chain) && n <= |chain|
    ensures Distinct(Drops(chain, keep, rooted, children, n))
  {
    if n > 0 {
      DropsDistinct(chain, keep, rooted, children, n - 1);
      var before := Drops(chain, keep, rooted, children, n - 1);
      forall d | d in before ensures d.op.digest != chain[n - 1].digest {
        DropsElements(chain, keep, rooted, children, n - 1, d);
      }
      assert forall k :: 0 <= k < |before| ==> before[k] in before;
    }
  }

  lemma DropsAreOrdered(chain: seq<Op>, keep: set<Digest>, rooted: set<Digest>, children: map<Digest, seq<nat>>)
    requires Deduplicated(chain)
    ensures Orders(DropBefore, ElementsOf(Drops(chain, keep, rooted, children, |chain|)))
  {
    var all := Drops(chain, keep, rooted, children, |chain|);
    forall a, b | a in all && b in all && a.op.digest == b.op.digest ensures a == b {
      DropsElements(chain, keep, rooted, children, |chain|, a);
      DropsElements(chain, keep, rooted, children, |chain|, b);
      var i :| 0 <= i < |chain| && a == RecordOf(chain[i], rooted, children);
      var j :| 0 <= j < |chain| && b == RecordOf(chain[j], rooted, children);
    }
  }

  lemma SortedDrops(chain: seq<Op>, keep: set<Digest>, rooted: set<Digest>, children: map<Digest, seq<nat>>)
    requires Deduplicated(chain)
    ensures var all := Drops(chain, keep, rooted, children, |chain|);
            Sorted(Sort(all, DropBefore), DropBefore) && SameElements(Sort(all, DropBefore), all)
              && |Sort(all, DropBefore)| == |all|
  {
    var all := Drops(chain, keep, rooted, children, |chain|);
    DropsDistinct(chain, keep, rooted, children, |chain|);
    DropsAreOrdered(chain, keep, rooted, children);
    SortSorts(all, DropBefore, ElementsOf(all));
    SortElements(all, DropBefore);
  }

  // ---------------------------------------------------------------- the surviving tip

  /** A linked path goes ever deeper. */
  lemma {:induction false} PathDeepens(ops: set<Op>, d: Digest, path: seq<Op>, depth: Digest -> nat, i: nat, j: nat)
    requires Linked(ops, d, path) && Acyclic(ops, depth) && i <= j < |path|
    ensures depth(d) < depth(path[i].digest) <= depth(path[j].digest)
    ensures i < j ==> depth(path[i].digest) < depth(path[j].digest)
    decreases |path|
  {
    if j > 0 {
      PathDeepens(ops, path[0].digest, path[1..], depth, if i > 0 then i - 1 else 0, j - 1);
    }
  }

  lemma {:induction false} PathLinks(ops: set<Op>, d: Digest, path: seq<Op>, i: nat)
    requires Linked(ops, d, path) && i < |path|
    ensures path[i].prev == if i == 0 then d else path[i - 1].digest
    decreases |path|
  {
    if i > 0 { PathLinks(ops, path[0].digest, path[1..], i - 1); }
  }

  ghost predicate NamedBy(path: seq<Op>, d: Digest) { exists op :: op in path && op.prev == d }

  /** The last op of the branch is the one op of it that none of it names. */
  lemma TipIsLast(ops: set<Op>, path: seq<Op>, depth: Digest -> nat, i: nat)
    requires Linked(ops, GENESIS_PREV, path) && Acyclic(ops, depth) && i < |path|
    ensures NamedBy(path, path[i].digest) <==> i < |path| - 1
  {
    if i < |path| - 1 {
      PathLinks(ops, GENESIS_PREV, path, i + 1);
      assert path[i + 1] in path;
    } else {
      forall op | op in path ensures op.prev != path[i].digest {
        var k :| 0 <= k < |path| && path[k] == op;
        PathLinks(ops, GENESIS_PREV, path, k);
        PathDeepens(ops, GENESIS_PREV, path, depth, if k > 0 then k - 1 else 0, i);
      }
    }
  }

  /** The prevs of the kept ops. */
  method KeptPrevs(chain: seq<Op>, keep: set<Digest>, ghost path: seq<Op>) returns (prevs: set<Digest>)
    requires forall i :: 0 <= i < |chain| ==> (chain[i].digest in keep <==> chain[i] in path)
    requires ToSet(path) <= ToSet(chain)
    ensures forall d :: d in prevs <==> NamedBy(path, d)
  {
    prevs := set i | 0 <= i < |chain| && chain[i].digest in keep :: chain[i].prev;
    forall d ensures d in prevs <==> NamedBy(path, d) {
      if NamedBy(path, d) {
        var op :| op in path && op.prev == d;
        assert op in ToSet(path);
        var i :| 0 <= i < |chain| && chain[i] == op;
      }
    }
  }

  method FindTip(chain: seq<Op>, keep: set<Digest>, ghost path: seq<Op>, ghost depth: Digest -> nat)
    returns (tip: Option<Op>)
    requires Acyclic(ToSet(chain), depth) && Linked(ToSet(chain), GENESIS_PREV, path) && ToSet(path) <= ToSet(chain)
    requires forall i :: 0 <= i < |chain| ==> (chain[i].digest in keep <==> chain[i] in path)
    ensures tip == if path == [] then None else Some(path[|path| - 1])
  {
    var prevs := KeptPrevs(chain, keep, path);
    for i := 0 to |chain|
      invariant forall j :: 0 <= j < i ==> chain[j] !in path || NamedBy(path, chain[j].digest)
    {
      if chain[i].digest in keep && chain[i].digest !in prevs {
        ghost var k :| 0 <= k < |path| && path[k] == chain[i];
        TipIsLast(ToSet(chain), path, depth, k);
        return Some(chain[i]);
      }
    }
    if path != [] { TipIsListed(chain, path, depth); }
    tip := None;
  }

  lemma TipIsListed(chain: seq<Op>, path: seq<Op>, depth: Digest -> nat)
    requires Acyclic(ToSet(chain), depth) && Linked(ToSet(chain), GENESIS_PREV, path) && ToSet(path) <= ToSet(chain)
    requires path != []
    ensures exists j :: 0 <= j < |chain| && chain[j] in path && !NamedBy(path, chain[j].digest)
  {
    var last := |path| - 1;
    TipIsLast(ToSet(chain), path, depth, last);
    assert path[last] in ToSet(path);
  }

  // ---------------------------------------------------------------- the report

  ghost predicate AllDropped(ops: set<Op>, path: seq<Op>, cause: DropClass) {
    forall op :: op in ops && op !in path ==> ClassOf(ops, op) == cause
  }

  /** The overall class: fork or gap if every drop is, else mixed. */
  ghost predicate Classifies(ops: set<Op>, path: seq<Op>, c: QuarantineClass) {
    c == if AllDropped(ops, path, ForkLoser) then Fork else if AllDropped(ops, path, GapOrphan) then Gap else Mixed
  }

  method CountForkLosers(dropped: seq<Drop>) returns (n: nat)
    ensures n <= |dropped|
    ensures n == |dropped| <==> forall d :: d in dropped ==> d.cause == ForkLoser
    ensures n == 0 <==> forall d :: d in dropped ==> d.cause == GapOrphan
  {
    n := 0;
    for i := 0 to |dropped|
      invariant n <= i
      invariant n == i <==> forall j :: 0 <= j < i ==> dropped[j].cause == ForkLoser
      invariant n == 0 <==> forall j :: 0 <= j < i ==> dropped[j].cause == GapOrphan
    {
      if dropped[i].cause == ForkLoser { n := n + 1; }
    }
    assert forall j :: 0 <= j < |dropped| ==> dropped[j] in dropped;
  }

  lemma ClassFromDrops(ops: set<Op>, path: seq<Op>, dropped: seq<Drop>, c: QuarantineClass)
    requires DropsOf(ops, path, dropped) && dropped != []
    requires c == Fork <==> forall d :: d in dropped ==> d.cause == ForkLoser
    requires c == Gap <==> c != Fork && forall d :: d in dropped ==> d.cause == GapOrphan
    ensures Classifies(ops, path, c)
  {
    CauseOfAll(ops, path, dropped, ForkLoser);
    CauseOfAll(ops, path, dropped, GapOrphan);
  }

  lemma CauseOfAll(ops: set<Op>, path: seq<Op>, dropped: seq<Drop>, cause: DropClass)
    requires DropsOf(ops, path, dropped)
    ensures AllDropped(ops, path, cause) <==> forall d :: d in dropped ==> d.cause == cause
  {
    forall op | op in ops && op !in path ensures exists d :: d in dropped && d.op == op && d.cause == ClassOf(ops, op) {
      assert Recorded(dropped, op);
      var d :| d in dropped && d.op == op;
    }
  }

  /** What the report says of a chain whose branch is `path`. */
  ghost predicate Reports(ops: set<Op>, path: seq<Op>, detail: Detail) {
    && Sorted(detail.dropped, DropBefore)
    && DropsOf(ops, path, detail.dropped)
    && Classifies(ops, path, detail.classification)
    && detail.survivingOps == |path|
    && detail.survivingTip == (if path == [] then None else Some(path[|path| - 1]))
  }

  /** The drops of a report ascend in (lamport, op id, hash). */
  lemma DropsAscend(ops: set<Op>, path: seq<Op>, detail: Detail, i: nat, j: nat)
    requires Reports(ops, path, detail) && i < j < |detail.dropped|
    ensures var a, b := detail.dropped[i].op, detail.dropped[j].op;
            || a.lamport < b.lamport
            || (a.lamport == b.lamport && a.opId < b.opId)
            || (a.lamport == b.lamport && a.opId == b.opId && a.digest < b.digest)
  {
    assert DropBefore(detail.dropped[i], detail.dropped[j]);
  }

  /** What a record says, op by op: its op is off the kept branch, `ForkLoser` means its ancestors are
      listed down to a root, and listed children mean that some op names it. */
  lemma DropMeans(ops: set<Op>, path: seq<Op>, detail: Detail, d: Drop)
    requires Reports(ops, path, detail) && d in detail.dropped
    ensures d.op in ops && d.op !in path
    ensures d.cause.ForkLoser? <==> exists up :: IsAncestry(ops, up, d.op)
    ensures d.hasListedChildren <==> exists o :: o in ops && o.prev == d.op.digest
  {
    if Children(ops, d.op.digest) != {} { var o :| o in Children(ops, d.op.digest); assert o in ops; }
    if exists o :: o in ops && o.prev == d.op.digest {
      var o :| o in ops && o.prev == d.op.digest;
      assert o in Children(ops, d.op.digest);
    }
    if Rooted(ops, d.op) {
      var up :| Linked(ops, GENESIS_PREV, up) && up != [] && up[|up| - 1] == d.op;
      LinkedIsAncestry(ops, GENESIS_PREV, up);
      assert IsAncestry(ops, up, d.op);
    }
    if exists up :: IsAncestry(ops, up, d.op) {
      var up :| IsAncestry(ops, up, d.op);
      AncestryIsLinked(ops, GENESIS_PREV, up);
    }
  }

  /** Ops that name each other one by one, from a root to `op`. */
  ghost predicate IsAncestry(ops: set<Op>, up: seq<Op>, op: Op) {
    && up != [] && up[0].prev == 0 && up[|up| - 1] == op
    && (forall i :: 0 <= i < |up| ==> up[i] in ops)
    && (forall i, j :: 0 <= i && j == i + 1 && j < |up| ==> up[j].prev == up[i].digest)
  }

  lemma {:induction false} LinkedIsAncestry(ops: set<Op>, d: Digest, up: seq<Op>)
    requires Linked(ops, d, up)
    ensures up != [] ==> up[0].prev == d
    ensures forall i :: 0 <= i < |up| ==> up[i] in ops
    ensures forall i, j :: 0 <= i && j == i + 1 && j < |up| ==> up[j].prev == up[i].digest
    decreases |up|
  {
    if up != [] {
      LinkedIsAncestry(ops, up[0].digest, up[1..]);
      forall i, j | 0 <= i && j == i + 1 && j < |up| ensures up[j].prev == up[i].digest {
        if i > 0 { assert up[1..][i - 1] == up[i] && up[1..][j - 1] == up[j]; }
      }
    }
  }

  lemma {:induction false} AncestryIsLinked(ops: set<Op>, d: Digest, up: seq<Op>)
    requires up != [] ==> up[0].prev == d
    requires forall i :: 0 <= i < |up| ==> up[i] in ops
    requires forall i, j :: 0 <= i && j == i + 1 && j < |up| ==> up[j].prev == up[i].digest
    ensures Linked(ops, d, up)
    decreases |up|
  {
    if up != [] { AncestryIsLinked(ops, up[0].digest, up[1..]); }
  }

  /** `quarantine_detail_for_author`: no report for a whole chain, otherwise every dropped op with its
      class and whether another listed op names it, in order, with the tip that survives. */
  method Inspect(chain: seq<Op>, ghost depth: Digest -> nat) returns (detail: Option<Detail>, ghost path: seq<Op>)
    requires Deduplicated(chain) && Acyclic(ToSet(chain), depth)
    ensures Selects(ToSet(chain), GENESIS_PREV, path)
    ensures detail == None <==> ToSet(path) == ToSet(chain)
    ensures detail.Some? ==> Reports(ToSet(chain), path, detail.value)
    ensures InspectionOf(ToSet(chain), detail)
  {
    var keep;
    keep, path := LongestRootedChain(chain, depth);
    SelectionIsLinked(ToSet(chain), GENESIS_PREV, path);
    PathSize(chain, path, keep);
    PathHasNoRepeats(ToSet(chain), path, depth);
    if |keep| == |chain| { return None, path; }
    forall i | 0 <= i < |chain| ensures chain[i].digest in keep <==> chain[i] in path { OffBranch(chain, path, i); }
    var children := IndexChildren(chain);
    var rooted := RootedDigests(chain, children, depth);
    var tip := FindTip(chain, keep, path, depth);
    var listed := ListDrops(chain, keep, rooted, children);
    DropsAreRight(chain, path, rooted, children);
    SortedDrops(chain, keep, rooted, children);
    var report := Assemble(ToSet(chain), path, listed, |keep|, tip);
    detail := Some(report);
  }

  /** Independent of the branch handed out: some selected branch is what the answer reports on. */
  ghost predicate InspectionOf(ops: set<Op>, detail: Option<Detail>) {
    exists path :: Selects(ops, GENESIS_PREV, path) && (detail == None <==> ToSet(path) == ops)
      && (detail.Some? ==> Reports(ops, path, detail.value))
  }

  /** A selected branch holds each op once. */
  lemma PathHasNoRepeats(ops: set<Op>, path: seq<Op>, depth: Digest -> nat)
    requires Linked(ops, GENESIS_PREV, path) && Acyclic(ops, depth)
    ensures |ToSet(path)| == |path|
  {
    forall i, j | 0 <= i < j < |path| ensures path[i] != path[j] { PathDeepens(ops, GENESIS_PREV, path, depth, i, j); }
    DistinctSize(path);
  }

  lemma {:induction false} DistinctSize(path: seq<Op>)
    requires Distinct(path)
    ensures |ToSet(path)| == |path|
  {
    if path != [] {
      var n := |path| - 1;
      DistinctSize(path[..n]);
      assert ToSet(path) == ToSet(path[..n]) + {path[n]};
      assert path[n] !in path[..n];
    }
  }

  method Assemble(ghost ops: set<Op>, ghost path: seq<Op>, listed: seq<Drop>, kept: nat, tip: Option<Op>)
    returns (detail: Detail)
    requires DropsOf(ops, path, listed) && ops != ToSet(path) && ToSet(path) <= ops
    requires Sorted(Sort(listed, DropBefore), DropBefore) && SameElements(Sort(listed, DropBefore), listed)
    requires kept == |path| && tip == if path == [] then None else Some(path[|path| - 1])
    ensures Reports(ops, path, detail)
  {
    var dropped := Sort(listed, DropBefore);
    assert DropsOf(ops, path, dropped) by { SameDrops(ops, path, listed, dropped); }
    var forks := CountForkLosers(dropped);
    var class_ := if forks == |dropped| then Fork else if forks == 0 then Gap else Mixed;
    assert dropped != [] by { SomethingDropped(ops, path, dropped); }
    ClassFromDrops(ops, path, dropped, class_);
    detail := Detail(class_, kept, tip, dropped);
  }

  lemma SameDrops(ops: set<Op>, path: seq<Op>, a: seq<Drop>, b: seq<Drop>)
    requires DropsOf(ops, path, a) && SameElements(b, a)
    ensures DropsOf(ops, path, b)
  {
    forall op | op in ops && op !in path ensures Recorded(b, op) {
      assert Recorded(a, op);
      var d :| d in a && d.op == op;
      assert d in b;
    }
  }

  lemma SomethingDropped(ops: set<Op>, path: seq<Op>, dropped: seq<Drop>)
    requires DropsOf(ops, path, dropped) && ops != ToSet(path) && ToSet(path) <= ops
    ensures dropped != []
  {
    assert ops == ToSet(path) + (ops - ToSet(path));
    var op :| op in ops - ToSet(path);
    assert Recorded(dropped, op);
  }

  // ---------------------------------------------------------------- the rails

  /** The removal rails are exact for a fork loser: what the record says of listed children decides
      whether deleting it leaves the kept branch and every other op's class as they were. */
  lemma RailsAreExact(ops: set<Op>, kept: seq<Op>, d: Drop, depth: Digest -> nat)
    requires DigestsIdentify(ops) && Acyclic(ops, depth) && Selects(ops, GENESIS_PREV, kept)
    requires DropOf(ops, kept, d) && d.cause == ForkLoser
    ensures !d.hasListedChildren <==>
            Selects(ops - {d.op}, GENESIS_PREV, kept) && forall o :: o in ops - {d.op} ==>
              ClassOf(ops - {d.op}, o) == ClassOf(ops, o)
  {
    RemovalStrands(ops, d.op, depth);
    if !d.hasListedChildren { RemovableIsSafe(ops, kept, d.op, depth); }
  }

  /** A report classed as a fork is fully remediable: deletions the rails allow end with exactly the
      surviving chain. */
  lemma ForkReportIsRemediable(ops: set<Op>, kept: seq<Op>, detail: Detail, depth: Digest -> nat)
    returns (order: seq<Op>)
    requires DigestsIdentify(ops) && Acyclic(ops, depth) && Selects(ops, GENESIS_PREV, kept)
    requires Reports(ops, kept, detail) && detail.classification == Fork
    ensures Deletes(ops, kept, order) && ops - ToSet(order) == ToSet(kept)
  {
    order := ForkIsRemediable(ops, kept, depth);
  }
}
