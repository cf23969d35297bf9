/** What a verified read keeps, what it drops and why, and what deleting a dropped
    object does (`oplog/store.rs`). */
module Quarantine {
  import opened OpLog
  import opened AuthorChain

  // ---------------------------------------------------------------- whole reads

  function AuthorOps(ops: set<Op>, a: AuthorKey): set<Op> {
    set op | op in ops && op.authorKey == a
  }

  /** Author by author, `kept` is the selected branch. */
  ghost predicate Survivors(ops: set<Op>, kept: set<Op>) {
    && kept <= ops
    && forall a :: KeepsAuthor(AuthorOps(ops, a), AuthorOps(kept, a))
  }

  ghost predicate KeepsAuthor(mine: set<Op>, kept: set<Op>) {
    exists path :: Selects(mine, GENESIS_PREV, path) && kept == ToSet(path)
  }

  /** Two machines that read the same ops keep the same ops. */
  lemma SurvivorsAreDetermined(ops: set<Op>, a: set<Op>, b: set<Op>)
    requires Survivors(ops, a) && Survivors(ops, b)
    ensures a == b
  {
    forall op | op in a + b ensures op in a && op in b {
      var k := op.authorKey;
      assert KeepsAuthor(AuthorOps(ops, k), AuthorOps(a, k)) && KeepsAuthor(AuthorOps(ops, k), AuthorOps(b, k));
      var p :| Selects(AuthorOps(ops, k), GENESIS_PREV, p) && AuthorOps(a, k) == ToSet(p);
      var q :| Selects(AuthorOps(ops, k), GENESIS_PREV, q) && AuthorOps(b, k) == ToSet(q);
      SelectionIsUnique(AuthorOps(ops, k), GENESIS_PREV, p, q);
      assert op in AuthorOps(a, k) <==> op in AuthorOps(b, k);
    }
  }

  /** `dedup_by_hash`: the first copy of every op. */
  method DedupByHash(ops: seq<Op>) returns (distinct: seq<Op>)
    requires DigestsIdentify(ToSet(ops))
    ensures Deduplicated(distinct)
    ensures ToSet(distinct) == ToSet(ops)
  {
    distinct := [];
    var seen: set<Digest> := {};
    for i := 0 to |ops|
      invariant Deduplicated(distinct)
      invariant ToSet(distinct) == ToSet(ops[..i])
      invariant seen == Digests(distinct)
    {
      var op := ops[i];
      assert ToSet(ops[..i + 1]) == ToSet(ops[..i]) + {op};
      if op.digest !in seen {
        DigestsPush(distinct, op);
        assert ToSet(distinct + [op]) == ToSet(distinct) + {op};
        distinct := distinct + [op];
        seen := seen + {op.digest};
      } else {
        var twin :| twin in distinct && twin.digest == op.digest;
        assert twin in ToSet(distinct);
        assert twin in ToSet(ops) && op in ToSet(ops);
      }
    }
    assert ops[..|ops|] == ops;
  }

  /** The ops of `author`, in the order read. */
  method GroupOf(ops: seq<Op>, author: AuthorKey) returns (group: seq<Op>)
    requires Deduplicated(ops)
    ensures Deduplicated(group)
    ensures ToSet(group) == AuthorOps(ToSet(ops), author)
  {
    group := [];
    for i := 0 to |ops|
      invariant Deduplicated(group)
      invariant ToSet(group) == AuthorOps(ToSet(ops[..i]), author)
    {
      var op := ops[i];
      assert ToSet(ops[..i + 1]) == ToSet(ops[..i]) + {op};
      assert forall o :: o in group ==> o in ToSet(group);
      assert forall o :: o in group ==> o.digest != op.digest;
      assert ToSet(group + [op]) == ToSet(group) + {op};
      if op.authorKey == author { group := group + [op]; }
    }
    assert ops[..|ops|] == ops;
  }

  /** One author's branch, and how many of their ops are off it. */
  method KeepAuthor(ops: seq<Op>, a: AuthorKey, ghost depth: Digest -> nat)
    returns (kept: set<Digest>, dropped: nat, ghost path: seq<Op>)
    requires Deduplicated(ops) && Acyclic(ToSet(ops), depth)
    ensures Selects(AuthorOps(ToSet(ops), a), GENESIS_PREV, path) && kept == Digests(path)
    ensures dropped == |AuthorOps(ToSet(ops), a)| - |ToSet(path)|
    ensures dropped > 0 <==> ToSet(path) != AuthorOps(ToSet(ops), a)
  {
    var chain := GroupOf(ops, a);
    assert Acyclic(ToSet(chain), depth);
    kept, path := LongestRootedChain(chain, depth);
    PathSize(chain, path, kept);
    dropped := |chain| - |kept|;
  }

  ghost predicate SelectsAll(all: set<Op>, paths: map<AuthorKey, seq<Op>>) {
    forall a :: a in paths ==> Selects(AuthorOps(all, a), GENESIS_PREV, paths[a])
  }

  ghost predicate KeepsDigests(paths: map<AuthorKey, seq<Op>>, keep: set<Digest>) {
    forall d :: d in keep <==> exists a :: a in paths && d in Digests(paths[a])
  }

  ghost predicate CountsLosses(all: set<Op>, paths: map<AuthorKey, seq<Op>>, quarantined: map<AuthorKey, nat>) {
    && (forall a :: a in quarantined <==> a in paths && ToSet(paths[a]) != AuthorOps(all, a))
    && (forall a :: a in quarantined ==> quarantined[a] == |AuthorOps(all, a)| - |ToSet(paths[a])|)
  }

  lemma KeepsMoreDigests(paths: map<AuthorKey, seq<Op>>, keep: set<Digest>, a: AuthorKey, path: seq<Op>)
    requires KeepsDigests(paths, keep) && a !in paths
    ensures KeepsDigests(paths[a := path], keep + Digests(path))
  {
    var next := paths[a := path];
    forall d ensures d in keep + Digests(path) <==> exists b :: b in next && d in Digests(next[b]) {
      if d in keep { var b :| b in paths && d in Digests(paths[b]); assert b in next && next[b] == paths[b]; }
      if d in Digests(path) { assert next[a] == path; }
      if exists b :: b in next && d in Digests(next[b]) {
        var b :| b in next && d in Digests(next[b]);
        if b != a { assert b in paths && d in Digests(paths[b]); }
      }
    }
  }

  lemma CountsMoreLosses(all: set<Op>, paths: map<AuthorKey, seq<Op>>, quarantined: map<AuthorKey, nat>,
                         a: AuthorKey, path: seq<Op>, dropped: nat)
    requires CountsLosses(all, paths, quarantined) && a !in paths
    requires dropped == |AuthorOps(all, a)| - |ToSet(path)|
    requires dropped > 0 <==> ToSet(path) != AuthorOps(all, a)
    ensures CountsLosses(all, paths[a := path], if dropped > 0 then quarantined[a := dropped] else quarantined)
  {
  }

  method ChooseBranches(ops: seq<Op>, ghost depth: Digest -> nat)
    returns (keep: set<Digest>, quarantined: map<AuthorKey, nat>, ghost paths: map<AuthorKey, seq<Op>>)
    requires Deduplicated(ops) && Acyclic(ToSet(ops), depth)
    ensures paths.Keys == set op | op in ops :: op.authorKey
    ensures SelectsAll(ToSet(ops), paths) && KeepsDigests(paths, keep) && CountsLosses(ToSet(ops), paths, quarantined)
  {
    keep, quarantined, paths := {}, map[], map[];
    var rest := set op | op in ops :: op.authorKey;
    while rest != {}
      invariant rest + paths.Keys == set op | op in ops :: op.authorKey
      invariant rest !! paths.Keys
      invariant SelectsAll(ToSet(ops), paths) && KeepsDigests(paths, keep)
                && CountsLosses(ToSet(ops), paths, quarantined)
      decreases rest
    {
      var a :| a in rest;
      rest := rest - {a};
      var mine, dropped, path := KeepAuthor(ops, a, depth);
      KeepsMoreDigests(paths, keep, a, path);
      CountsMoreLosses(ToSet(ops), paths, quarantined, a, path, dropped);
      if dropped > 0 { quarantined := quarantined[a := dropped]; }
      keep, paths := keep + mine, paths[a := path];
    }
  }

  /** `quarantine_broken_chains` after deduplication: what is kept, and how many ops each
      author with a broken chain lost. */
  method ReadChains(fetched: seq<Op>, ghost depth: Digest -> nat)
    returns (kept: seq<Op>, quarantined: map<AuthorKey, nat>)
    requires DigestsIdentify(ToSet(fetched)) && Acyclic(ToSet(fetched), depth)
    ensures Survivors(ToSet(fetched), ToSet(kept))
    ensures forall a :: a in quarantined <==> AuthorOps(ToSet(kept), a) != AuthorOps(ToSet(fetched), a)
    ensures forall a :: a in quarantined ==>
              quarantined[a] == |AuthorOps(ToSet(fetched), a)| - |AuthorOps(ToSet(kept), a)|
  {
    var ops := DedupByHash(fetched);
    var keep, losses, paths := ChooseBranches(ops, depth);
    kept := Retain(ops, keep);
    quarantined := losses;
    assert paths.Keys == set op | op in ToSet(ops) :: op.authorKey;
    KeptAreSurvivors(ToSet(ops), ToSet(kept), keep, paths);
  }

  /** What a read keeps, on the fields: of the ops of one author naming the same op one is kept, the one
      with the longest chain below it and, of several as long, the lowest in (lamport, op id, hash). */
  lemma KeptAtForks(all: set<Op>, kept: set<Op>, p: Op, o: Op)
    requires Survivors(all, kept) && p in kept
    requires o in all && o != p && o.authorKey == p.authorKey && o.prev == p.prev
    ensures o !in kept
    ensures exists hp, ho ::
              && IsHeight(AuthorOps(all, p.authorKey), p.digest, hp)
              && IsHeight(AuthorOps(all, p.authorKey), o.digest, ho)
              && ho <= hp
              && (ho == hp ==>
                  || p.lamport < o.lamport
                  || (p.lamport == o.lamport && p.opId < o.opId)
                  || (p.lamport == o.lamport && p.opId == o.opId && p.digest < o.digest))
  {
    var mine := AuthorOps(all, p.authorKey);
    var path, i := BranchOf(all, kept, p);
    ForkTakesLowest(mine, GENESIS_PREV, path, i, o);
    BranchLinks(mine, GENESIS_PREV, path, i);
    assert path[i..][1..] == path[i + 1..] && path[i..][0] == p;
    SelectionIsLongest(mine, p.digest, path[i + 1..]);
    var ho :| IsHeight(mine, o.digest, ho);
    if o in kept {
      var q, j := BranchOf(all, kept, o);
      SelectionIsUnique(mine, GENESIS_PREV, path, q);
      BranchLinks(mine, GENESIS_PREV, path, j);
      SelectionIsUnique(mine, p.prev, path[i..], path[j..]);
    }
  }

  /** The branch an op was kept on. */
  lemma BranchOf(all: set<Op>, kept: set<Op>, p: Op) returns (path: seq<Op>, i: nat)
    requires Survivors(all, kept) && p in kept
    ensures Selects(AuthorOps(all, p.authorKey), GENESIS_PREV, path) && i < |path| && path[i] == p
    ensures ToSet(path) == AuthorOps(kept, p.authorKey)
  {
    assert KeepsAuthor(AuthorOps(all, p.authorKey), AuthorOps(kept, p.authorKey));
    path :| Selects(AuthorOps(all, p.authorKey), GENESIS_PREV, path) && AuthorOps(kept, p.authorKey) == ToSet(path);
    assert p in AuthorOps(kept, p.authorKey);
    i :| i < |path| && path[i] == p;
  }

  /** A kept op is a root or names a kept op of its author. */
  lemma KeptHangs(all: set<Op>, kept: set<Op>, p: Op)
    requires Survivors(all, kept) && p in kept
    ensures p in all
    ensures p.prev == 0 || exists q :: q in kept && q.authorKey == p.authorKey && q.digest == p.prev
  {
    var path, i := BranchOf(all, kept, p);
    BranchLinks(AuthorOps(all, p.authorKey), GENESIS_PREV, path, i);
    if i > 0 {
      assert path[i - 1] in ToSet(path);
      assert path[i - 1] in kept;
    }
  }

  /** And the branch goes on: wherever an op of the author names zero or a kept op of its own, one such
      op is kept. */
  lemma KeptGoesOn(all: set<Op>, kept: set<Op>, o: Op)
    requires Survivors(all, kept) && o in all
    requires o.prev == 0 || exists q :: q in kept && q.authorKey == o.authorKey && q.digest == o.prev
    ensures exists p :: p in kept && p.authorKey == o.authorKey && p.prev == o.prev
  {
    var mine, mineKept := AuthorOps(all, o.authorKey), AuthorOps(kept, o.authorKey);
    assert KeepsAuthor(mine, mineKept);
    var path :| Selects(mine, GENESIS_PREV, path) && mineKept == ToSet(path);
    assert o in Children(mine, o.prev);
    var next := 0;
    if o.prev != 0 {
      var q :| q in kept && q.authorKey == o.authorKey && q.digest == o.prev;
      assert q in mineKept;
      var i :| 0 <= i < |path| && path[i] == q;
      BranchLinks(mine, GENESIS_PREV, path, i);
      next := i + 1;
    }
    if next < |path| {
      BranchLinks(mine, GENESIS_PREV, path, next);
      assert path[next] in mineKept;
    }
  }

  /** A selected branch repeats no op and stays within the chain. */
  lemma PathSize(chain: seq<Op>, path: seq<Op>, kept: set<Digest>)
    requires Deduplicated(chain) && Selects(ToSet(chain), GENESIS_PREV, path) && kept == Digests(path)
    ensures ToSet(path) <= ToSet(chain)
    ensures |kept| == |ToSet(path)| && |chain| == |ToSet(chain)|
    ensures |kept| < |chain| <==> ToSet(path) != ToSet(chain)
  {
    SelectionStays(ToSet(chain), GENESIS_PREV, path);
    SameSize(ToSet(path), kept);
    ChainSize(chain);
    SubsetSize(ToSet(path), ToSet(chain));
  }

  lemma SelectionStays(ops: set<Op>, d: Digest, path: seq<Op>)
    requires Selects(ops, d, path)
    ensures ToSet(path) <= ops
    decreases |path|
  {
    if path != [] {
      SelectionStays(ops, path[0].digest, path[1..]);
      assert path == [path[0]] + path[1..];
    }
  }

  lemma SameSize(ops: set<Op>, digests: set<Digest>)
    requires DigestsIdentify(ops)
    requires digests == set op | op in ops :: op.digest
    ensures |digests| == |ops|
  {
    if ops != {} {
      var x :| x in ops;
      SameSize(ops - {x}, digests - {x.digest});
    }
  }

  lemma ChainSize(chain: seq<Op>)
    requires Deduplicated(chain)
    ensures |chain| == |ToSet(chain)|
  {
    if chain != [] {
      var n := |chain| - 1;
      ChainSize(chain[..n]);
      assert ToSet(chain) == ToSet(chain[..n]) + {chain[n]};
      assert chain[n] !in chain[..n];
    }
  }

  lemma SubsetSize<T>(a: set<T>, b: set<T>)
    requires a <= b
    ensures |a| <= |b|
    ensures |a| == |b| ==> a == b
  {
    var rest := b - a;
    assert b == a + rest;
    assert |b| == |a| + |rest|;
  }

  method Retain(ops: seq<Op>, keep: set<Digest>) returns (kept: seq<Op>)
    ensures ToSet(kept) == set op | op in ToSet(ops) && op.digest in keep
  {
    kept := [];
    for i := 0 to |ops|
      invariant ToSet(kept) == set op | op in ops[..i] && op.digest in keep
    {
      var op := ops[i];
      assert ops[..i + 1] == ops[..i] + [op];
      assert ToSet(kept + [op]) == ToSet(kept) + {op};
      if op.digest in keep { kept := kept + [op]; }
    }
    assert ops[..|ops|] == ops;
  }

  lemma KeptAreSurvivors(all: set<Op>, kept: set<Op>, keep: set<Digest>, paths: map<AuthorKey, seq<Op>>)
    requires DigestsIdentify(all)
    requires paths.Keys == set op | op in all :: op.authorKey
    requires SelectsAll(all, paths) && KeepsDigests(paths, keep)
    requires kept == set op | op in all && op.digest in keep
    ensures Survivors(all, kept)
    ensures forall a :: a in paths ==> AuthorOps(kept, a) == ToSet(paths[a])
    ensures forall a :: a !in paths ==> AuthorOps(kept, a) == AuthorOps(all, a)
  {
    forall a ensures KeepsAuthor(AuthorOps(all, a), AuthorOps(kept, a))
      ensures a in paths ==> AuthorOps(kept, a) == ToSet(paths[a])
    {
      if a in paths {
        KeptOfAuthor(all, kept, keep, paths, a);
      } else {
        assert AuthorOps(all, a) == {} == AuthorOps(kept, a);
        assert Selects(AuthorOps(all, a), GENESIS_PREV, []);
        assert ToSet([]) == {};
      }
    }
  }

  lemma KeptOfAuthor(all: set<Op>, kept: set<Op>, keep: set<Digest>, paths: map<AuthorKey, seq<Op>>, a: AuthorKey)
    requires DigestsIdentify(all)
    requires SelectsAll(all, paths) && KeepsDigests(paths, keep)
    requires kept == set op | op in all && op.digest in keep
    requires a in paths
    ensures AuthorOps(kept, a) == ToSet(paths[a])
  {
    SelectionStays(AuthorOps(all, a), GENESIS_PREV, paths[a]);
    forall op | op in AuthorOps(kept, a) ensures op in ToSet(paths[a]) {
      var b :| b in paths && op.digest in Digests(paths[b]);
      SelectionStays(AuthorOps(all, b), GENESIS_PREV, paths[b]);
      var twin :| twin in paths[b] && twin.digest == op.digest;
      assert twin in ToSet(paths[b]);
      assert twin == op;
    }
  }

  // ---------------------------------------------------------------- why an op is dropped

  datatype DropClass = ForkLoser | GapOrphan

  /** The whole ancestor path of `op` down from genesis is listed. */
  ghost predicate Rooted(ops: set<Op>, op: Op) {
    exists path :: Linked(ops, GENESIS_PREV, path) && path != [] && path[|path| - 1] == op
  }

  /** A dropped op's class: rooted but off the selected branch, or cut off from genesis. */
  ghost function ClassOf(ops: set<Op>, op: Op): DropClass {
    if Rooted(ops, op) then ForkLoser else GapOrphan
  }

  /** The rails of `removable_drop`: dropped, a fork loser, and named by no listed op. */
  ghost predicate Removable(ops: set<Op>, kept: seq<Op>, x: Op) {
    x in ops && x !in kept && ClassOf(ops, x) == ForkLoser && Children(ops, x.digest) == {}
  }

  lemma {:induction false} LinkedPush(ops: set<Op>, d: Digest, path: seq<Op>, op: Op)
    requires Linked(ops, d, path) && op in ops
    requires op.prev == if path == [] then d else path[|path| - 1].digest
    ensures Linked(ops, d, path + [op])
    decreases |path|
  {
    if path == [] {
      assert ([op])[1..] == [];
      assert path + [op] == [op];
    } else {
      LinkedPush(ops, path[0].digest, path[1..], op);
      assert (path + [op])[1..] == path[1..] + [op];
    }
  }

  /** The last op of a linked path names the one before it, and dropping it leaves a linked path. */
  lemma {:induction false} LinkedPop(ops: set<Op>, d: Digest, path: seq<Op>)
    requires Linked(ops, d, path) && path != []
    ensures Linked(ops, d, path[..|path| - 1])
    ensures path[|path| - 1] in ops
    ensures path[|path| - 1].prev == if |path| == 1 then d else path[|path| - 2].digest
    decreases |path|
  {
    if |path| > 1 {
      LinkedPop(ops, path[0].digest, path[1..]);
      assert path[..|path| - 1][1..] == path[1..][..|path| - 2];
    }
  }

  /** An op is rooted exactly when its predecessor is genesis or a rooted op. */
  lemma RootedByParent(ops: set<Op>, op: Op)
    requires op in ops
    ensures Rooted(ops, op) <==>
            op.prev == GENESIS_PREV || exists parent :: parent in ops && parent.digest == op.prev && Rooted(ops, parent)
  {
    if Rooted(ops, op) && op.prev != GENESIS_PREV {
      var path :| Linked(ops, GENESIS_PREV, path) && path != [] && path[|path| - 1] == op;
      LinkedPop(ops, GENESIS_PREV, path);
      var parent := path[|path| - 2];
      assert path[..|path| - 1][|path| - 2] == parent;
      LinkedPop(ops, GENESIS_PREV, path[..|path| - 1]);
      assert Rooted(ops, parent);
    }
    if op.prev == GENESIS_PREV {
      LinkedPush(ops, GENESIS_PREV, [], op);
      assert ([] + [op])[0] == op;
    } else if exists parent :: parent in ops && parent.digest == op.prev && Rooted(ops, parent) {
      var parent :| parent in ops && parent.digest == op.prev && Rooted(ops, parent);
      var path :| Linked(ops, GENESIS_PREV, path) && path != [] && path[|path| - 1] == parent;
      LinkedPush(ops, GENESIS_PREV, path, op);
      assert (path + [op])[|path + [op]| - 1] == op;
    }
  }

  lemma RootedDepth(ops: set<Op>, op: Op, depth: Digest -> nat)
    requires op in ops && Rooted(ops, op) && Acyclic(ops, depth)
    ensures depth(GENESIS_PREV) < depth(op.digest)
    decreases depth(op.digest)
  {
    RootedByParent(ops, op);
    if op.prev != GENESIS_PREV {
      var parent :| parent in ops && parent.digest == op.prev && Rooted(ops, parent);
      RootedDepth(ops, parent, depth);
    }
  }

  /** Losing an op strands none of the others exactly when no listed op names it. */
  lemma RemovalStrands(ops: set<Op>, x: Op, depth: Digest -> nat)
    requires DigestsIdentify(ops) && Acyclic(ops, depth)
    requires x in ops && Rooted(ops, x)
    ensures (forall o :: o in ops - {x} ==> (Rooted(ops - {x}, o) <==> Rooted(ops, o))) <==>
            Children(ops, x.digest) == {}
  {
    var less := ops - {x};
    RootedDepth(ops, x, depth);
    forall o | o in less && Rooted(less, o) ensures Rooted(ops, o) {
      RootedGrows(less, ops, o, depth);
    }
    if Children(ops, x.digest) == {} {
      forall o | o in less && Rooted(ops, o) ensures Rooted(less, o) {
        LeafRemovalKeeps(ops, x, o, depth);
      }
    } else {
      var c :| c in Children(ops, x.digest);
      assert c in less;
      RootedByParent(ops, c);
      RootedByParent(less, c);
      assert Rooted(ops, c) && !Rooted(less, c);
    }
  }

  lemma RootedGrows(less: set<Op>, more: set<Op>, o: Op, depth: Digest -> nat)
    requires less <= more && o in less && Rooted(less, o) && Acyclic(more, depth)
    ensures Rooted(more, o)
    decreases depth(o.digest)
  {
    RootedByParent(less, o);
    RootedByParent(more, o);
    if o.prev != GENESIS_PREV {
      var parent :| parent in less && parent.digest == o.prev && Rooted(less, parent);
      RootedGrows(less, more, parent, depth);
    }
  }

  lemma LeafRemovalKeeps(ops: set<Op>, x: Op, o: Op, depth: Digest -> nat)
    requires Acyclic(ops, depth) && Children(ops, x.digest) == {}
    requires o in ops - {x} && Rooted(ops, o)
    ensures Rooted(ops - {x}, o)
    decreases depth(o.digest)
  {
    RootedByParent(ops, o);
    RootedByParent(ops - {x}, o);
    if o.prev != GENESIS_PREV {
      var parent :| parent in ops && parent.digest == o.prev && Rooted(ops, parent);
      assert parent != x by { assert o !in Children(ops, x.digest); }
      LeafRemovalKeeps(ops, x, parent, depth);
    }
  }

  /** Genesis-reachability over the listed ops. */
  method RootedDigests(chain: seq<Op>, children: map<Digest, seq<nat>>, ghost depth: Digest -> nat)
    returns (rooted: set<Digest>)
    requires Deduplicated(chain) && Acyclic(ToSet(chain), depth) && Indexes(chain, children)
    ensures forall i :: 0 <= i < |chain| ==> (chain[i].digest in rooted <==> RootedAt(chain, i))
  {
    rooted := {};
    var stack: seq<nat> := Kids(children, GENESIS_PREV);
    GenesisKids(chain, children);
    while stack != []
      invariant OnlyRooted(chain, stack, rooted) && AllClosed(chain, children, stack, rooted)
      decreases Digests(chain) - rooted, |stack|
    {
      stack, rooted := VisitTop(chain, children, stack, rooted);
    }
    AllReached(chain, children, rooted, depth);
  }

  method VisitTop(chain: seq<Op>, children: map<Digest, seq<nat>>, stack: seq<nat>, rooted: set<Digest>)
    returns (rest: seq<nat>, found: set<Digest>)
    requires Deduplicated(chain) && Indexes(chain, children) && stack != []
    requires OnlyRooted(chain, stack, rooted) && AllClosed(chain, children, stack, rooted)
    ensures OnlyRooted(chain, rest, found) && AllClosed(chain, children, rest, found)
    ensures (found == rooted && |rest| < |stack|) || Digests(chain) - found < Digests(chain) - rooted
  {
    var i := stack[|stack| - 1];
    rest, found := stack[..|stack| - 1], rooted;
    StackTop(chain, stack, rooted);
    var d := chain[i].digest;
    if d in rooted {
      VisitKnown(chain, children, rest, i, rooted);
    } else {
      RootedKids(chain, children, i);
      VisitNew(chain, children, rest, i, rooted, Kids(children, d));
      DigestListed(chain, i);
      OneLess(Digests(chain), rooted, d);
      rest, found := rest + Kids(children, d), rooted + {d};
    }
  }

  lemma StackTop(chain: seq<Op>, stack: seq<nat>, rooted: set<Digest>)
    requires stack != [] && OnlyRooted(chain, stack, rooted)
    ensures RootedAt(chain, stack[|stack| - 1]) && stack[..|stack| - 1] + [stack[|stack| - 1]] == stack
  {
    assert stack[|stack| - 1] in stack;
  }

  lemma OneLess(all: set<Digest>, rooted: set<Digest>, d: Digest)
    requires d in all && d !in rooted
    ensures all - (rooted + {d}) < all - rooted
  {
    assert d in all - rooted;
  }

  lemma DigestListed(chain: seq<Op>, i: nat)
    requires i < |chain|
    ensures chain[i].digest in Digests(chain)
  {
    assert chain[i] in chain;
  }

  lemma AllReached(chain: seq<Op>, children: map<Digest, seq<nat>>, rooted: set<Digest>, depth: Digest -> nat)
    requires Deduplicated(chain) && Acyclic(ToSet(chain), depth) && Indexes(chain, children)
    requires OnlyRooted(chain, [], rooted) && AllClosed(chain, children, [], rooted)
    ensures forall i :: 0 <= i < |chain| ==> (chain[i].digest in rooted <==> RootedAt(chain, i))
  {
    forall i | 0 <= i < |chain| && RootedAt(chain, i) ensures chain[i].digest in rooted {
      ClosedReaches(chain, children, rooted, i, depth);
    }
  }

  ghost predicate RootedAt(chain: seq<Op>, i: nat) {
    i < |chain| && Rooted(ToSet(chain), chain[i])
  }

  ghost predicate OnlyRooted(chain: seq<Op>, stack: seq<nat>, rooted: set<Digest>) {
    && (forall k :: k in stack ==> RootedAt(chain, k))
    && (forall i :: 0 <= i < |chain| && chain[i].digest in rooted ==> RootedAt(chain, i))
  }

  /** Every op naming `d` is collected or still on the stack. */
  ghost predicate Closed(chain: seq<Op>, children: map<Digest, seq<nat>>, stack: seq<nat>, rooted: set<Digest>,
                         d: Digest) {
    forall c :: c in Kids(children, d) && c < |chain| ==> c in stack || chain[c].digest in rooted
  }

  ghost predicate AllClosed(chain: seq<Op>, children: map<Digest, seq<nat>>, stack: seq<nat>, rooted: set<Digest>) {
    && Closed(chain, children, stack, rooted, GENESIS_PREV)
    && forall d :: d in rooted ==> Closed(chain, children, stack, rooted, d)
  }

  /** Popping an op collected before. */
  lemma VisitKnown(chain: seq<Op>, children: map<Digest, seq<nat>>, rest: seq<nat>, i: nat, rooted: set<Digest>)
    requires i < |chain| && chain[i].digest in rooted
    requires OnlyRooted(chain, rest + [i], rooted) && AllClosed(chain, children, rest + [i], rooted)
    ensures OnlyRooted(chain, rest, rooted) && AllClosed(chain, children, rest, rooted)
  {
    assert forall k :: k in rest ==> k in rest + [i];
    forall d | Closed(chain, children, rest + [i], rooted, d) ensures Closed(chain, children, rest, rooted, d) { }
  }

  /** Popping an op met for the first time: it is collected and its children pushed. */
  lemma VisitNew(chain: seq<Op>, children: map<Digest, seq<nat>>, rest: seq<nat>, i: nat, rooted: set<Digest>,
                 kids: seq<nat>)
    requires Deduplicated(chain) && i < |chain| && kids == Kids(children, chain[i].digest)
    requires forall c :: c in kids ==> RootedAt(chain, c)
    requires OnlyRooted(chain, rest + [i], rooted) && AllClosed(chain, children, rest + [i], rooted)
    ensures OnlyRooted(chain, rest + kids, rooted + {chain[i].digest})
    ensures AllClosed(chain, children, rest + kids, rooted + {chain[i].digest})
  {
    var found := rooted + {chain[i].digest};
    forall k | k in rest + kids ensures RootedAt(chain, k) {
      if k in rest { assert k in rest + [i]; }
    }
    assert i in rest + [i];
    forall d | Closed(chain, children, rest + [i], rooted, d) ensures Closed(chain, children, rest + kids, found, d) { }
    assert Closed(chain, children, rest + kids, found, chain[i].digest);
  }

  lemma GenesisKids(chain: seq<Op>, children: map<Digest, seq<nat>>)
    requires Indexes(chain, children)
    ensures forall c :: c in Kids(children, GENESIS_PREV) ==> RootedAt(chain, c)
  {
    assert Lists(chain, |chain|, GENESIS_PREV, Kids(children, GENESIS_PREV));
    forall c | c in Kids(children, GENESIS_PREV) ensures RootedAt(chain, c) {
      RootedByParent(ToSet(chain), chain[c]);
    }
  }

  lemma RootedKids(chain: seq<Op>, children: map<Digest, seq<nat>>, i: nat)
    requires Indexes(chain, children) && RootedAt(chain, i)
    ensures forall c :: c in Kids(children, chain[i].digest) ==> RootedAt(chain, c)
  {
    var kids := Kids(children, chain[i].digest);
    assert Lists(chain, |chain|, chain[i].digest, kids);
    forall c | c in kids ensures RootedAt(chain, c) { RootedKid(ToSet(chain), chain[i], chain[c]); }
  }

  lemma RootedKid(ops: set<Op>, parent: Op, kid: Op)
    requires parent in ops && kid in ops && kid.prev == parent.digest && Rooted(ops, parent)
    ensures Rooted(ops, kid)
  {
    RootedByParent(ops, kid);
  }

  lemma ClosedReaches(chain: seq<Op>, children: map<Digest, seq<nat>>, rooted: set<Digest>, i: nat,
                      depth: Digest -> nat)
    requires Deduplicated(chain) && Acyclic(ToSet(chain), depth) && Indexes(chain, children)
    requires AllClosed(chain, children, [], rooted)
    requires i < |chain| && Rooted(ToSet(chain), chain[i])
    ensures chain[i].digest in rooted
    decreases depth(chain[i].digest)
  {
    assert chain[i] in ToSet(chain);
    assert Lists(chain, |chain|, chain[i].prev, Kids(children, chain[i].prev));
    RootedByParent(ToSet(chain), chain[i]);
    if chain[i].prev != GENESIS_PREV {
      var parent :| parent in ToSet(chain) && parent.digest == chain[i].prev && Rooted(ToSet(chain), parent);
      var j :| 0 <= j < |chain| && chain[j] == parent;
      ClosedReaches(chain, children, rooted, j, depth);
    }
  }

  lemma HeightExists(ops: set<Op>, d: Digest, bound: nat)
    requires forall path :: Linked(ops, d, path) ==> |path| <= bound
    ensures exists h: nat :: h <= bound && IsHeight(ops, d, h)
  {
    if exists path :: Linked(ops, d, path) && |path| == bound {
      assert IsHeight(ops, d, bound);
    } else {
      assert Linked(ops, d, []);
      assert bound > 0;
      HeightExists(ops, d, bound - 1);
    }
  }

  lemma {:induction false} LinkedGrows(less: set<Op>, more: set<Op>, d: Digest, path: seq<Op>)
    requires less <= more && Linked(less, d, path)
    ensures Linked(more, d, path)
    decreases |path|
  {
    if path != [] { LinkedGrows(less, more, path[0].digest, path[1..]); }
  }

  /** Losing any ops off the selected branch leaves the selection as it was. */
  lemma {:induction false} LossKeepsSelection(more: set<Op>, less: set<Op>, d: Digest, path: seq<Op>)
    requires less <= more && Selects(more, d, path) && ToSet(path) <= less
    ensures Selects(less, d, path)
    decreases |path|
  {
    if path != [] {
      var first := path[0];
      assert path == [first] + path[1..];
      LossKeepsSelection(more, less, first.digest, path[1..]);
      SelectionIsLongest(less, first.digest, path[1..]);
      SelectionIsLongest(more, first.digest, path[1..]);
      forall o | o in Children(less, d) && o != first ensures Preferred(less, first, o) {
        assert o in Children(more, d);
        StillPreferred(more, less, first, o, |path| - 1);
      }
    }
  }

  lemma StillPreferred(more: set<Op>, less: set<Op>, a: Op, b: Op, h: nat)
    requires less <= more && Preferred(more, a, b) && IsHeight(more, a.digest, h) && IsHeight(less, a.digest, h)
    ensures Preferred(less, a, b)
  {
    var ha, hb :| IsHeight(more, a.digest, ha) && IsHeight(more, b.digest, hb)
      && (ha > hb || (ha == hb && Before(a, b)));
    HeightIsUnique(more, a.digest, ha, h);
    forall p | Linked(less, b.digest, p) ensures |p| <= hb { LinkedGrows(less, more, b.digest, p); }
    HeightExists(less, b.digest, hb);
  }

  /** Deleting a removable object changes nothing else a read observes: the kept branch stays, and
      every other op keeps its class. */
  lemma RemovableIsSafe(ops: set<Op>, kept: seq<Op>, x: Op, depth: Digest -> nat)
    requires DigestsIdentify(ops) && Acyclic(ops, depth)
    requires Selects(ops, GENESIS_PREV, kept)
    requires Removable(ops, kept, x)
    ensures Selects(ops - {x}, GENESIS_PREV, kept)
    ensures forall o :: o in ops - {x} ==> ClassOf(ops - {x}, o) == ClassOf(ops, o)
  {
    SelectionStays(ops, GENESIS_PREV, kept);
    LossKeepsSelection(ops, ops - {x}, GENESIS_PREV, kept);
    RemovalStrands(ops, x, depth);
  }

  /** `order` deletes objects one by one, each removable when its turn comes. */
  ghost predicate Deletes(ops: set<Op>, kept: seq<Op>, order: seq<Op>)
    decreases |order|
  {
    order == [] || (Removable(ops, kept, order[0]) && Deletes(ops - {order[0]}, kept, order[1..]))
  }

  /** A kept op is named by a kept op or starts the chain. */
  lemma {:induction false} KeptParent(ops: set<Op>, d: Digest, path: seq<Op>, c: Op)
    requires Linked(ops, d, path) && c in path
    ensures c.prev == d || exists p :: p in path && p.digest == c.prev
    decreases |path|
  {
    if c != path[0] {
      KeptParent(ops, path[0].digest, path[1..], c);
      if c.prev == path[0].digest { assert path[0] in path; }
      else { var p :| p in path[1..] && p.digest == c.prev; assert p in path; }
    }
  }

  lemma DeepestExists(ops: set<Op>, depth: Digest -> nat) returns (deepest: Op)
    requires ops != {}
    ensures deepest in ops && forall o :: o in ops ==> depth(o.digest) <= depth(deepest.digest)
  {
    deepest :| deepest in ops;
    var rest := ops - {deepest};
    if rest != {} {
      var other := DeepestExists(rest, depth);
      if depth(other.digest) > depth(deepest.digest) { deepest := other; }
    }
  }

  /** A break that is only a fork always has a removable leaf. */
  lemma ForkHasRemovable(ops: set<Op>, kept: seq<Op>, depth: Digest -> nat) returns (x: Op)
    requires DigestsIdentify(ops) && Acyclic(ops, depth)
    requires Selects(ops, GENESIS_PREV, kept)
    requires ops != ToSet(kept)
    requires forall o :: o in ops && o !in kept ==> ClassOf(ops, o) == ForkLoser
    ensures Removable(ops, kept, x)
  {
    SelectionIsLinked(ops, GENESIS_PREV, kept);
    assert ops == ToSet(kept) + (ops - ToSet(kept));
    x := DeepestExists(ops - ToSet(kept), depth);
    assert x in ops && x !in kept && ClassOf(ops, x) == ForkLoser;
    RootedDepth(ops, x, depth);
    DeepestIsLeaf(ops, kept, x, depth);
  }

  lemma SelectionIsLinked(ops: set<Op>, d: Digest, path: seq<Op>)
    requires Selects(ops, d, path)
    ensures Linked(ops, d, path) && ToSet(path) <= ops
  {
    SelectionStays(ops, d, path);
    SelectionIsLongest(ops, d, path);
  }

  lemma DeepestIsLeaf(ops: set<Op>, kept: seq<Op>, x: Op, depth: Digest -> nat)
    requires DigestsIdentify(ops) && Acyclic(ops, depth) && Linked(ops, GENESIS_PREV, kept) && ToSet(kept) <= ops
    requires x in ops && x !in kept && depth(GENESIS_PREV) < depth(x.digest)
    requires forall o :: o in ops - ToSet(kept) ==> depth(o.digest) <= depth(x.digest)
    ensures Children(ops, x.digest) == {}
  {
    forall c | c in ops ensures c.prev != x.digest {
      if c in kept { NotNamedByKept(ops, kept, x, c, depth); }
      else { NotNamedByDropped(ops, kept, x, c, depth); }
    }
  }

  lemma NotNamedByKept(ops: set<Op>, kept: seq<Op>, x: Op, c: Op, depth: Digest -> nat)
    requires DigestsIdentify(ops) && Linked(ops, GENESIS_PREV, kept) && ToSet(kept) <= ops
    requires x in ops && x !in kept && c in kept && depth(GENESIS_PREV) < depth(x.digest)
    ensures c.prev != x.digest
  {
    KeptParent(ops, GENESIS_PREV, kept, c);
    if c.prev != GENESIS_PREV {
      var p :| p in kept && p.digest == c.prev;
      assert p in ToSet(kept);
    }
  }

  lemma NotNamedByDropped(ops: set<Op>, kept: seq<Op>, x: Op, c: Op, depth: Digest -> nat)
    requires Acyclic(ops, depth) && c in ops && c !in kept
    requires forall o :: o in ops - ToSet(kept) ==> depth(o.digest) <= depth(x.digest)
    ensures c.prev != x.digest
  {
    assert c in ops - ToSet(kept);
  }

  /** A quarantine classified as a fork is fully remediable: deleting losing branches leaf by
      leaf, each deletion allowed by the rails, ends with exactly the surviving chain. */
  lemma ForkIsRemediable(ops: set<Op>, kept: seq<Op>, depth: Digest -> nat) returns (order: seq<Op>)
    requires DigestsIdentify(ops) && Acyclic(ops, depth)
    requires Selects(ops, GENESIS_PREV, kept)
    requires forall o :: o in ops && o !in kept ==> ClassOf(ops, o) == ForkLoser
    ensures Deletes(ops, kept, order)
    ensures ops - ToSet(order) == ToSet(kept)
    decreases ops
  {
    if ops == ToSet(kept) {
      order := [];
    } else {
      var x := ForkHasRemovable(ops, kept, depth);
      RemovableIsSafe(ops, kept, x, depth);
      var rest := ForkIsRemediable(ops - {x}, kept, depth);
      order := [x] + rest;
      OrderStep(ops, kept, x, rest);
    }
  }

  lemma OrderStep(ops: set<Op>, kept: seq<Op>, x: Op, rest: seq<Op>)
    requires Removable(ops, kept, x) && Deletes(ops - {x}, kept, rest) && ops - {x} - ToSet(rest) == ToSet(kept)
    ensures Deletes(ops, kept, [x] + rest) && ops - ToSet([x] + rest) == ToSet(kept)
  {
    assert ([x] + rest)[1..] == rest;
    assert ToSet([x] + rest) == {x} + ToSet(rest);
  }
}
