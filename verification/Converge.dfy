/** Convergence of the op-log into per-note state (`oplog/converge.rs`).

    `Converged` says, from the SET of ops alone, what the state of every note is; the
    method `Converge` is the streaming fold of the source, proved to compute it. */
module Convergence {
  import opened Options
  import opened OpLog

  datatype NotePointer = NotePointer(objectKey: string, cid: Digest, lamport: nat, author: string, keyEpoch: nat)

  datatype TypedLink = TypedLink(to: NoteId, rel: LinkRel)

  datatype NoteState = NoteState(
    noteId: NoteId,
    pointer: Option<NotePointer>,
    tombstoned: bool,
    redacted: bool,
    links: set<NoteId>,
    relations: set<TypedLink>,
    reinforcers: set<string>,
    lastReinforced: Option<nat>)

  type ConvergedState = map<NoteId, NoteState>

  predicate IsContent(op: Op) {
    op.kind.Remember? || op.kind.Edit?
  }

  predicate IsLifecycle(op: Op) {
    IsContent(op) || op.kind.Forget?
  }

  predicate RelatesTo(op: Op, to: NoteId) {
    op.kind.Relate? && op.kind.to == to
  }

  // ---------------------------------------------------------------- meaning

  function NoteOps(ops: set<Op>, n: NoteId): set<Op> {
    set op | op in ops && op.noteId == n
  }

  function ContentOps(ops: set<Op>): set<Op> {
    set op | op in ops && IsContent(op)
  }

  function LifecycleOps(ops: set<Op>): set<Op> {
    set op | op in ops && IsLifecycle(op)
  }

  function RelateOps(ops: set<Op>, to: NoteId): set<Op> {
    set op | op in ops && RelatesTo(op, to)
  }

  function ReinforceOps(ops: set<Op>): set<Op> {
    set op | op in ops && op.kind.Reinforce?
  }

  function PointerOf(op: Op): NotePointer {
    NotePointer(op.objectKey, op.cid, op.lamport, op.author, op.keyEpoch)
  }

  ghost predicate IsLeader(leader: Option<Op>, ops: set<Op>) {
    match leader
    case None => ops == {}
    case Some(op) => Leads(op, ops)
  }

  ghost predicate IsLatest(time: Option<nat>, ops: set<Op>) {
    match time
    case None => ops == {}
    case Some(t) =>
      && (exists op :: op in ops && TimestampMs(op.opId) == t)
      && forall op :: op in ops ==> TimestampMs(op.opId) <= t
  }

  ghost predicate HasRedact(ops: set<Op>) {
    exists op :: op in ops && op.kind.Redact?
  }

  function LinkTargets(ops: set<Op>): set<NoteId> {
    set op | op in ops && (op.kind.Link? || op.kind.Relate?) :: op.kind.to
  }

  function Reinforcers(ops: set<Op>): set<string> {
    set op | op in ops && op.kind.Reinforce? :: op.author
  }

  function RelateTargets(ops: set<Op>): set<NoteId> {
    set op | op in ops && op.kind.Relate? :: op.kind.to
  }

  /** The note body is that of the leading `Remember`/`Edit`, or there is none. */
  ghost predicate PointerFollows(pointer: Option<NotePointer>, ops: set<Op>) {
    match pointer
    case None => ContentOps(ops) == {}
    case Some(p) => exists op :: Leads(op, ContentOps(ops)) && p == PointerOf(op)
  }

  /** The leading lifecycle op is a `Forget`. */
  ghost predicate Forgotten(ops: set<Op>) {
    exists op :: Leads(op, LifecycleOps(ops)) && op.kind.Forget?
  }

  /** `rel` is what the leading `Relate` op towards `to` asserts. */
  ghost predicate Asserts(ops: set<Op>, to: NoteId, rel: LinkRel) {
    exists op :: Leads(op, RelateOps(ops, to)) && op.kind.rel == rel
  }

  function Erased(n: NoteId): NoteState {
    NoteState(n, None, true, true, {}, {}, {}, None)
  }

  /** What the ops of one note, as a set, make of it. */
  ghost predicate IsState(ops: set<Op>, n: NoteId, s: NoteState) {
    if HasRedact(ops) then s == Erased(n)
    else
      && s.noteId == n
      && !s.redacted
      && PointerFollows(s.pointer, ops)
      && (s.tombstoned <==> Forgotten(ops))
      && s.links == LinkTargets(ops)
      && (forall t :: t in s.relations ==> t.to in RelateTargets(ops))
      && (forall t :: t in s.relations <==> Asserts(ops, t.to, t.rel))
      && s.reinforcers == Reinforcers(ops)
      && IsLatest(s.lastReinforced, ReinforceOps(ops))
  }

  ghost predicate Converged(ops: set<Op>, m: ConvergedState) {
    && m.Keys == (set op | op in ops :: op.noteId)
    && forall n :: n in m ==> IsState(NoteOps(ops, n), n, m[n])
  }

  // ---------------------------------------------------------------- the fold

  datatype Accumulator = Accumulator(
    pointer: Option<Op>,
    lifecycle: Option<(Op, bool)>,
    links: set<NoteId>,
    relations: map<NoteId, (Op, LinkRel)>,
    reinforcers: set<string>,
    lastReinforced: Option<nat>,
    redacted: bool)

  const DEFAULT := Accumulator(None, None, {}, map[], {}, None, false)

  function ConsiderPointer(acc: Accumulator, op: Op): Accumulator {
    if acc.pointer.None? || Outranks(op, acc.pointer.value)
    then acc.(pointer := Some(op)) else acc
  }

  function ConsiderLifecycle(acc: Accumulator, op: Op, isForget: bool): Accumulator {
    if acc.lifecycle.None? || Outranks(op, acc.lifecycle.value.0)
    then acc.(lifecycle := Some((op, isForget))) else acc
  }

  /** `NoteAccumulator::observe`. */
  function Observe(acc: Accumulator, op: Op): Accumulator {
    match op.kind
    case Remember => ConsiderLifecycle(ConsiderPointer(acc, op), op, false)
    case Edit => ConsiderLifecycle(ConsiderPointer(acc, op), op, false)
    case Forget => ConsiderLifecycle(acc, op, true)
    case Redact => acc.(redacted := true)
    case Link(to) => acc.(links := acc.links + {to})
    case Relate(to, rel) =>
      var relations :=
        if to in acc.relations && !Outranks(op, acc.relations[to].0) then acc.relations
        else acc.relations[to := (op, rel)];
      acc.(links := acc.links + {to}, relations := relations)
    case Reinforce =>
      var at := TimestampMs(op.opId);
      acc.(reinforcers := acc.reinforcers + {op.author},
           lastReinforced := if acc.lastReinforced.None? || acc.lastReinforced.value < at
                             then Some(at) else acc.lastReinforced)
  }

  /** `NoteAccumulator::into_state`. */
  function IntoState(acc: Accumulator, n: NoteId): NoteState {
    if acc.redacted then Erased(n)
    else
      NoteState(
        n,
        if acc.pointer.None? then None else Some(PointerOf(acc.pointer.value)),
        acc.lifecycle.Some? && acc.lifecycle.value.1,
        false,
        acc.links,
        set to | to in acc.relations :: TypedLink(to, acc.relations[to].1),
        acc.reinforcers,
        acc.lastReinforced)
  }

  /** `acc` is the reduction of exactly the ops in `ops`. */
  ghost predicate Tracks(acc: Accumulator, ops: set<Op>) {
    && IsLeader(acc.pointer, ContentOps(ops))
    && TracksLifecycle(acc.lifecycle, ops)
    && acc.links == LinkTargets(ops)
    && TracksRelations(acc.relations, ops)
    && acc.reinforcers == Reinforcers(ops)
    && IsLatest(acc.lastReinforced, ReinforceOps(ops))
    && (acc.redacted <==> HasRedact(ops))
  }

  ghost predicate TracksRelations(relations: map<NoteId, (Op, LinkRel)>, ops: set<Op>) {
    relations.Keys == RelateTargets(ops) && forall to :: to in relations ==> Wins(relations[to], ops, to)
  }

  ghost predicate Wins(winner: (Op, LinkRel), ops: set<Op>, to: NoteId) {
    Leads(winner.0, RelateOps(ops, to)) && winner.0.kind.rel == winner.1
  }

  lemma OutranksIsTotal(a: Op, b: Op)
    requires a.digest != b.digest
    ensures Outranks(a, b) <==> !Outranks(b, a)
  {
  }

  lemma OutranksIsTransitive(a: Op, b: Op, c: Op)
    requires Outranks(a, b) && Outranks(b, c)
    ensures Outranks(a, c)
  {
  }

  /** The challenger either takes the lead of the extended set or leaves it as it was. */
  lemma LeaderAfter(leader: Op, ops: set<Op>, op: Op)
    requires DigestsIdentify(ops + {op})
    requires Leads(leader, ops)
    ensures Leads(if Outranks(op, leader) then op else leader, ops + {op})
  {
    if op != leader {
      OutranksIsTotal(op, leader);
      forall b | b in ops && Outranks(op, leader)
        ensures b != op ==> Outranks(op, b)
      {
        if b != leader { OutranksIsTransitive(op, leader, b); }
      }
    }
  }

  lemma LeadIsUnique(a: Op, b: Op, ops: set<Op>)
    requires Leads(a, ops) && Leads(b, ops)
    ensures a == b
  {
  }

  /** The leading content op, after one more lifecycle op. */
  lemma ObservePointer(acc: Accumulator, ops: set<Op>, op: Op)
    requires DigestsIdentify(ops + {op}) && IsLifecycle(op)
    requires IsLeader(acc.pointer, ContentOps(ops))
    ensures IsLeader(Observe(acc, op).pointer, ContentOps(ops + {op}))
  {
    assert ContentOps(ops + {op}) == if IsContent(op) then ContentOps(ops) + {op} else ContentOps(ops);
    if acc.pointer.Some? && IsContent(op) { LeaderAfter(acc.pointer.value, ContentOps(ops), op); }
  }

  ghost predicate TracksLifecycle(lifecycle: Option<(Op, bool)>, ops: set<Op>) {
    && IsLeader(if lifecycle.None? then None else Some(lifecycle.value.0), LifecycleOps(ops))
    && (lifecycle.Some? ==> (lifecycle.value.1 <==> lifecycle.value.0.kind.Forget?))
  }

  lemma ObserveLifecycle(acc: Accumulator, ops: set<Op>, op: Op)
    requires DigestsIdentify(ops + {op}) && IsLifecycle(op)
    requires TracksLifecycle(acc.lifecycle, ops)
    ensures TracksLifecycle(Observe(acc, op).lifecycle, ops + {op})
  {
    assert LifecycleOps(ops + {op}) == LifecycleOps(ops) + {op};
    if acc.lifecycle.Some? { LeaderAfter(acc.lifecycle.value.0, LifecycleOps(ops), op); }
  }

  lemma ObserveContent(acc: Accumulator, ops: set<Op>, op: Op)
    requires DigestsIdentify(ops + {op})
    requires Tracks(acc, ops)
    requires IsLifecycle(op)
    ensures Tracks(Observe(acc, op), ops + {op})
  {
    ObservePointer(acc, ops, op);
    ObserveLifecycle(acc, ops, op);
    SameSideFields(ops, op);
    SameRelations(acc.relations, ops, op);
  }

  lemma SameRelations(relations: map<NoteId, (Op, LinkRel)>, ops: set<Op>, op: Op)
    requires IsLifecycle(op) && TracksRelations(relations, ops)
    ensures TracksRelations(relations, ops + {op})
  {
    SameSideFields(ops, op);
    forall to | to in relations ensures Wins(relations[to], ops + {op}, to) { assert Wins(relations[to], ops, to); }
  }

  /** An op that is not a link, relation, reinforcement or redaction changes none of their reductions. */
  lemma SameSideFields(ops: set<Op>, op: Op)
    requires IsLifecycle(op)
    ensures LinkTargets(ops + {op}) == LinkTargets(ops)
    ensures RelateTargets(ops + {op}) == RelateTargets(ops)
    ensures forall to :: RelateOps(ops + {op}, to) == RelateOps(ops, to)
    ensures Reinforcers(ops + {op}) == Reinforcers(ops)
    ensures ReinforceOps(ops + {op}) == ReinforceOps(ops)
    ensures HasRedact(ops + {op}) <==> HasRedact(ops)
  {
    assert forall o :: o in ops ==> o in ops + {op};
    forall to ensures RelateOps(ops + {op}, to) == RelateOps(ops, to) { }
    if HasRedact(ops) {
      var r :| r in ops && r.kind.Redact?;
      assert r in ops + {op};
    }
  }

  lemma ObserveOther(acc: Accumulator, ops: set<Op>, op: Op)
    requires DigestsIdentify(ops + {op})
    requires Tracks(acc, ops)
    requires !IsLifecycle(op)
    ensures Tracks(Observe(acc, op), ops + {op})
  {
    var more := ops + {op};
    assert LifecycleOps(more) == LifecycleOps(ops);
    assert ContentOps(more) == ContentOps(ops);
    assert HasRedact(more) <==> HasRedact(ops) || op.kind.Redact? by {
      assert forall o :: o in ops ==> o in more;
      if HasRedact(ops) { var r :| r in ops && r.kind.Redact?; assert r in more; }
      if op.kind.Redact? { assert op in more; }
    }
    assert LinkTargets(more) == LinkTargets(ops) + (if op.kind.Link? || op.kind.Relate? then {op.kind.to} else {});
    assert Reinforcers(more) == Reinforcers(ops) + (if op.kind.Reinforce? then {op.author} else {});
    ObserveRelations(acc, ops, op);
    ObserveReinforcement(acc, ops, op);
  }

  lemma ObserveRelations(acc: Accumulator, ops: set<Op>, op: Op)
    requires DigestsIdentify(ops + {op})
    requires TracksRelations(acc.relations, ops)
    requires !IsLifecycle(op)
    ensures TracksRelations(Observe(acc, op).relations, ops + {op})
  {
    var r := Observe(acc, op).relations;
    assert RelateTargets(ops + {op}) == RelateTargets(ops) + (if op.kind.Relate? then {op.kind.to} else {});
    forall to | to in r ensures Wins(r[to], ops + {op}, to) { ObserveRelation(acc, ops, op, to); }
  }

  lemma ObserveRelation(acc: Accumulator, ops: set<Op>, op: Op, to: NoteId)
    requires DigestsIdentify(ops + {op})
    requires TracksRelations(acc.relations, ops)
    requires !IsLifecycle(op)
    requires to in Observe(acc, op).relations
    ensures Wins(Observe(acc, op).relations[to], ops + {op}, to)
  {
    var mine := RelateOps(ops, to);
    if RelatesTo(op, to) {
      assert RelateOps(ops + {op}, to) == mine + {op};
      if to in acc.relations {
        assert DigestsIdentify(mine + {op});
        LeaderAfter(acc.relations[to].0, mine, op);
      } else {
        assert mine == {};
      }
    } else {
      assert RelateOps(ops + {op}, to) == mine;
    }
  }

  lemma ObserveReinforcement(acc: Accumulator, ops: set<Op>, op: Op)
    requires Tracks(acc, ops)
    requires !IsLifecycle(op)
    ensures IsLatest(Observe(acc, op).lastReinforced, ReinforceOps(ops + {op}))
  {
    var more := ops + {op};
    assert ReinforceOps(more) == ReinforceOps(ops) + (if op.kind.Reinforce? then {op} else {});
    if op.kind.Reinforce? {
      assert op in ReinforceOps(more);
      if acc.lastReinforced.Some? {
        var o :| o in ReinforceOps(ops) && TimestampMs(o.opId) == acc.lastReinforced.value;
        assert o in ReinforceOps(more);
      }
    }
  }

  lemma DefaultTracksNothing()
    ensures Tracks(DEFAULT, {})
  {
  }

  /** A tracked accumulator finalizes to the state its op set determines. */
  lemma IntoStateIsState(acc: Accumulator, ops: set<Op>, n: NoteId)
    requires Tracks(acc, ops)
    ensures IsState(ops, n, IntoState(acc, n))
  {
    if !acc.redacted {
      var s := IntoState(acc, n);
      assert s.tombstoned <==> Forgotten(ops) by {
        if acc.lifecycle.Some? {
          assert Leads(acc.lifecycle.value.0, LifecycleOps(ops));
        }
      }
      forall t
        ensures t in s.relations <==> Asserts(ops, t.to, t.rel)
      {
        if Asserts(ops, t.to, t.rel) {
          var op :| Leads(op, RelateOps(ops, t.to)) && op.kind.rel == t.rel;
          assert op in ops && op.kind.Relate?;
          assert t.to in acc.relations;
          LeadIsUnique(op, acc.relations[t.to].0, RelateOps(ops, t.to));
        }
      }
    }
  }

  // ---------------------------------------------------------------- results

  /** Every group reduces exactly the ops its note has among `seen`. */
  ghost predicate GroupsTrack(groups: map<NoteId, Accumulator>, seen: set<Op>) {
    && groups.Keys == (set op | op in seen :: op.noteId)
    && forall n :: n in groups ==> Tracks(groups[n], NoteOps(seen, n))
  }

  /** The streaming fold computes the state the op set determines. */
  method Converge(ops: seq<Op>) returns (state: ConvergedState)
    requires DigestsIdentify(ToSet(ops))
    ensures Converged(ToSet(ops), state)
  {
    var groups: map<NoteId, Accumulator> := map[];
    for i := 0 to |ops|
      invariant GroupsTrack(groups, ToSet(ops[..i]))
    {
      var op := ops[i];
      assert ToSet(ops[..i + 1]) == ToSet(ops[..i]) + {op};
      Step(groups, ToSet(ops[..i]), op, ToSet(ops));
      var acc := if op.noteId in groups then groups[op.noteId] else DEFAULT;
      groups := groups[op.noteId := Observe(acc, op)];
    }
    assert ops[..|ops|] == ops;
    forall n | n in groups
      ensures IsState(NoteOps(ToSet(ops), n), n, IntoState(groups[n], n))
    {
      IntoStateIsState(groups[n], NoteOps(ToSet(ops), n), n);
    }
    state := map n | n in groups :: IntoState(groups[n], n);
  }

  lemma Step(groups: map<NoteId, Accumulator>, seen: set<Op>, op: Op, universe: set<Op>)
    requires DigestsIdentify(universe) && seen <= universe && op in universe
    requires GroupsTrack(groups, seen)
    ensures var acc := if op.noteId in groups then groups[op.noteId] else DEFAULT;
            GroupsTrack(groups[op.noteId := Observe(acc, op)], seen + {op})
  {
    var acc := if op.noteId in groups then groups[op.noteId] else DEFAULT;
    var next := groups[op.noteId := Observe(acc, op)];
    var before := NoteOps(seen, op.noteId);
    StepOwn(groups, seen, op, universe);
    assert NoteOps(seen + {op}, op.noteId) == before + {op};
    forall n | n in next
      ensures Tracks(next[n], NoteOps(seen + {op}, n))
    {
      if n != op.noteId { assert NoteOps(seen + {op}, n) == NoteOps(seen, n); }
    }
    assert next.Keys == (set o | o in seen + {op} :: o.noteId);
  }

  lemma StepOwn(groups: map<NoteId, Accumulator>, seen: set<Op>, op: Op, universe: set<Op>)
    requires DigestsIdentify(universe) && seen <= universe && op in universe
    requires GroupsTrack(groups, seen)
    ensures var acc := if op.noteId in groups then groups[op.noteId] else DEFAULT;
            Tracks(Observe(acc, op), NoteOps(seen, op.noteId) + {op})
  {
    if op.noteId in groups {
      ObserveTracks(groups[op.noteId], NoteOps(seen, op.noteId), op, universe);
    } else {
      assert NoteOps(seen, op.noteId) == {};
      DefaultTracksNothing();
      ObserveTracks(DEFAULT, {}, op, universe);
    }
  }

  lemma ObserveTracks(acc: Accumulator, ops: set<Op>, op: Op, universe: set<Op>)
    requires DigestsIdentify(universe) && ops <= universe && op in universe
    requires Tracks(acc, ops)
    ensures Tracks(Observe(acc, op), ops + {op})
  {
    if IsLifecycle(op) { ObserveContent(acc, ops, op); } else { ObserveOther(acc, ops, op); }
  }

  lemma StateIsUnique(ops: set<Op>, n: NoteId, a: NoteState, b: NoteState)
    requires IsState(ops, n, a) && IsState(ops, n, b)
    ensures a == b
  {
    if !HasRedact(ops) {
      assert a.pointer == b.pointer by {
        if a.pointer.Some? && b.pointer.Some? {
          var x :| Leads(x, ContentOps(ops)) && a.pointer.value == PointerOf(x);
          var y :| Leads(y, ContentOps(ops)) && b.pointer.value == PointerOf(y);
          LeadIsUnique(x, y, ContentOps(ops));
        }
      }
      assert a.relations == b.relations;
      assert a.lastReinforced == b.lastReinforced by {
        if a.lastReinforced.Some? && b.lastReinforced.Some? {
          var x :| x in ReinforceOps(ops) && TimestampMs(x.opId) == a.lastReinforced.value;
          var y :| y in ReinforceOps(ops) && TimestampMs(y.opId) == b.lastReinforced.value;
        }
      }
    }
  }

  /** Order independence: machines holding the same ops, in any order and with any
      repetition, converge to identical state. */
  lemma ConvergenceIsDetermined(ops: set<Op>, a: ConvergedState, b: ConvergedState)
    requires Converged(ops, a) && Converged(ops, b)
    ensures a == b
  {
    forall n | n in a ensures a[n] == b[n] {
      StateIsUnique(NoteOps(ops, n), n, a[n], b[n]);
    }
  }

  // ---------------------------------------------------------------- on the fields of the ops

  /** Greatest (lamport, op id, author key, hash) leads. */
  lemma GreatestLeads(a: Op, ops: set<Op>)
    requires a in ops
    requires forall b :: b in ops && b != a ==>
               || a.lamport > b.lamport
               || (a.lamport == b.lamport && a.opId > b.opId)
               || (a.lamport == b.lamport && a.opId == b.opId && a.authorKey > b.authorKey)
               || (a.lamport == b.lamport && a.opId == b.opId && a.authorKey == b.authorKey && a.digest > b.digest)
    ensures Leads(a, ops)
  {
  }

  lemma StateOfNote(ops: set<Op>, m: ConvergedState, a: Op)
    requires Converged(ops, m) && a in ops
    requires forall b :: b in ops && b.noteId == a.noteId ==> !b.kind.Redact?
    ensures a.noteId in m && !HasRedact(NoteOps(ops, a.noteId))
    ensures IsState(NoteOps(ops, a.noteId), a.noteId, m[a.noteId])
  {
    assert a.noteId in m.Keys;
  }

  /** The note points at the remember or edit greatest in (lamport, op id, author key, hash). */
  lemma NewestContentPoints(ops: set<Op>, m: ConvergedState, a: Op)
    requires Converged(ops, m) && a in ops && (a.kind.Remember? || a.kind.Edit?)
    requires forall b :: b in ops && b.noteId == a.noteId ==> !b.kind.Redact?
    requires forall b :: b in ops && b.noteId == a.noteId && (b.kind.Remember? || b.kind.Edit?) && b != a ==>
               || a.lamport > b.lamport
               || (a.lamport == b.lamport && a.opId > b.opId)
               || (a.lamport == b.lamport && a.opId == b.opId && a.authorKey > b.authorKey)
               || (a.lamport == b.lamport && a.opId == b.opId && a.authorKey == b.authorKey && a.digest > b.digest)
    ensures a.noteId in m
    ensures m[a.noteId].pointer == Some(NotePointer(a.objectKey, a.cid, a.lamport, a.author, a.keyEpoch))
  {
    var mine := NoteOps(ops, a.noteId);
    StateOfNote(ops, m, a);
    assert a in ContentOps(mine);
    GreatestLeads(a, ContentOps(mine));
    var x :| Leads(x, ContentOps(mine)) && m[a.noteId].pointer.value == PointerOf(x);
    LeadIsUnique(a, x, ContentOps(mine));
  }

  /** The note is dead exactly when the greatest of its remembers, edits and forgets is a forget. */
  lemma NewestLifecycleDecides(ops: set<Op>, m: ConvergedState, a: Op)
    requires Converged(ops, m) && a in ops && (a.kind.Remember? || a.kind.Edit? || a.kind.Forget?)
    requires forall b :: b in ops && b.noteId == a.noteId ==> !b.kind.Redact?
    requires forall b :: (b in ops && b.noteId == a.noteId && b != a
                          && (b.kind.Remember? || b.kind.Edit? || b.kind.Forget?)) ==>
               || a.lamport > b.lamport
               || (a.lamport == b.lamport && a.opId > b.opId)
               || (a.lamport == b.lamport && a.opId == b.opId && a.authorKey > b.authorKey)
               || (a.lamport == b.lamport && a.opId == b.opId && a.authorKey == b.authorKey && a.digest > b.digest)
    ensures a.noteId in m && (m[a.noteId].tombstoned <==> a.kind.Forget?)
  {
    var mine := NoteOps(ops, a.noteId);
    StateOfNote(ops, m, a);
    assert a in LifecycleOps(mine);
    GreatestLeads(a, LifecycleOps(mine));
    if Forgotten(mine) {
      var x :| Leads(x, LifecycleOps(mine)) && x.kind.Forget?;
      LeadIsUnique(a, x, LifecycleOps(mine));
    }
  }

  /** The one relation towards a note is that of the greatest op relating to it. */
  lemma NewestRelationHolds(ops: set<Op>, m: ConvergedState, a: Op)
    requires Converged(ops, m) && a in ops && a.kind.Relate?
    requires forall b :: b in ops && b.noteId == a.noteId ==> !b.kind.Redact?
    requires forall b :: b in ops && b.noteId == a.noteId && b.kind.Relate? && b.kind.to == a.kind.to && b != a ==>
               || a.lamport > b.lamport
               || (a.lamport == b.lamport && a.opId > b.opId)
               || (a.lamport == b.lamport && a.opId == b.opId && a.authorKey > b.authorKey)
               || (a.lamport == b.lamport && a.opId == b.opId && a.authorKey == b.authorKey && a.digest > b.digest)
    ensures a.noteId in m
    ensures forall r :: TypedLink(a.kind.to, r) in m[a.noteId].relations <==> r == a.kind.rel
  {
    var mine, to := NoteOps(ops, a.noteId), a.kind.to;
    StateOfNote(ops, m, a);
    assert a in RelateOps(mine, to);
    GreatestLeads(a, RelateOps(mine, to));
    assert Asserts(mine, to, a.kind.rel);
    forall r ensures Asserts(mine, to, r) <==> r == a.kind.rel {
      if Asserts(mine, to, r) {
        var x :| Leads(x, RelateOps(mine, to)) && x.kind.rel == r;
        LeadIsUnique(a, x, RelateOps(mine, to));
      }
    }
    forall r ensures TypedLink(to, r) in m[a.noteId].relations <==> r == a.kind.rel {
      assert TypedLink(to, r) in m[a.noteId].relations <==> Asserts(mine, to, r);
    }
  }

  /** A redacted note keeps nothing but its id. */
  lemma RedactionErases(ops: set<Op>, m: ConvergedState, r: Op)
    requires Converged(ops, m) && r in ops && r.kind.Redact?
    ensures r.noteId in m && m[r.noteId] == NoteState(r.noteId, None, true, true, {}, {}, {}, None)
  {
    assert r.noteId in m.Keys && r in NoteOps(ops, r.noteId);
  }

  /** The rest of a note that is not redacted: what is absent without ops of a kind, the links, the
      distinct reinforcers, and the time of the last reinforcement in milliseconds, an op id's top
      48 bits of 128. */
  lemma NoteIsUnionOfOps(ops: set<Op>, m: ConvergedState, n: NoteId)
    requires Converged(ops, m)
    ensures n in m <==> exists op :: op in ops && op.noteId == n
    ensures n in m && m[n].redacted ==> exists op :: op in ops && op.noteId == n && op.kind.Redact?
    ensures n in m && !m[n].redacted ==>
              && (m[n].pointer == None <==>
                  forall op :: op in ops && op.noteId == n ==> !op.kind.Remember? && !op.kind.Edit?)
              && (m[n].tombstoned ==> exists op :: op in ops && op.noteId == n && op.kind.Forget?)
              && (forall t :: t in m[n].links <==>
                  exists op :: op in ops && op.noteId == n && (op.kind.Link? || op.kind.Relate?) && op.kind.to == t)
              && (forall t :: t in m[n].relations ==>
                  exists op :: op in ops && op.noteId == n && op.kind == Relate(t.to, t.rel))
              && (forall who :: who in m[n].reinforcers <==>
                  exists op :: op in ops && op.noteId == n && op.kind.Reinforce? && op.author == who)
    ensures n in m && !m[n].redacted && m[n].lastReinforced == None ==>
              forall op :: op in ops && op.noteId == n ==> !op.kind.Reinforce?
    ensures n in m && !m[n].redacted && m[n].lastReinforced.Some? ==>
              var t := m[n].lastReinforced.value;
              && (exists op :: (op in ops && op.noteId == n && op.kind.Reinforce?
                                && t * 0x1_0000_0000_0000_0000_0000 <= op.opId
                                   < (t + 1) * 0x1_0000_0000_0000_0000_0000))
              && (forall op :: op in ops && op.noteId == n && op.kind.Reinforce? ==>
                  op.opId < (t + 1) * 0x1_0000_0000_0000_0000_0000)
  {
    if n in m {
      var mine := NoteOps(ops, n);
      if m[n].redacted {
        RedactedHasRedaction(mine, n, m[n]);
      } else {
        PlainState(mine, n, m[n]);
        RelationsComeFrom(mine, n, m[n]);
      }
    }
  }

  lemma RedactedHasRedaction(mine: set<Op>, n: NoteId, s: NoteState)
    requires IsState(mine, n, s) && s.redacted
    ensures exists op :: op in mine && op.kind.Redact?
  {
  }

  lemma RelationsComeFrom(mine: set<Op>, n: NoteId, s: NoteState)
    requires IsState(mine, n, s) && !s.redacted
    ensures forall t :: t in s.relations ==> exists op :: op in mine && op.kind == Relate(t.to, t.rel)
  {
    forall t | t in s.relations ensures exists op :: op in mine && op.kind == Relate(t.to, t.rel) {
      var op :| Leads(op, RelateOps(mine, t.to)) && op.kind.rel == t.rel;
      assert op in mine && op.kind == Relate(t.to, t.rel);
    }
  }

  lemma PlainState(mine: set<Op>, n: NoteId, s: NoteState)
    requires IsState(mine, n, s) && !s.redacted
    ensures s.pointer == None <==> forall op :: op in mine ==> !op.kind.Remember? && !op.kind.Edit?
    ensures s.tombstoned ==> exists op :: op in mine && op.kind.Forget?
    ensures forall t :: t in s.links <==>
              exists op :: op in mine && (op.kind.Link? || op.kind.Relate?) && op.kind.to == t
    ensures forall who :: who in s.reinforcers <==>
              exists op :: op in mine && op.kind.Reinforce? && op.author == who
    ensures s.lastReinforced == None ==> forall op :: op in mine ==> !op.kind.Reinforce?
    ensures s.lastReinforced.Some? ==>
              var t := s.lastReinforced.value;
              && (exists op :: (op in mine && op.kind.Reinforce?
                                && t * 0x1_0000_0000_0000_0000_0000 <= op.opId
                                   < (t + 1) * 0x1_0000_0000_0000_0000_0000))
              && (forall op :: op in mine && op.kind.Reinforce? ==>
                  op.opId < (t + 1) * 0x1_0000_0000_0000_0000_0000)
  {
    if s.pointer == None {
      forall op | op in mine ensures !op.kind.Remember? && !op.kind.Edit? {
        assert op !in ContentOps(mine);
      }
    } else {
      var x :| Leads(x, ContentOps(mine)) && s.pointer.value == PointerOf(x);
      assert x in mine && (x.kind.Remember? || x.kind.Edit?);
    }
    if s.tombstoned {
      var x :| Leads(x, LifecycleOps(mine)) && x.kind.Forget?;
      assert x in mine;
    }
    LastReinforcement(mine, s.lastReinforced);
  }

  lemma LastReinforcement(mine: set<Op>, last: Option<nat>)
    requires IsLatest(last, ReinforceOps(mine))
    ensures last == None ==> forall op :: op in mine ==> !op.kind.Reinforce?
    ensures last.Some? ==>
              && (exists op :: (op in mine && op.kind.Reinforce?
                                && last.value * 0x1_0000_0000_0000_0000_0000 <= op.opId
                                   < (last.value + 1) * 0x1_0000_0000_0000_0000_0000))
              && (forall op :: op in mine && op.kind.Reinforce? ==>
                  op.opId < (last.value + 1) * 0x1_0000_0000_0000_0000_0000)
  {
    if last == None {
      forall op | op in mine ensures !op.kind.Reinforce? { assert op !in ReinforceOps(mine); }
    } else {
      var x :| x in ReinforceOps(mine) && TimestampMs(x.opId) == last.value;
      assert x in mine && x.kind.Reinforce?;
      forall op | op in mine && op.kind.Reinforce?
        ensures op.opId < (last.value + 1) * 0x1_0000_0000_0000_0000_0000
      {
        assert op in ReinforceOps(mine);
        assert TimestampMs(op.opId) <= last.value;
      }
    }
  }
}
