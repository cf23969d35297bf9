/** Incremental index restore against full replay (`store/mod.rs`).

    A sync either decodes every live note of the converged log, or restores a
    checkpoint and decodes only what the tail of the log touched. `SyncIncremental`
    is the second path, proved to produce the index of the first. */
module IncrementalSync {
  import opened Options
  import opened OpLog
  import opened Convergence

  /** Live notes: not tombstoned, and with content to hydrate. */
  function LivePointers(m: ConvergedState): map<NoteId, NotePointer> {
    map n | n in m && !m[n].tombstoned && m[n].pointer.Some? :: m[n].pointer.value
  }

  function Base(ops: set<Op>, baseline: nat): set<Op> {
    set op | op in ops && op.lamport <= baseline
  }

  function Tail(ops: set<Op>, baseline: nat): set<Op> {
    set op | op in ops && op.lamport > baseline
  }

  /** The pointer each note is hydrated from when base and tail are converged apart. */
  function Overlay(full: ConvergedState, base: ConvergedState, tail: ConvergedState): map<NoteId, NotePointer> {
    var kept := map n | n in LivePointers(base) && !(n in tail && tail[n].tombstoned) :: LivePointers(base)[n];
    var merged := kept + LivePointers(tail);
    map n | n in merged && !(n in full && full[n].redacted) :: merged[n]
  }

  lemma LeaderExists(ops: set<Op>)
    requires DigestsIdentify(ops)
    requires ops != {}
    ensures exists op :: Leads(op, ops)
  {
    var x :| x in ops;
    var rest := ops - {x};
    if rest == {} {
      assert ops == {x};
      assert Leads(x, ops);
    } else {
      LeaderExists(rest);
      var l :| Leads(l, rest);
      assert rest + {x} == ops;
      LeaderAfter(l, rest, x);
    }
  }

  /** Every tail op outranks every base op, so a leader of the tail leads the whole. */
  lemma TailLeads(leader: Op, older: set<Op>, newer: set<Op>, baseline: nat)
    requires Leads(leader, newer)
    requires forall op :: op in older ==> op.lamport <= baseline
    requires forall op :: op in newer ==> op.lamport > baseline
    ensures Leads(leader, older + newer)
  {
  }

  /** The tail decides a note it has a lifecycle op for. */
  lemma TailDecides(older: set<Op>, newer: set<Op>, n: NoteId, baseline: nat, whole: NoteState, late: NoteState)
    requires DigestsIdentify(older + newer)
    requires forall op :: op in older ==> op.lamport <= baseline
    requires forall op :: op in newer ==> op.lamport > baseline
    requires IsState(older + newer, n, whole) && IsState(newer, n, late)
    requires !HasRedact(older + newer) && !HasRedact(newer)
    requires LifecycleOps(newer) != {}
    ensures whole.tombstoned == late.tombstoned
    ensures !late.tombstoned ==> late.pointer.Some? && whole.pointer == late.pointer
  {
    LeaderExists(LifecycleOps(newer));
    var l :| Leads(l, LifecycleOps(newer));
    assert LifecycleOps(older) + LifecycleOps(newer) == LifecycleOps(older + newer);
    TailLeads(l, LifecycleOps(older), LifecycleOps(newer), baseline);
    ForgottenByLeader(l, newer);
    ForgottenByLeader(l, older + newer);
    if !late.tombstoned {
      assert l in ContentOps(newer);
      var x :| Leads(x, ContentOps(newer)) && late.pointer.value == PointerOf(x);
      assert ContentOps(older) + ContentOps(newer) == ContentOps(older + newer);
      TailLeads(x, ContentOps(older), ContentOps(newer), baseline);
      var y :| Leads(y, ContentOps(older + newer)) && whole.pointer.value == PointerOf(y);
      LeadIsUnique(x, y, ContentOps(older + newer));
    }
  }

  lemma ForgottenByLeader(l: Op, ops: set<Op>)
    requires Leads(l, LifecycleOps(ops))
    ensures Forgotten(ops) <==> l.kind.Forget?
  {
    if Forgotten(ops) {
      var f :| Leads(f, LifecycleOps(ops)) && f.kind.Forget?;
      LeadIsUnique(f, l, LifecycleOps(ops));
    }
  }

  /** A tail without lifecycle ops leaves the note as the base has it. */
  lemma BaseDecides(older: set<Op>, newer: set<Op>, n: NoteId, whole: NoteState, early: NoteState)
    requires IsState(older + newer, n, whole) && IsState(older, n, early)
    requires !HasRedact(older + newer) && !HasRedact(older)
    requires LifecycleOps(newer) == {}
    ensures whole.tombstoned == early.tombstoned && whole.pointer == early.pointer
  {
    assert LifecycleOps(older + newer) == LifecycleOps(older) + LifecycleOps(newer);
    assert ContentOps(newer) <= LifecycleOps(newer);
    assert ContentOps(older + newer) == ContentOps(older) + ContentOps(newer);
    if early.pointer.Some? && whole.pointer.Some? {
      var x :| Leads(x, ContentOps(older)) && early.pointer.value == PointerOf(x);
      var y :| Leads(y, ContentOps(older + newer)) && whole.pointer.value == PointerOf(y);
      LeadIsUnique(x, y, ContentOps(older));
    }
  }

  lemma RedactSplits(older: set<Op>, newer: set<Op>)
    ensures HasRedact(older + newer) <==> HasRedact(older) || HasRedact(newer)
  {
    if HasRedact(older) { var r :| r in older && r.kind.Redact?; assert r in older + newer; }
    if HasRedact(newer) { var r :| r in newer && r.kind.Redact?; assert r in older + newer; }
  }

  /** The overlay hydrates `n` from the pointer the whole view has for it. */
  ghost predicate Agree(full: ConvergedState, base: ConvergedState, tail: ConvergedState, n: NoteId) {
    && (n in Overlay(full, base, tail) <==> n in LivePointers(full))
    && (n in LivePointers(full) ==> Overlay(full, base, tail)[n] == LivePointers(full)[n])
  }

  lemma AgreeErased(full: ConvergedState, base: ConvergedState, tail: ConvergedState, n: NoteId)
    requires n in full && full[n] == Erased(n)
    ensures Agree(full, base, tail, n)
  {
  }

  lemma AgreeByTail(full: ConvergedState, base: ConvergedState, tail: ConvergedState, n: NoteId)
    requires n in full && !full[n].redacted && n in tail && full[n].tombstoned == tail[n].tombstoned
    requires !tail[n].tombstoned ==> tail[n].pointer.Some? && full[n].pointer == tail[n].pointer
    ensures Agree(full, base, tail, n)
  {
  }

  lemma AgreeByBase(full: ConvergedState, base: ConvergedState, tail: ConvergedState, n: NoteId)
    requires n in full && !full[n].redacted
    requires n in tail ==> !tail[n].tombstoned && tail[n].pointer.None?
    requires n in base ==> base[n].tombstoned == full[n].tombstoned && base[n].pointer == full[n].pointer
    requires n !in base ==> full[n].pointer.None?
    ensures Agree(full, base, tail, n)
  {
  }

  lemma OverlayAt(ops: set<Op>, baseline: nat, full: ConvergedState, base: ConvergedState, tail: ConvergedState,
                  n: NoteId)
    requires DigestsIdentify(ops) && Converged(ops, full)
    requires Converged(Base(ops, baseline), base) && Converged(Tail(ops, baseline), tail)
    requires n in full
    ensures Agree(full, base, tail, n)
  {
    var older, newer := NoteOps(Base(ops, baseline), n), NoteOps(Tail(ops, baseline), n);
    assert NoteOps(ops, n) == older + newer;
    NoteListed(Base(ops, baseline), base, n);
    NoteListed(Tail(ops, baseline), tail, n);
    AgreeAt(older, newer, baseline, full, base, tail, n);
  }

  lemma AgreeAt(older: set<Op>, newer: set<Op>, baseline: nat, full: ConvergedState, base: ConvergedState,
                tail: ConvergedState, n: NoteId)
    requires DigestsIdentify(older + newer) && n in full && IsState(older + newer, n, full[n])
    requires (forall op :: op in older ==> op.lamport <= baseline)
             && (forall op :: op in newer ==> op.lamport > baseline)
    requires (n in base <==> older != {}) && (n in base ==> IsState(older, n, base[n]))
    requires (n in tail <==> newer != {}) && (n in tail ==> IsState(newer, n, tail[n]))
    ensures Agree(full, base, tail, n)
  {
    RedactSplits(older, newer);
    if HasRedact(older + newer) {
      AgreeErased(full, base, tail, n);
    } else if LifecycleOps(newer) != {} {
      assert newer != {};
      TailDecides(older, newer, n, baseline, full[n], tail[n]);
      AgreeByTail(full, base, tail, n);
    } else {
      QuietTail(tail, newer, n);
      OldDecides(older, newer, n, full[n], base);
      AgreeByBase(full, base, tail, n);
    }
  }

  lemma NoteListed(ops: set<Op>, m: ConvergedState, n: NoteId)
    requires Converged(ops, m)
    ensures n in m <==> NoteOps(ops, n) != {}
    ensures n in m ==> IsState(NoteOps(ops, n), n, m[n])
  {
    if n in m {
      var op :| op in ops && op.noteId == n;
      assert op in NoteOps(ops, n);
    }
    if NoteOps(ops, n) != {} { var op :| op in NoteOps(ops, n); }
  }

  /** A quiet tail leaves the note as the base has it, or unwritten. */
  lemma OldDecides(older: set<Op>, newer: set<Op>, n: NoteId, whole: NoteState, base: ConvergedState)
    requires DigestsIdentify(older + newer) && IsState(older + newer, n, whole)
    requires n in base <==> older != {}
    requires n in base ==> IsState(older, n, base[n])
    requires !HasRedact(older + newer) && LifecycleOps(newer) == {}
    ensures n in base ==>
            !base[n].redacted && base[n].tombstoned == whole.tombstoned && base[n].pointer == whole.pointer
    ensures n !in base ==> whole.pointer.None?
  {
    if older == {} {
      assert older + newer == newer;
      assert ContentOps(newer) <= LifecycleOps(newer);
    } else {
      RedactSplits(older, newer);
      BaseDecides(older, newer, n, whole, base[n]);
    }
  }

  lemma QuietTail(tail: ConvergedState, newer: set<Op>, n: NoteId)
    requires n in tail ==> IsState(newer, n, tail[n])
    requires !HasRedact(newer) && LifecycleOps(newer) == {}
    ensures n in tail ==> !tail[n].tombstoned && tail[n].pointer.None?
  {
    assert ContentOps(newer) <= LifecycleOps(newer);
  }

  /** Converging the base and the tail apart, with redactions taken from the whole view,
      hydrates exactly the pointers a full converge does: for every op set and baseline. */
  lemma OverlayIsFullReplay(ops: set<Op>, baseline: nat, full: ConvergedState, base: ConvergedState,
                            tail: ConvergedState)
    requires DigestsIdentify(ops)
    requires Converged(ops, full)
    requires Converged(Base(ops, baseline), base)
    requires Converged(Tail(ops, baseline), tail)
    ensures Overlay(full, base, tail) == LivePointers(full)
  {
    var o, l := Overlay(full, base, tail), LivePointers(full);
    assert base.Keys <= full.Keys && tail.Keys <= full.Keys;
    OverlayKeys(full, base, tail);
    forall n | n in full.Keys
      ensures n in o <==> n in l
      ensures n in l ==> o[n] == l[n]
    {
      OverlayAt(ops, baseline, full, base, tail, n);
    }
    SameMap(o, l, full.Keys);
  }

  lemma OverlayKeys(full: ConvergedState, base: ConvergedState, tail: ConvergedState)
    requires base.Keys <= full.Keys && tail.Keys <= full.Keys
    ensures Overlay(full, base, tail).Keys <= full.Keys && LivePointers(full).Keys <= full.Keys
  {
  }

  lemma SameMap<K, V>(a: map<K, V>, b: map<K, V>, keys: set<K>)
    requires a.Keys <= keys && b.Keys <= keys
    requires forall k :: k in keys ==> (k in a <==> k in b)
    requires forall k :: k in keys && k in a ==> a[k] == b[k]
    ensures a == b
  {
  }

  // ---------------------------------------------------------------- records

  /** An index entry. `content` bundles the fields only the note body carries (summary,
      tags, type, update time); the last three are the ranking signals. */
  datatype IndexRecord = IndexRecord(
    noteId: NoteId,
    objectKey: string,
    cid: Digest,
    author: string,
    lamport: nat,
    keyEpoch: nat,
    scope: string,
    content: string,
    relations: set<TypedLink>,
    reinforcers: set<string>,
    lastReinforced: Option<nat>)

  /** A checkpoint entry: a clear envelope and a body, absent when this member's key-ring cannot open it. */
  datatype SealedRecord = SealedRecord(noteId: NoteId, lamport: nat, objectKey: string, body: Option<IndexRecord>)

  datatype Snapshot = Snapshot(lastLamport: nat, records: seq<SealedRecord>)

  /** `decode_pointer`: fetch, integrity-check and decrypt the blob a pointer names. */
  type Decoder = (NoteId, NotePointer) -> Option<IndexRecord>

  /** The scope `parse_object_key` reads out of an object key. */
  type ScopeReader = string -> Option<string>

  function Stamp(r: IndexRecord, full: ConvergedState): IndexRecord {
    if r.noteId in full then
      var s := full[r.noteId];
      r.(relations := s.relations, reinforcers := s.reinforcers, lastReinforced := s.lastReinforced)
    else r
  }

  /** `snapshot_body_disagreement`, including its arm that accepts when no pointer is known. */
  predicate Disagrees(body: IndexRecord, envelope: SealedRecord, pointer: Option<NotePointer>, scopeOf: ScopeReader) {
    pointer.Some? &&
    var p := pointer.value;
    || body.noteId != envelope.noteId
    || body.objectKey != p.objectKey
    || body.cid != p.cid
    || body.lamport != p.lamport
    || body.keyEpoch != p.keyEpoch
    || body.author != p.author
    || scopeOf(p.objectKey) != Some(body.scope)
  }

  /** What a full replay indexes: every live note whose blob decodes, stamped with its signals. */
  function FullIndex(full: ConvergedState, decode: Decoder): map<NoteId, IndexRecord> {
    var live := LivePointers(full);
    map n | n in live && decode(n, live[n]).Some? :: Stamp(decode(n, live[n]).value, full)
  }

  function WithoutSignals(r: IndexRecord): IndexRecord {
    r.(relations := {}, reinforcers := {}, lastReinforced := None)
  }

  /** A decoded record is filed under the note it was asked for. */
  ghost predicate DecodesOwn(decode: Decoder) {
    forall n, p :: decode(n, p).Some? ==> decode(n, p).value.noteId == n
  }

  method Partition(ops: seq<Op>, baseline: nat) returns (base: seq<Op>, tail: seq<Op>)
    ensures ToSet(base) == Base(ToSet(ops), baseline)
    ensures ToSet(tail) == Tail(ToSet(ops), baseline)
  {
    base, tail := [], [];
    for i := 0 to |ops|
      invariant ToSet(base) == Base(ToSet(ops[..i]), baseline)
      invariant ToSet(tail) == Tail(ToSet(ops[..i]), baseline)
    {
      var op := ops[i];
      assert ToSet(ops[..i + 1]) == ToSet(ops[..i]) + {op};
      assert ToSet(base + [op]) == ToSet(base) + {op} && ToSet(tail + [op]) == ToSet(tail) + {op};
      if op.lamport <= baseline { base := base + [op]; } else { tail := tail + [op]; }
    }
    assert ops[..|ops|] == ops;
  }

  /** The tail's effect per note: re-pointed or tombstoned. */
  method ClassifyTail(tail: ConvergedState) returns (tailLive: map<NoteId, NotePointer>, tailDead: set<NoteId>)
    ensures tailLive == LivePointers(tail)
    ensures tailDead == (set n | n in tail && tail[n].tombstoned)
  {
    tailLive, tailDead := map[], {};
    var rest := tail.Keys;
    while rest != {}
      invariant rest <= tail.Keys
      invariant tailLive == map n | n in LivePointers(tail) && n !in rest :: LivePointers(tail)[n]
      invariant tailDead == set n | n in tail && n !in rest && tail[n].tombstoned
    {
      var n :| n in rest;
      rest := rest - {n};
      if tail[n].tombstoned { tailDead := tailDead + {n}; }
      else if tail[n].pointer.Some? { tailLive := tailLive[n := tail[n].pointer.value]; }
    }
  }

  /** Drop every note the whole view marks redacted from both live sets. */
  method DropRedacted(full: ConvergedState, finalLive: set<NoteId>, tailLive: map<NoteId, NotePointer>)
    returns (live: set<NoteId>, pointers: map<NoteId, NotePointer>)
    ensures live == set n | n in finalLive && !(n in full && full[n].redacted)
    ensures pointers == map n | n in tailLive && !(n in full && full[n].redacted) :: tailLive[n]
  {
    live, pointers := finalLive, tailLive;
    var rest := full.Keys;
    while rest != {}
      invariant rest <= full.Keys
      invariant live == set n | n in finalLive && !(n in full && n !in rest && full[n].redacted)
      invariant pointers == map n | n in tailLive && !(n in full && n !in rest && full[n].redacted) :: tailLive[n]
    {
      var n :| n in rest;
      rest := rest - {n};
      if full[n].redacted { live := live - {n}; pointers := pointers - {n}; }
    }
  }

  /** `r` holds what decoding `p` yields, signals aside. */
  ghost predicate Restores(r: IndexRecord, n: NoteId, p: NotePointer, decode: Decoder) {
    decode(n, p).Some? && WithoutSignals(decode(n, p).value) == WithoutSignals(r)
  }

  function PointerFor(basePointers: map<NoteId, NotePointer>, n: NoteId): Option<NotePointer> {
    if n in basePointers then Some(basePointers[n]) else None
  }

  /** Still live, not superseded by the tail, openable, and not contradicted by the signed log. */
  predicate Accepted(r: SealedRecord, basePointers: map<NoteId, NotePointer>, finalLive: set<NoteId>,
                     touched: set<NoteId>, scopeOf: ScopeReader) {
    r.noteId in finalLive && r.noteId !in touched && r.body.Some?
      && !Disagrees(r.body.value, r, PointerFor(basePointers, r.noteId), scopeOf)
  }

  /** The accepted bodies, a later one for a note replacing an earlier. */
  function Collected(records: seq<SealedRecord>, basePointers: map<NoteId, NotePointer>, finalLive: set<NoteId>,
                     touched: set<NoteId>, scopeOf: ScopeReader): map<NoteId, IndexRecord> {
    if records == [] then map[]
    else
      var before, last := Collected(records[..|records| - 1], basePointers, finalLive, touched, scopeOf),
        records[|records| - 1];
      if Accepted(last, basePointers, finalLive, touched, scopeOf)
        then before[last.body.value.noteId := last.body.value] else before
  }

  /** `collect_live_snapshot_records`. */
  method CollectLive(snapshot: Snapshot, basePointers: map<NoteId, NotePointer>, finalLive: set<NoteId>,
                     tailLive: map<NoteId, NotePointer>, scopeOf: ScopeReader)
    returns (restored: map<NoteId, IndexRecord>)
    ensures restored == Collected(snapshot.records, basePointers, finalLive, tailLive.Keys, scopeOf)
  {
    restored := map[];
    var records := snapshot.records;
    for i := 0 to |records|
      invariant restored == Collected(records[..i], basePointers, finalLive, tailLive.Keys, scopeOf)
    {
      assert records[..i + 1][..i] == records[..i] && records[..i + 1][i] == records[i];
      var record := records[i];
      if record.noteId in finalLive && record.noteId !in tailLive && record.body.Some? {
        var pointer := if record.noteId in basePointers then Some(basePointers[record.noteId]) else None;
        if !Disagrees(record.body.value, record, pointer, scopeOf) {
          restored := restored[record.body.value.noteId := record.body.value];
        }
      }
    }
    assert records[..|records|] == records;
  }

  /** What is restored came from an accepted record of that note, and each accepted record's note is
      restored. */
  lemma {:induction false} CollectedAre(records: seq<SealedRecord>, basePointers: map<NoteId, NotePointer>,
                                        finalLive: set<NoteId>, touched: set<NoteId>, scopeOf: ScopeReader)
    requires forall n :: n in finalLive && n !in touched ==> n in basePointers
    ensures var restored := Collected(records, basePointers, finalLive, touched, scopeOf);
            && restored.Keys <= finalLive - touched
            && (forall n :: n in restored ==> restored[n].noteId == n && n in basePointers)
            && (forall n :: n in restored ==>
                  exists r ::
                    && r in records && Accepted(r, basePointers, finalLive, touched, scopeOf)
                    && r.noteId == n && r.body == Some(restored[n]))
  {
    if records != [] {
      var n := |records| - 1;
      CollectedAre(records[..n], basePointers, finalLive, touched, scopeOf);
      var before, restored := Collected(records[..n], basePointers, finalLive, touched, scopeOf),
        Collected(records, basePointers, finalLive, touched, scopeOf);
      assert records[n] in records && forall r :: r in records[..n] ==> r in records;
      forall k | k in restored
        ensures exists r ::
                  && r in records && Accepted(r, basePointers, finalLive, touched, scopeOf)
                  && r.noteId == k && r.body == Some(restored[k])
      {
        if !(Accepted(records[n], basePointers, finalLive, touched, scopeOf) && records[n].noteId == k) {
          assert k in before && restored[k] == before[k];
          var r :| r in records[..n] && Accepted(r, basePointers, finalLive, touched, scopeOf) && r.noteId == k
            && r.body == Some(before[k]);
          assert r in records;
        }
      }
    }
  }

  /** The notes among `wanted` whose pointed-to body decodes. */
  function Decoded(pointers: map<NoteId, NotePointer>, wanted: set<NoteId>, decode: Decoder): map<NoteId, IndexRecord> {
    map n | n in pointers && n in wanted && decode(n, pointers[n]).Some? :: decode(n, pointers[n]).value
  }

  ghost predicate AllRestore(restored: map<NoteId, IndexRecord>, basePointers: map<NoteId, NotePointer>,
                             decode: Decoder) {
    forall n :: n in restored ==> n in basePointers && Restores(restored[n], n, basePointers[n], decode)
  }

  /** Three sources of records fit the live pointers. */
  ghost predicate Sources(full: ConvergedState, basePointers: map<NoteId, NotePointer>,
                          tailLive: map<NoteId, NotePointer>, restored: map<NoteId, IndexRecord>) {
    && tailLive.Keys <= LivePointers(full).Keys
    && (forall n :: n in LivePointers(full) ==>
          if n in tailLive then LivePointers(full)[n] == tailLive[n]
          else n in basePointers && LivePointers(full)[n] == basePointers[n])
    && restored.Keys <= LivePointers(full).Keys - tailLive.Keys
    && (forall n :: n in restored ==> restored[n].noteId == n && n in basePointers)
  }

  function Gathered(full: ConvergedState, basePointers: map<NoteId, NotePointer>, tailLive: map<NoteId, NotePointer>,
                    restored: map<NoteId, IndexRecord>, decode: Decoder): map<NoteId, IndexRecord> {
    restored + Decoded(basePointers, LivePointers(full).Keys - restored.Keys - tailLive.Keys, decode)
      + Decoded(tailLive, tailLive.Keys, decode)
  }

  function Stamped(records: map<NoteId, IndexRecord>, full: ConvergedState): map<NoteId, IndexRecord> {
    map n | n in records :: Stamp(records[n], full)
  }

  /** Records gathered from the three sources, stamped, are the full index if and only if every
      restored one holds what its pointer decodes to. */
  lemma RecordsAreFullIndexIff(full: ConvergedState, basePointers: map<NoteId, NotePointer>,
                               tailLive: map<NoteId, NotePointer>,
                               restored: map<NoteId, IndexRecord>, decode: Decoder)
    requires DecodesOwn(decode) && Sources(full, basePointers, tailLive, restored)
    ensures Stamped(Gathered(full, basePointers, tailLive, restored, decode), full) == FullIndex(full, decode) <==>
            AllRestore(restored, basePointers, decode)
  {
    if AllRestore(restored, basePointers, decode) {
      FaithfulRecords(full, basePointers, tailLive, restored, decode);
    } else {
      var n :| n in restored && !Restores(restored[n], n, basePointers[n], decode);
      UnfaithfulRecord(full, basePointers, tailLive, restored, decode, n);
    }
  }

  lemma FaithfulRecords(full: ConvergedState, basePointers: map<NoteId, NotePointer>,
                        tailLive: map<NoteId, NotePointer>,
                        restored: map<NoteId, IndexRecord>, decode: Decoder)
    requires DecodesOwn(decode) && Sources(full, basePointers, tailLive, restored)
             && AllRestore(restored, basePointers, decode)
    ensures Stamped(Gathered(full, basePointers, tailLive, restored, decode), full) == FullIndex(full, decode)
  {
    var live, records := LivePointers(full), Gathered(full, basePointers, tailLive, restored, decode);
    forall n | n in live
      ensures n in records <==> decode(n, live[n]).Some?
      ensures n in records ==> Stamp(records[n], full) == Stamp(decode(n, live[n]).value, full)
    {
      FaithfulRecord(full, basePointers, tailLive, restored, decode, n);
    }
    assert records.Keys <= live.Keys;
  }

  lemma FaithfulRecord(full: ConvergedState, basePointers: map<NoteId, NotePointer>, tailLive: map<NoteId, NotePointer>,
                       restored: map<NoteId, IndexRecord>, decode: Decoder, n: NoteId)
    requires DecodesOwn(decode) && Sources(full, basePointers, tailLive, restored)
             && AllRestore(restored, basePointers, decode)
    requires n in LivePointers(full)
    ensures var records := Gathered(full, basePointers, tailLive, restored, decode);
            && (n in records <==> decode(n, LivePointers(full)[n]).Some?)
            && (n in records ==> Stamp(records[n], full) == Stamp(decode(n, LivePointers(full)[n]).value, full))
  {
    if n in restored { StampForgets(restored[n], decode(n, LivePointers(full)[n]).value, full); }
  }

  lemma UnfaithfulRecord(full: ConvergedState, basePointers: map<NoteId, NotePointer>,
                         tailLive: map<NoteId, NotePointer>,
                         restored: map<NoteId, IndexRecord>, decode: Decoder, n: NoteId)
    requires DecodesOwn(decode) && Sources(full, basePointers, tailLive, restored)
    requires n in restored && !Restores(restored[n], n, basePointers[n], decode)
    ensures Stamped(Gathered(full, basePointers, tailLive, restored, decode), full) != FullIndex(full, decode)
  {
    var records := Gathered(full, basePointers, tailLive, restored, decode);
    assert n in records && records[n] == restored[n];
    if n in FullIndex(full, decode) { StampForgets(restored[n], decode(n, LivePointers(full)[n]).value, full); }
    assert n in FullIndex(full, decode) ==> Stamped(records, full)[n] != FullIndex(full, decode)[n];
  }

  /** Stamping overwrites the signals and nothing else. */
  lemma StampForgets(a: IndexRecord, b: IndexRecord, full: ConvergedState)
    requires a.noteId in full && a.noteId == b.noteId
    ensures Stamp(a, full) == Stamp(b, full) <==> WithoutSignals(a) == WithoutSignals(b)
  {
  }

  /** What an incremental sync restores from a checkpoint. */
  function RestoredFrom(snapshot: Snapshot, full: ConvergedState, base: ConvergedState, tail: ConvergedState,
                        scopeOf: ScopeReader): map<NoteId, IndexRecord> {
    Collected(snapshot.records, LivePointers(base), LivePointers(full).Keys,
              LivePointers(tail).Keys * LivePointers(full).Keys, scopeOf)
  }

  /** The pointers the tail gives to notes that stay live. */
  function TailPointers(full: ConvergedState, tail: ConvergedState): map<NoteId, NotePointer> {
    map n | n in LivePointers(tail) && n in LivePointers(full) :: LivePointers(tail)[n]
  }

  /** What the path indexes without a rebuild. */
  function IncrementalIndex(snapshot: Snapshot, full: ConvergedState, base: ConvergedState, tail: ConvergedState,
                            decode: Decoder, scopeOf: ScopeReader): map<NoteId, IndexRecord> {
    var restored := RestoredFrom(snapshot, full, base, tail, scopeOf);
    Stamped(Gathered(full, LivePointers(base), TailPointers(full, tail), restored, decode), full)
  }

  /** Gather the restored, the omitted and the tail-touched records and stamp them. */
  method RestoreAndTail(snapshot: Snapshot, full: ConvergedState, base: ConvergedState, tail: ConvergedState,
                        decode: Decoder, scopeOf: ScopeReader)
    returns (live: set<NoteId>, index: map<NoteId, IndexRecord>)
    requires DecodesOwn(decode) && Overlay(full, base, tail) == LivePointers(full)
    ensures live == LivePointers(full).Keys
    ensures index == IncrementalIndex(snapshot, full, base, tail, decode, scopeOf)
  {
    var basePointers := LivePointers(base);
    var allTailLive, tailDead := ClassifyTail(tail);
    var finalLive, tailLive := DropRedacted(full, basePointers.Keys - tailDead + allTailLive.Keys, allTailLive);
    OverlayShape(full, base, tail, tailDead, finalLive, tailLive);
    var restored := CollectLive(snapshot, basePointers, finalLive, tailLive, scopeOf);
    TouchedAre(full, base, tail, tailLive);
    var omitted := Decoded(basePointers, finalLive - restored.Keys - tailLive.Keys, decode);
    var touched := Decoded(tailLive, tailLive.Keys, decode);
    live, index := finalLive, Stamped(restored + omitted + touched, full);
  }

  /** Without a rebuild the index is the replayed one if and only if every restored record holds what
      its pointer decodes to. */
  lemma IncrementalIsFullIff(snapshot: Snapshot, full: ConvergedState, base: ConvergedState, tail: ConvergedState,
                             decode: Decoder, scopeOf: ScopeReader)
    requires DecodesOwn(decode) && Overlay(full, base, tail) == LivePointers(full)
    ensures IncrementalIndex(snapshot, full, base, tail, decode, scopeOf) == FullIndex(full, decode)
            <==> AllRestore(RestoredFrom(snapshot, full, base, tail, scopeOf), LivePointers(base), decode)
  {
    var restored, pointers := RestoredFrom(snapshot, full, base, tail, scopeOf), LivePointers(base);
    LiveComesFrom(full, base, tail);
    CollectedAre(snapshot.records, pointers, LivePointers(full).Keys,
      LivePointers(tail).Keys * LivePointers(full).Keys, scopeOf);
    SourcesFit(full, base, tail, restored);
    RecordsAreFullIndexIff(full, pointers, TailPointers(full, tail), restored, decode);
  }

  lemma SourcesFit(full: ConvergedState, base: ConvergedState, tail: ConvergedState, restored: map<NoteId, IndexRecord>)
    requires Overlay(full, base, tail) == LivePointers(full)
    requires restored.Keys <= LivePointers(full).Keys - LivePointers(tail).Keys * LivePointers(full).Keys
    requires forall n :: n in restored ==> restored[n].noteId == n && n in LivePointers(base)
    ensures Sources(full, LivePointers(base), TailPointers(full, tail), restored)
  {
    forall n | n in LivePointers(full)
      ensures if n in TailPointers(full, tail) then LivePointers(full)[n] == TailPointers(full, tail)[n]
              else n in LivePointers(base) && LivePointers(full)[n] == LivePointers(base)[n]
    {
      assert n in Overlay(full, base, tail);
    }
  }

  lemma TouchedAre(full: ConvergedState, base: ConvergedState, tail: ConvergedState, tailLive: map<NoteId, NotePointer>)
    requires tailLive == map n | n in LivePointers(tail) && !(n in full && full[n].redacted) :: LivePointers(tail)[n]
    requires tailLive.Keys <= LivePointers(full).Keys && Overlay(full, base, tail) == LivePointers(full)
    ensures tailLive.Keys == LivePointers(tail).Keys * LivePointers(full).Keys
    ensures tailLive == TailPointers(full, tail)
  {
  }

  predicate StillAt(r: SealedRecord, basePointers: map<NoteId, NotePointer>) {
    r.noteId in basePointers
    && basePointers[r.noteId].lamport == r.lamport
    && basePointers[r.noteId].objectKey == r.objectKey
  }

  /** Of the first `n` entries, the one at `i` is the last of its note. */
  predicate IsLast(records: seq<SealedRecord>, n: nat, i: nat)
    requires n <= |records|
  {
    i < n && forall k :: i < k < n ==> records[k].noteId != records[i].noteId
  }

  /** Some note the checkpoint holds is no longer live in the converged base at the Lamport and
      object key of its last entry. */
  ghost predicate Outdated(records: seq<SealedRecord>, basePointers: map<NoteId, NotePointer>) {
    exists i: nat :: IsLast(records, |records|, i) && !StillAt(records[i], basePointers)
  }

  /** `live` holds the last entry of each note among the first `n`. */
  ghost predicate LastEntries(records: seq<SealedRecord>, n: nat, live: map<NoteId, SealedRecord>)
    requires n <= |records|
  {
    && (forall i: nat :: IsLast(records, n, i) ==> records[i].noteId in live && live[records[i].noteId] == records[i])
    && (forall m :: m in live ==>
       exists i: nat :: IsLast(records, n, i) && records[i] == live[m] && records[i].noteId == m)
  }

  lemma LastEntriesPush(records: seq<SealedRecord>, n: nat, live: map<NoteId, SealedRecord>)
    requires n < |records| && LastEntries(records, n, live)
    ensures LastEntries(records, n + 1, live[records[n].noteId := records[n]])
  {
    var next := live[records[n].noteId := records[n]];
    forall i: nat | IsLast(records, n + 1, i)
      ensures records[i].noteId in next && next[records[i].noteId] == records[i]
    {
      if i < n { assert IsLast(records, n, i); }
    }
    forall m | m in next
      ensures exists i: nat :: IsLast(records, n + 1, i) && records[i] == next[m] && records[i].noteId == m
    {
      if m == records[n].noteId {
        assert IsLast(records, n + 1, n);
      } else {
        var i: nat :| IsLast(records, n, i) && records[i] == live[m] && records[i].noteId == m;
        assert IsLast(records, n + 1, i);
      }
    }
  }

  /** The safety valve. */
  method CheckpointOutdated(snapshot: Snapshot, basePointers: map<NoteId, NotePointer>) returns (outdated: bool)
    ensures outdated <==> Outdated(snapshot.records, basePointers)
  {
    var snapshotLive: map<NoteId, SealedRecord> := map[];
    for i := 0 to |snapshot.records|
      invariant LastEntries(snapshot.records, i, snapshotLive)
    {
      LastEntriesPush(snapshot.records, i, snapshotLive);
      var r := snapshot.records[i];
      snapshotLive := snapshotLive[r.noteId := r];
    }
    outdated := exists n | n in snapshotLive :: !StillAt(snapshotLive[n], basePointers);
  }

  /** What one sync leaves, for some converged states of the view and of its two parts. */
  ghost predicate Synced(snapshot: Snapshot, ops: set<Op>, decode: Decoder, scopeOf: ScopeReader,
                         live: set<NoteId>, index: map<NoteId, IndexRecord>) {
    exists full, base, tail :: SyncedFrom(snapshot, ops, decode, scopeOf, live, index, full, base, tail)
  }

  ghost predicate Parts(ops: set<Op>, baseline: nat, full: ConvergedState, base: ConvergedState, tail: ConvergedState) {
    Converged(ops, full) && Converged(Base(ops, baseline), base) && Converged(Tail(ops, baseline), tail)
  }

  /** The live set is that of a full replay. The index is too, if and only if the checkpoint is outdated
      (and was rebuilt) or every record restored from it holds what its pointer decodes to. */
  ghost predicate SyncedFrom(snapshot: Snapshot, ops: set<Op>, decode: Decoder, scopeOf: ScopeReader,
                             live: set<NoteId>, index: map<NoteId, IndexRecord>,
                             full: ConvergedState, base: ConvergedState, tail: ConvergedState) {
    var outdated := Outdated(snapshot.records, LivePointers(base));
    && Parts(ops, snapshot.lastLamport, full, base, tail)
    && live == LivePointers(full).Keys
    && index == (if outdated then FullIndex(full, decode)
                 else IncrementalIndex(snapshot, full, base, tail, decode, scopeOf))
    && (index == FullIndex(full, decode)
        <==> outdated || AllRestore(RestoredFrom(snapshot, full, base, tail, scopeOf), LivePointers(base), decode))
  }

  /** The whole incremental path, rebuild fallback included: whatever the checkpoint's baseline,
      whichever notes it holds and whatever it says of them. */
  method SyncIncremental(snapshot: Snapshot, ops: seq<Op>, decode: Decoder, scopeOf: ScopeReader)
    returns (live: set<NoteId>, index: map<NoteId, IndexRecord>)
    requires DigestsIdentify(ToSet(ops)) && DecodesOwn(decode)
    ensures Synced(snapshot, ToSet(ops), decode, scopeOf, live, index)
  {
    var full := Converge(ops);
    var baseOps, tailOps := Partition(ops, snapshot.lastLamport);
    var base := Converge(baseOps);
    var tail := Converge(tailOps);
    var outdated := CheckpointOutdated(snapshot, LivePointers(base));
    if outdated {
      live, index := LivePointers(full).Keys, FullIndex(full, decode);
    } else {
      OverlayIsFullReplay(ToSet(ops), snapshot.lastLamport, full, base, tail);
      live, index := RestoreAndTail(snapshot, full, base, tail, decode, scopeOf);
      IncrementalIsFullIff(snapshot, full, base, tail, decode, scopeOf);
    }
    assert SyncedFrom(snapshot, ToSet(ops), decode, scopeOf, live, index, full, base, tail);
  }

  /** The states are those of the op sets, so what a sync leaves is determined. */
  lemma SyncIsDetermined(snapshot: Snapshot, ops: set<Op>, decode: Decoder, scopeOf: ScopeReader,
                         live: set<NoteId>, index: map<NoteId, IndexRecord>,
                         full: ConvergedState, base: ConvergedState, tail: ConvergedState)
    requires Parts(ops, snapshot.lastLamport, full, base, tail)
    requires Synced(snapshot, ops, decode, scopeOf, live, index)
    ensures SyncedFrom(snapshot, ops, decode, scopeOf, live, index, full, base, tail)
  {
    var f, b, t :| SyncedFrom(snapshot, ops, decode, scopeOf, live, index, f, b, t);
    ConvergenceIsDetermined(ops, full, f);
    ConvergenceIsDetermined(Base(ops, snapshot.lastLamport), base, b);
    ConvergenceIsDetermined(Tail(ops, snapshot.lastLamport), tail, t);
  }

  // ---------------------------------------------------------------- honest and forged checkpoints

  /** The checkpoint's writer is honest: a body that agrees with a pointer on every op-attested field
      holds what decoding that pointer yields. */
  ghost predicate Faithful(snapshot: Snapshot, decode: Decoder, scopeOf: ScopeReader) {
    forall r, p :: r in snapshot.records && r.body.Some? && !Disagrees(r.body.value, r, Some(p), scopeOf) ==>
      Restores(r.body.value, r.noteId, p, decode)
  }

  /** Then the index is that of a full replay. */
  lemma FaithfulSyncIsFullReplay(snapshot: Snapshot, ops: set<Op>, decode: Decoder, scopeOf: ScopeReader,
                                 live: set<NoteId>, index: map<NoteId, IndexRecord>)
    requires DigestsIdentify(ops) && Faithful(snapshot, decode, scopeOf)
    requires Synced(snapshot, ops, decode, scopeOf, live, index)
    ensures exists full :: Converged(ops, full) && live == LivePointers(full).Keys && index == FullIndex(full, decode)
  {
    var full, base, tail :| SyncedFrom(snapshot, ops, decode, scopeOf, live, index, full, base, tail);
    OverlayIsFullReplay(ops, snapshot.lastLamport, full, base, tail);
    FaithfulRestores(snapshot, full, base, tail, decode, scopeOf);
  }

  lemma FaithfulRestores(snapshot: Snapshot, full: ConvergedState, base: ConvergedState, tail: ConvergedState,
                         decode: Decoder, scopeOf: ScopeReader)
    requires Faithful(snapshot, decode, scopeOf) && Overlay(full, base, tail) == LivePointers(full)
    ensures AllRestore(RestoredFrom(snapshot, full, base, tail, scopeOf), LivePointers(base), decode)
  {
    var touched, pointers := LivePointers(tail).Keys * LivePointers(full).Keys, LivePointers(base);
    LiveComesFrom(full, base, tail);
    CollectedAre(snapshot.records, pointers, LivePointers(full).Keys, touched, scopeOf);
    var restored := RestoredFrom(snapshot, full, base, tail, scopeOf);
    forall n | n in restored ensures Restores(restored[n], n, pointers[n], decode) {
      var r :| r in snapshot.records && Accepted(r, pointers, LivePointers(full).Keys, touched, scopeOf)
        && r.noteId == n && r.body == Some(restored[n]);
    }
  }

  lemma LiveComesFrom(full: ConvergedState, base: ConvergedState, tail: ConvergedState)
    requires Overlay(full, base, tail) == LivePointers(full)
    ensures forall n :: n in LivePointers(full).Keys && n !in LivePointers(tail).Keys * LivePointers(full).Keys ==>
            n in LivePointers(base)
  {
    forall n | n in LivePointers(full) && n !in LivePointers(tail)
      ensures n in LivePointers(base)
    {
      assert n in Overlay(full, base, tail);
    }
  }

  /** A body that agrees with the log on every attested field. */
  predicate Attested(body: IndexRecord, n: NoteId, p: NotePointer, scopeOf: ScopeReader) {
    && body.noteId == n && body.objectKey == p.objectKey && body.cid == p.cid && body.lamport == p.lamport
    && body.keyEpoch == p.keyEpoch && body.author == p.author && scopeOf(p.objectKey) == Some(body.scope)
  }

  /** The last accepted entry of a note is the one restored. */
  lemma {:induction false} LastIsCollected(records: seq<SealedRecord>, i: nat, basePointers: map<NoteId, NotePointer>,
                                           finalLive: set<NoteId>, touched: set<NoteId>, scopeOf: ScopeReader)
    requires forall n :: n in finalLive && n !in touched ==> n in basePointers
    requires IsLast(records, |records|, i) && Accepted(records[i], basePointers, finalLive, touched, scopeOf)
    ensures var restored, n := Collected(records, basePointers, finalLive, touched, scopeOf), records[i].noteId;
            n in restored && Some(restored[n]) == records[i].body
    decreases |records|
  {
    var n := |records| - 1;
    if i < n {
      assert IsLast(records[..n], n, i);
      LastIsCollected(records[..n], i, basePointers, finalLive, touched, scopeOf);
    }
  }

  /** What the cross-check cannot see: in any checkpoint that passes the valve, a body that agrees with
      the log on every attested field and differs in what only the blob holds is what gets indexed. */
  lemma ForgedContentIsIndexed(snapshot: Snapshot, ops: set<Op>, decode: Decoder, scopeOf: ScopeReader,
                               live: set<NoteId>, index: map<NoteId, IndexRecord>,
                               full: ConvergedState, base: ConvergedState, tail: ConvergedState, i: nat)
    requires DigestsIdentify(ops) && DecodesOwn(decode)
    requires SyncedFrom(snapshot, ops, decode, scopeOf, live, index, full, base, tail)
    requires !Outdated(snapshot.records, LivePointers(base)) && IsLast(snapshot.records, |snapshot.records|, i)
    requires var r := snapshot.records[i];
             && r.noteId in LivePointers(full) && r.noteId !in LivePointers(tail) && r.noteId in LivePointers(base)
             && r.body.Some? && Attested(r.body.value, r.noteId, LivePointers(base)[r.noteId], scopeOf)
    ensures var r := snapshot.records[i];
            && r.noteId in index && index[r.noteId].content == r.body.value.content
            && (index == FullIndex(full, decode) ==>
               Restores(r.body.value, r.noteId, LivePointers(base)[r.noteId], decode))
  {
    OverlayIsFullReplay(ops, snapshot.lastLamport, full, base, tail);
    LiveComesFrom(full, base, tail);
    var touched := LivePointers(tail).Keys * LivePointers(full).Keys;
    LastIsCollected(snapshot.records, i, LivePointers(base), LivePointers(full).Keys, touched, scopeOf);
    RestoredIsIndexed(snapshot, full, base, tail, decode, scopeOf, snapshot.records[i].noteId);
  }

  lemma RestoredIsIndexed(snapshot: Snapshot, full: ConvergedState, base: ConvergedState, tail: ConvergedState,
                          decode: Decoder, scopeOf: ScopeReader, n: NoteId)
    requires n in RestoredFrom(snapshot, full, base, tail, scopeOf) && n !in LivePointers(tail)
    ensures var index, body := IncrementalIndex(snapshot, full, base, tail, decode, scopeOf),
            RestoredFrom(snapshot, full, base, tail, scopeOf)[n];
            n in index && index[n] == Stamp(body, full) && index[n].content == body.content
  {
  }

  function OneState(op: Op): ConvergedState {
    map[op.noteId := NoteState(op.noteId, Some(PointerOf(op)), false, false, {}, {}, {}, None)]
  }

  lemma OneNote(op: Op)
    requires op.kind == Remember
    ensures Parts({op}, op.lamport, OneState(op), OneState(op), map[])
    ensures LivePointers(OneState(op)) == map[op.noteId := PointerOf(op)]
  {
    var ops, n := {op}, op.noteId;
    var s := NoteState(n, Some(PointerOf(op)), false, false, {}, {}, {}, None);
    assert NoteOps(ops, n) == ops && ContentOps(ops) == ops && LifecycleOps(ops) == ops;
    assert Leads(op, ops);
    assert LinkTargets(ops) == {} && RelateTargets(ops) == {} && Reinforcers(ops) == {} && ReinforceOps(ops) == {};
    assert forall to :: RelateOps(ops, to) == {};
    assert !HasRedact(ops) && !Forgotten(ops) && PointerFollows(s.pointer, ops);
    assert IsState(ops, n, s);
    assert Base(ops, op.lamport) == ops && Tail(ops, op.lamport) == {};
  }

  /** A checkpoint of a log of one op that holds `body` for its note. */
  function OneRecord(op: Op, body: IndexRecord): Snapshot {
    Snapshot(op.lamport, [SealedRecord(op.noteId, op.lamport, op.objectKey, Some(body))])
  }

  /** However it is synced, it passes the valve, and a body that is not the decoded one is indexed. */
  lemma ForgedRecordIsIndexed(op: Op, body: IndexRecord, decode: Decoder, scopeOf: ScopeReader,
                              live: set<NoteId>, index: map<NoteId, IndexRecord>)
    requires op.kind == Remember && DecodesOwn(decode) && Attested(body, op.noteId, PointerOf(op), scopeOf)
    requires !Restores(body, op.noteId, PointerOf(op), decode)
    requires Synced(OneRecord(op, body), {op}, decode, scopeOf, live, index)
    ensures index != FullIndex(OneState(op), decode) && op.noteId in index && index[op.noteId].content == body.content
  {
    var snapshot, state, none := OneRecord(op, body), OneState(op), map[];
    OneNote(op);
    SyncIsDetermined(snapshot, {op}, decode, scopeOf, live, index, state, state, none);
    SingleRecordPasses(snapshot.records, LivePointers(state));
    ForgedBodyOf(snapshot, op, decode, scopeOf, live, index, state, none);
  }

  lemma SingleRecordPasses(records: seq<SealedRecord>, basePointers: map<NoteId, NotePointer>)
    requires |records| == 1 && StillAt(records[0], basePointers)
    ensures !Outdated(records, basePointers) && IsLast(records, |records|, 0)
  {
  }

  lemma ForgedBodyOf(snapshot: Snapshot, op: Op, decode: Decoder, scopeOf: ScopeReader,
                     live: set<NoteId>, index: map<NoteId, IndexRecord>, state: ConvergedState, none: ConvergedState)
    requires DecodesOwn(decode) && SyncedFrom(snapshot, {op}, decode, scopeOf, live, index, state, state, none)
    requires |snapshot.records| == 1 && snapshot.records[0].noteId == op.noteId && snapshot.records[0].body.Some?
    requires !Outdated(snapshot.records, LivePointers(state)) && IsLast(snapshot.records, 1, 0)
    requires LivePointers(state) == map[op.noteId := PointerOf(op)] && none == map[]
    requires var body := snapshot.records[0].body.value;
             Attested(body, op.noteId, PointerOf(op), scopeOf) && !Restores(body, op.noteId, PointerOf(op), decode)
    ensures index != FullIndex(state, decode) && op.noteId in index
    ensures index[op.noteId].content == snapshot.records[0].body.value.content
  {
    ForgedContentIsIndexed(snapshot, {op}, decode, scopeOf, live, index, state, state, none, 0);
  }

  /** And there is one. */
  lemma ForgedCheckpointExists() returns (op: Op, body: IndexRecord, decode: Decoder, scopeOf: ScopeReader)
    ensures op.kind == Remember && DecodesOwn(decode) && Attested(body, op.noteId, PointerOf(op), scopeOf)
    ensures !Restores(body, op.noteId, PointerOf(op), decode)
  {
    op := Op(1, "a", 1, 1, 1, Remember, 7, "k", 9, 0, 5);
    var p := PointerOf(op);
    var honest := IndexRecord(7, p.objectKey, p.cid, p.author, p.lamport, p.keyEpoch, "s", "true", {}, {}, None);
    decode := (n, q) => if n == 7 then Some(honest) else None;
    scopeOf := k => Some("s");
    body := honest.(content := "false");
    assert "false"[0] != "true"[0];
    assert WithoutSignals(body).content != WithoutSignals(honest).content;
  }

  lemma OverlayShape(full: ConvergedState, base: ConvergedState, tail: ConvergedState, tailDead: set<NoteId>,
                     finalLive: set<NoteId>, tailLive: map<NoteId, NotePointer>)
    requires tailDead == set n | n in tail && tail[n].tombstoned
    requires finalLive == set n | n in LivePointers(base).Keys - tailDead + LivePointers(tail).Keys
                                  && !(n in full && full[n].redacted)
    requires tailLive == map n | n in LivePointers(tail) && !(n in full && full[n].redacted) :: LivePointers(tail)[n]
    ensures finalLive == Overlay(full, base, tail).Keys
    ensures tailLive.Keys <= finalLive
    ensures forall n :: n in finalLive ==>
              if n in tailLive then Overlay(full, base, tail)[n] == tailLive[n]
              else n in LivePointers(base) && Overlay(full, base, tail)[n] == LivePointers(base)[n]
  {
  }

  // ---------------------------------------------------------------- on the fields of the records

  /** The signals of a stamped record are those of the converged note; its other fields are untouched. */
  lemma StampedFields(r: IndexRecord, full: ConvergedState)
    requires r.noteId in full
    ensures var t, s := Stamp(r, full), full[r.noteId];
            && t.relations == s.relations && t.reinforcers == s.reinforcers && t.lastReinforced == s.lastReinforced
            && t.noteId == r.noteId && t.objectKey == r.objectKey && t.cid == r.cid && t.author == r.author
            && t.lamport == r.lamport && t.keyEpoch == r.keyEpoch && t.scope == r.scope && t.content == r.content
  {
  }

  /** A full replay indexes exactly the live notes whose blob decodes, each with the fields decoded and
      the relations, reinforcers and last reinforcement of the converged note. */
  lemma ReplayedRecord(full: ConvergedState, decode: Decoder, n: NoteId)
    requires DecodesOwn(decode)
    ensures n in FullIndex(full, decode) <==>
            n in full && !full[n].tombstoned && full[n].pointer.Some? && decode(n, full[n].pointer.value).Some?
    ensures n in FullIndex(full, decode) ==>
              var r, d := FullIndex(full, decode)[n], decode(n, full[n].pointer.value).value;
              && r.relations == full[n].relations && r.reinforcers == full[n].reinforcers
              && r.lastReinforced == full[n].lastReinforced
              && r.noteId == n && r.objectKey == d.objectKey && r.cid == d.cid && r.author == d.author
              && r.lamport == d.lamport && r.keyEpoch == d.keyEpoch && r.scope == d.scope && r.content == d.content
  {
    if n in FullIndex(full, decode) { StampedFields(decode(n, full[n].pointer.value).value, full); }
  }

  /** Every indexed note is live and carries the converged relations, reinforcers and last
      reinforcement; every live note whose blob decodes is indexed. */
  lemma SyncedSignals(snapshot: Snapshot, ops: set<Op>, decode: Decoder, scopeOf: ScopeReader, live: set<NoteId>,
                      index: map<NoteId, IndexRecord>, full: ConvergedState, n: NoteId)
    requires DigestsIdentify(ops) && DecodesOwn(decode) && Converged(ops, full)
    requires Synced(snapshot, ops, decode, scopeOf, live, index)
    ensures n in live <==> n in full && !full[n].tombstoned && full[n].pointer.Some?
    ensures n in index ==> n in live
    ensures n in live && decode(n, full[n].pointer.value).Some? ==> n in index
    ensures n in index ==>
              && index[n].noteId == n && index[n].relations == full[n].relations
              && index[n].reinforcers == full[n].reinforcers && index[n].lastReinforced == full[n].lastReinforced
  {
    var f, base, tail :| SyncedFrom(snapshot, ops, decode, scopeOf, live, index, f, base, tail);
    ConvergenceIsDetermined(ops, full, f);
    if Outdated(snapshot.records, LivePointers(base)) {
      ReplayedRecord(full, decode, n);
    } else {
      OverlayIsFullReplay(ops, snapshot.lastLamport, full, base, tail);
      IncrementalRecord(snapshot, full, base, tail, decode, scopeOf, n);
    }
  }

  lemma IncrementalRecord(snapshot: Snapshot, full: ConvergedState, base: ConvergedState, tail: ConvergedState,
                          decode: Decoder, scopeOf: ScopeReader, n: NoteId)
    requires DecodesOwn(decode) && Overlay(full, base, tail) == LivePointers(full)
    ensures var index, live := IncrementalIndex(snapshot, full, base, tail, decode, scopeOf), LivePointers(full);
            && (n in index ==> n in live)
            && (n in live && decode(n, live[n]).Some? ==> n in index)
            && (n in index ==>
                && index[n].noteId == n && index[n].relations == full[n].relations
                && index[n].reinforcers == full[n].reinforcers && index[n].lastReinforced == full[n].lastReinforced)
  {
    var restored, pointers := RestoredFrom(snapshot, full, base, tail, scopeOf), LivePointers(base);
    LiveComesFrom(full, base, tail);
    CollectedAre(snapshot.records, pointers, LivePointers(full).Keys,
      LivePointers(tail).Keys * LivePointers(full).Keys, scopeOf);
    SourcesFit(full, base, tail, restored);
    var records := Gathered(full, pointers, TailPointers(full, tail), restored, decode);
    if n in records { StampedFields(records[n], full); }
  }

  /** An indexed record is what its note's converged pointer decodes to, signals aside, or its content is
      that of a checkpoint entry for the note and every other field is the one the pointer attests. */
  lemma IndexedIsDecodedOrAttested(snapshot: Snapshot, ops: set<Op>, decode: Decoder, scopeOf: ScopeReader,
                                   live: set<NoteId>, index: map<NoteId, IndexRecord>, full: ConvergedState, n: NoteId)
    requires DigestsIdentify(ops) && DecodesOwn(decode) && Converged(ops, full)
    requires Synced(snapshot, ops, decode, scopeOf, live, index) && n in index && n in full && full[n].pointer.Some?
    ensures var x, p, d := index[n], full[n].pointer.value, decode(n, full[n].pointer.value);
            || (d.Some? && x.objectKey == d.value.objectKey && x.cid == d.value.cid && x.author == d.value.author
                && x.lamport == d.value.lamport && x.keyEpoch == d.value.keyEpoch && x.scope == d.value.scope
                && x.content == d.value.content)
            || (x.objectKey == p.objectKey && x.cid == p.cid && x.author == p.author && x.lamport == p.lamport
                && x.keyEpoch == p.keyEpoch && scopeOf(p.objectKey) == Some(x.scope)
                && exists r :: (r in snapshot.records && r.noteId == n && r.body.Some?
                                && r.body.value.content == x.content))
  {
    var f, base, tail :| SyncedFrom(snapshot, ops, decode, scopeOf, live, index, f, base, tail);
    ConvergenceIsDetermined(ops, full, f);
    SyncedSignals(snapshot, ops, decode, scopeOf, live, index, full, n);
    if Outdated(snapshot.records, LivePointers(base)) {
      ReplayedRecord(full, decode, n);
    } else {
      OverlayIsFullReplay(ops, snapshot.lastLamport, full, base, tail);
      IncrementalSource(snapshot, full, base, tail, decode, scopeOf, n);
    }
  }

  lemma IncrementalSource(snapshot: Snapshot, full: ConvergedState, base: ConvergedState, tail: ConvergedState,
                          decode: Decoder, scopeOf: ScopeReader, n: NoteId)
    requires DecodesOwn(decode) && Overlay(full, base, tail) == LivePointers(full) && n in LivePointers(full)
    requires n in IncrementalIndex(snapshot, full, base, tail, decode, scopeOf)
    ensures var x, p, d := IncrementalIndex(snapshot, full, base, tail, decode, scopeOf)[n], LivePointers(full)[n],
            decode(n, LivePointers(full)[n]);
            || (d.Some? && WithoutSignals(x) == WithoutSignals(d.value))
            || (Attested(x, n, p, scopeOf)
                && exists r :: (r in snapshot.records && r.noteId == n && r.body.Some?
                                && r.body.value.content == x.content))
  {
    var restored := RestoredFrom(snapshot, full, base, tail, scopeOf);
    RestoredAttested(snapshot, full, base, tail, scopeOf, n);
    var records := Gathered(full, LivePointers(base), TailPointers(full, tail), restored, decode);
    StampedFields(records[n], full);
  }

  lemma RestoredAttested(snapshot: Snapshot, full: ConvergedState, base: ConvergedState, tail: ConvergedState,
                         scopeOf: ScopeReader, n: NoteId)
    requires Overlay(full, base, tail) == LivePointers(full)
    ensures var restored, live := RestoredFrom(snapshot, full, base, tail, scopeOf), LivePointers(full);
            && Sources(full, LivePointers(base), TailPointers(full, tail), restored)
            && (n in restored ==>
                && n in live && Attested(restored[n], n, live[n], scopeOf)
                && exists r :: (r in snapshot.records && r.noteId == n && r.body.Some?
                                && r.body.value.content == restored[n].content))
  {
    var restored, touched := RestoredFrom(snapshot, full, base, tail, scopeOf),
      LivePointers(tail).Keys * LivePointers(full).Keys;
    LiveComesFrom(full, base, tail);
    CollectedAre(snapshot.records, LivePointers(base), LivePointers(full).Keys, touched, scopeOf);
    SourcesFit(full, base, tail, restored);
    if n in restored {
      var r :| r in snapshot.records && Accepted(r, LivePointers(base), LivePointers(full).Keys, touched, scopeOf)
        && r.noteId == n && r.body == Some(restored[n]);
      assert r.body.value.content == restored[n].content;
    }
  }

  /** The valve, on the fields: some note's last entry is not live in the base at its lamport and key. */
  lemma OutdatedMeans(records: seq<SealedRecord>, base: ConvergedState)
    ensures Outdated(records, LivePointers(base)) <==>
            exists i :: (0 <= i < |records| && LastOfItsNote(records, i)
                         && !(exists p :: (records[i].noteId in base && !base[records[i].noteId].tombstoned
                                           && base[records[i].noteId].pointer == Some(p)
                                           && p.lamport == records[i].lamport && p.objectKey == records[i].objectKey)))
  {
    if Outdated(records, LivePointers(base)) {
      var i: nat :| IsLast(records, |records|, i) && !StillAt(records[i], LivePointers(base));
      assert LastOfItsNote(records, i);
    }
    forall i: nat | i < |records| && LastOfItsNote(records, i) ensures IsLast(records, |records|, i) { }
  }

  ghost predicate LastOfItsNote(records: seq<SealedRecord>, i: nat)
    requires i < |records|
  {
    forall k :: 0 <= k < |records| && records[k].noteId == records[i].noteId ==> k <= i
  }

  /** The baseline splits the log by lamport. */
  lemma PartsSplitByLamport(ops: set<Op>, baseline: nat, op: Op)
    ensures op in Base(ops, baseline) <==> op in ops && op.lamport <= baseline
    ensures op in Tail(ops, baseline) <==> op in ops && op.lamport > baseline
  {
  }
}
