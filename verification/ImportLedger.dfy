/** The import of foreign observations and the ledger that keeps a re-run from resurrecting
    forgotten notes (`import.rs`). */
module ImportLedger {
  import opened Options

  type Tag = string

  datatype Observation = Observation(session: string, id: int)

  /** What the store answers to one `remember`. */
  datatype Answer = Remembered | Malformed | Failed

  datatype Counts = Counts(imported: nat, skipped: nat)

  /** What one pass did: its counts (none if it aborted), the ledger it leaves in memory, and the
      tags whose `remember` returned success, in order. */
  datatype Pass = Pass(counts: Counts, aborted: bool, ledger: set<Tag>, written: seq<Tag>)

  // ---------------------------------------------------------------- tags

  function Digit(d: nat): char
    requires d < 10
  {
    "0123456789"[d]
  }

  function Decimal(n: nat): string {
    if n < 10 then [Digit(n)] else Decimal(n / 10) + [Digit(n % 10)]
  }

  function Signed(i: int): string {
    if i < 0 then "-" + Decimal(-i) else Decimal(i)
  }

  /** `provenance_tag`. */
  function ProvenanceTag(o: Observation): Tag {
    "cmem:" + o.session + ":" + Signed(o.id)
  }

  lemma {:induction false} DecimalShape(n: nat)
    ensures |Decimal(n)| > 0
    ensures forall i :: 0 <= i < |Decimal(n)| ==> '0' <= Decimal(n)[i] <= '9'
  {
    if n >= 10 { DecimalShape(n / 10); }
  }

  lemma DigitInjective(a: nat, b: nat)
    requires a < 10 && b < 10 && Digit(a) == Digit(b)
    ensures a == b
  {
    assert forall i, j :: 0 <= i < j < 10 ==> "0123456789"[i] != "0123456789"[j];
  }

  lemma {:induction false} DecimalInjective(a: nat, b: nat)
    requires Decimal(a) == Decimal(b)
    ensures a == b
    decreases a
  {
    DecimalShape(a / 10);
    DecimalShape(b / 10);
    var s, n := Decimal(a), |Decimal(a)| - 1;
    assert s[n] == Digit(a % 10) && s[n] == Digit(b % 10);
    DigitInjective(a % 10, b % 10);
    if a >= 10 && b >= 10 {
      assert s[..n] == Decimal(a / 10) && s[..n] == Decimal(b / 10);
      DecimalInjective(a / 10, b / 10);
    }
  }

  lemma SignedInjective(a: int, b: int)
    requires Signed(a) == Signed(b)
    ensures a == b
  {
    SignedStart(a);
    SignedStart(b);
    if a < 0 {
      assert Signed(a)[1..] == Decimal(-a) && Signed(b)[1..] == Decimal(-b);
      DecimalInjective(-a, -b);
    } else {
      DecimalInjective(a, b);
    }
  }

  lemma SignedStart(i: int)
    ensures Signed(i) != [] && (Signed(i)[0] == '-' <==> i < 0)
  {
    DecimalShape(if i < 0 then -i else i);
  }

  lemma SignedHasNoColon(i: int)
    ensures ':' !in Signed(i)
  {
    DecimalShape(if i < 0 then -i else i);
  }

  /** The last colon ends the session: two texts split at a colon with no colon after it agree. */
  lemma SplitAtLastColon(a: string, x: string, b: string, y: string)
    requires a + ":" + x == b + ":" + y && ':' !in x && ':' !in y
    ensures a == b && x == y
  {
    var s := a + ":" + x;
    assert s[|a|] == ':' && s[|b|] == ':';
    forall k | |a| < k < |s| ensures s[k] != ':' { assert s[k] == x[k - |a| - 1]; }
    forall k | |b| < k < |s| ensures s[k] != ':' { assert s[k] == y[k - |b| - 1]; }
    assert s[..|a|] == a && s[..|b|] == b && s[|a| + 1..] == x && s[|b| + 1..] == y;
  }

  /** A tag names one observation, whatever characters the session holds. */
  lemma TagInjective(o: Observation, p: Observation)
    ensures ProvenanceTag(o) == ProvenanceTag(p) <==> o == p
  {
    if ProvenanceTag(o) == ProvenanceTag(p) {
      SignedHasNoColon(o.id);
      SignedHasNoColon(p.id);
      SplitAtLastColon("cmem:" + o.session, Signed(o.id), "cmem:" + p.session, Signed(p.id));
      assert ("cmem:" + o.session)[5..] == o.session && ("cmem:" + p.session)[5..] == p.session;
      SignedInjective(o.id, p.id);
    }
  }

  /** The number a run of digits stands for. */
  function NumberOf(digits: string): nat
    requires forall i :: 0 <= i < |digits| ==> '0' <= digits[i] <= '9'
  {
    if digits == [] then 0
    else 10 * NumberOf(digits[..|digits| - 1]) + (digits[|digits| - 1] as nat - '0' as nat)
  }

  lemma {:induction false} DecimalReads(n: nat)
    ensures |Decimal(n)| > 0 && forall i :: 0 <= i < |Decimal(n)| ==> '0' <= Decimal(n)[i] <= '9'
    ensures NumberOf(Decimal(n)) == n
    ensures n > 0 ==> Decimal(n)[0] != '0'
    ensures n == 0 ==> Decimal(n) == "0"
  {
    DigitReads(n % 10);
    if n >= 10 {
      DecimalReads(n / 10);
      var s, last := Decimal(n), |Decimal(n)| - 1;
      assert s[..last] == Decimal(n / 10) && s[last] == Digit(n % 10);
    } else {
      assert Decimal(n)[..0] == [] && NumberOf("") == 0;
      if n == 0 { assert "0123456789"[0] == '0'; }
    }
  }

  lemma DigitReads(d: nat)
    requires d < 10
    ensures Digit(d) as nat == '0' as nat + d
  {
    assert forall i :: 0 <= i < 10 ==> "0123456789"[i] as nat == '0' as nat + i;
  }

  /** The text of a tag: `cmem:`, the session, a colon, a sign for a negative id, and its decimal digits. */
  lemma TagText(o: Observation) returns (digits: string)
    ensures forall i :: 0 <= i < |digits| ==> '0' <= digits[i] <= '9'
    ensures ProvenanceTag(o) == "cmem:" + o.session + ":" + ((if o.id < 0 then "-" else "") + digits)
    ensures |digits| > 0 && (digits[0] == '0' ==> digits == "0")
    ensures NumberOf(digits) == if o.id < 0 then -o.id else o.id
  {
    digits := Decimal(if o.id < 0 then -o.id else o.id);
    DecimalReads(if o.id < 0 then -o.id else o.id);
    assert "" + digits == digits;
    assert Signed(o.id) == (if o.id < 0 then "-" else "") + digits;
  }

  // ---------------------------------------------------------------- one pass

  function TagsOf(batch: seq<Observation>): (tags: seq<Tag>)
    ensures |tags| == |batch|
  {
    seq(|batch|, i requires 0 <= i < |batch| => ProvenanceTag(batch[i]))
  }

  ghost predicate Distinct<T>(s: seq<T>) {
    forall i, j :: 0 <= i < j < |s| ==> s[i] != s[j]
  }

  /** Distinct observations have distinct tags. */
  lemma TagsDistinct(batch: seq<Observation>)
    ensures Distinct(TagsOf(batch)) <==> Distinct(batch)
  {
    forall i, j | 0 <= i < j < |batch| ensures TagsOf(batch)[i] == TagsOf(batch)[j] <==> batch[i] == batch[j] {
      TagInjective(batch[i], batch[j]);
    }
  }

  /** The observation at `i` is new and the store fails on it. */
  predicate Aborts(tags: seq<Tag>, already: set<Tag>, answers: seq<Answer>, i: nat)
    requires i < |tags| == |answers|
  {
    tags[i] !in already && answers[i] == Failed
  }

  function FirstAbort(tags: seq<Tag>, already: set<Tag>, answers: seq<Answer>, i: nat): (n: nat)
    requires i <= |tags| == |answers|
    ensures i <= n <= |tags|
    ensures n < |tags| ==> Aborts(tags, already, answers, n)
    ensures forall k: nat :: i <= k < n ==> !Aborts(tags, already, answers, k)
    decreases |tags| - i
  {
    if i == |tags| || Aborts(tags, already, answers, i) then i else FirstAbort(tags, already, answers, i + 1)
  }

  /** How many observations a writing pass handles: all, or those before the first failing one. */
  function Handled(tags: seq<Tag>, already: set<Tag>, answers: seq<Answer>): (n: nat)
    requires |answers| == |tags|
    ensures n <= |tags|
    ensures n < |tags| ==> Aborts(tags, already, answers, n)
    ensures forall k: nat :: k < n ==> !Aborts(tags, already, answers, k)
  {
    FirstAbort(tags, already, answers, 0)
  }

  /** The observation at `i` is new and the store takes it. */
  predicate Taken(tags: seq<Tag>, already: set<Tag>, answers: seq<Answer>, i: nat)
    requires i < |tags| == |answers|
  {
    tags[i] !in already && answers[i] == Remembered
  }

  /** The new tags among the first `n` whose observation the store took. */
  function Written(tags: seq<Tag>, already: set<Tag>, answers: seq<Answer>, n: nat): seq<Tag>
    requires n <= |tags| == |answers|
  {
    if n == 0 then []
    else Written(tags, already, answers, n - 1) + if Taken(tags, already, answers, n - 1) then [tags[n - 1]] else []
  }

  /** How many of the first `n` are new. */
  function NewAmong(tags: seq<Tag>, already: set<Tag>, n: nat): nat
    requires n <= |tags|
  {
    if n == 0 then 0 else NewAmong(tags, already, n - 1) + if tags[n - 1] !in already then 1 else 0
  }

  function ToTags(tags: seq<Tag>): set<Tag> { set t | t in tags }

  lemma ToTagsPush(ledger: set<Tag>, tags: seq<Tag>, tag: Tag)
    ensures ledger + ToTags(tags + [tag]) == ledger + ToTags(tags) + {tag}
  {
  }

  /** `ingest_observations`, given the observations' tags. */
  method IngestObservations(tags: seq<Tag>, already: set<Tag>, ledger: set<Tag>, dryRun: bool, answers: seq<Answer>)
    returns (p: Pass)
    requires |answers| == |tags|
    ensures p.aborted <==> !dryRun && Handled(tags, already, answers) < |tags|
    ensures p.written == if dryRun then [] else Written(tags, already, answers, Handled(tags, already, answers))
    ensures p.ledger == ledger + ToTags(p.written)
    ensures !p.aborted ==> p.counts.imported + p.counts.skipped == |tags|
    ensures !p.aborted ==> p.counts.imported == if dryRun then NewAmong(tags, already, |tags|) else |p.written|
  {
    var imported, skipped := 0, 0;
    var mine, written := ledger, [];
    ghost var handled := Handled(tags, already, answers);
    for i := 0 to |tags|
      invariant imported + skipped == i
      invariant dryRun ==> written == [] && imported == NewAmong(tags, already, i)
      invariant !dryRun ==> written == Written(tags, already, answers, i) && imported == |written| && i <= handled
      invariant mine == ledger + ToTags(written)
    {
      var tag := tags[i];
      if tag in already {
        skipped := skipped + 1;
      } else if dryRun {
        imported := imported + 1;
      } else {
        match answers[i]
        case Malformed => skipped := skipped + 1;
        case Failed =>
          assert Aborts(tags, already, answers, i);
          return Pass(Counts(imported, skipped), true, mine, written);
        case Remembered =>
          ToTagsPush(ledger, written, tag);
          mine := mine + {tag};
          written := written + [tag];
          imported := imported + 1;
      }
    }
    p := Pass(Counts(imported, skipped), false, mine, written);
  }

  /** `t` is taken at one of the first `n` places. */
  ghost predicate TakenBefore(tags: seq<Tag>, already: set<Tag>, answers: seq<Answer>, n: nat, t: Tag)
    requires n <= |tags| == |answers|
  {
    exists i: nat :: i < n && Taken(tags, already, answers, i) && tags[i] == t
  }

  /** Two of the first `n` places list one tag, and both are taken. */
  ghost predicate TakenTwice(tags: seq<Tag>, already: set<Tag>, answers: seq<Answer>, n: nat)
    requires n <= |tags| == |answers|
  {
    exists i: nat, j: nat :: i < j < n && Taken(tags, already, answers, i) && Taken(tags, already, answers, j)
      && tags[i] == tags[j]
  }

  lemma TakenTwiceStep(tags: seq<Tag>, already: set<Tag>, answers: seq<Answer>, n: nat)
    requires 0 < n <= |tags| == |answers|
    ensures TakenTwice(tags, already, answers, n) <==>
            || TakenTwice(tags, already, answers, n - 1)
            || (Taken(tags, already, answers, n - 1) && TakenBefore(tags, already, answers, n - 1, tags[n - 1]))
  {
  }

  lemma DistinctPush<T>(s: seq<T>, x: T)
    ensures Distinct(s + [x]) <==> Distinct(s) && x !in s
  {
    var t := s + [x];
    assert t[|s|] == x && forall k :: 0 <= k < |s| ==> t[k] == s[k];
    if Distinct(t) {
      assert forall i, j :: 0 <= i < j < |s| ==> s[i] == t[i] && s[j] == t[j];
    }
  }

  /** Exactly the new tags that the store takes are written: nothing else, and nothing is dropped. */
  lemma {:induction false} WrittenIff(tags: seq<Tag>, already: set<Tag>, answers: seq<Answer>, n: nat, t: Tag)
    requires n <= |tags| == |answers|
    ensures t in Written(tags, already, answers, n) <==> TakenBefore(tags, already, answers, n, t)
  {
    if n > 0 { WrittenIff(tags, already, answers, n - 1, t); }
  }

  /** A pass writes a tag twice exactly when the part of the batch it reaches lists a new tag twice
      and the store takes both. */
  lemma {:induction false} WrittenOnceIff(tags: seq<Tag>, already: set<Tag>, answers: seq<Answer>, n: nat)
    requires n <= |tags| == |answers|
    ensures Distinct(Written(tags, already, answers, n)) <==> !TakenTwice(tags, already, answers, n)
  {
    if n > 0 {
      WrittenOnceIff(tags, already, answers, n - 1);
      TakenTwiceStep(tags, already, answers, n);
      WrittenIff(tags, already, answers, n - 1, tags[n - 1]);
      var before := Written(tags, already, answers, n - 1);
      DistinctPush(before, tags[n - 1]);
      assert before + [] == before;
    }
  }

  // ---------------------------------------------------------------- many runs

  /** `log` is every successful `remember` so far, `ledger` what the ledger file on disk reads as (the
      empty set if it is missing or does not parse), `live` the tags of the notes that are not
      forgotten. */
  datatype World = World(log: seq<Tag>, ledger: set<Tag>, live: set<Tag>)

  const NEW_MACHINE := World([], {}, {})

  /** How the ledger write ends: in full, before the file was opened (or never tried), or after it was
      truncated. A proper prefix of the written list does not parse. */
  datatype Save = Saved | NotOpened | Torn

  /** A run names its observations by their tags (`TagInjective`), and scans the live index: up to
      date if it could sync first (`stale` is none), else whatever the local index still holds.
      `readable` says whether the ledger file could be found, read and parsed. */
  datatype Event =
    | ImportRun(tags: seq<Tag>, dryRun: bool, answers: seq<Answer>, stale: Option<set<Tag>>, readable: bool, save: Save)
    | Forget(tag: Tag)
    | TeammateAdds(tag: Tag)
    | LedgerCut(left: set<Tag>)  // deleted, corrupted or shortened by hand

  /** The store's answers to a batch; a store that gives no more answers fails. */
  function AnswersTo(tags: seq<Tag>, answers: seq<Answer>): (all: seq<Answer>)
    ensures |all| == |tags|
    ensures |answers| == |tags| ==> all == answers
  {
    seq(|tags|, i requires 0 <= i < |tags| => if i < |answers| then answers[i] else Failed)
  }

  /** `load_ledger`. */
  function Loaded(w: World, readable: bool): set<Tag> { if readable then w.ledger else {} }

  /** What `save_ledger` leaves on disk. */
  function Stored(file: set<Tag>, tags: set<Tag>, save: Save): set<Tag> {
    match save case Saved => tags case NotOpened => file case Torn => {}
  }

  /** What the index scan finds. */
  function Scanned(w: World, stale: Option<set<Tag>>): set<Tag> {
    match stale case Some(found) => found case None => w.live
  }

  /** What the run takes as imported before: the index scan and the ledger. */
  function Already(w: World, e: Event): set<Tag>
    requires e.ImportRun?
  {
    Scanned(w, e.stale) + Loaded(w, e.readable)
  }

  /** How far a writing run gets. */
  function Reached(w: World, e: Event): nat
    requires e.ImportRun?
  {
    Handled(e.tags, Already(w, e), AnswersTo(e.tags, e.answers))
  }

  function RunWrites(w: World, e: Event): seq<Tag> {
    if !e.ImportRun? || e.dryRun then []
    else Written(e.tags, Already(w, e), AnswersTo(e.tags, e.answers), Reached(w, e))
  }

  function Next(w: World, e: Event): World {
    match e
    case ImportRun(_, dryRun, _, _, readable, save) =>
      var written := RunWrites(w, e);
      var ledger := if dryRun then w.ledger else Stored(w.ledger, Loaded(w, readable) + ToTags(written), save);
      World(w.log + written, ledger, w.live + ToTags(written))
    case Forget(tag) => w.(live := w.live - {tag})
    case TeammateAdds(tag) => w.(live := w.live + {tag})
    case LedgerCut(left) => w.(ledger := w.ledger * left)
  }

  /** Which rows a run takes: those not in the index it scanned nor in a ledger it could read, whose
      remember succeeds, before the first such row on which the store fails. */
  ghost predicate RowTaken(w: World, e: Event, i: nat)
    requires e.ImportRun? && i < |e.tags|
  {
    && !e.dryRun && RowIsNew(w, e, i) && i < |e.answers| && e.answers[i] == Remembered
    && forall k: nat :: k < i && RowIsNew(w, e, k) ==> k < |e.answers| && e.answers[k] != Failed
  }

  ghost predicate RowIsNew(w: World, e: Event, i: nat)
    requires e.ImportRun? && i < |e.tags|
  {
    && e.tags[i] !in (if e.stale == None then w.live else e.stale.value)
    && !(e.readable && e.tags[i] in w.ledger)
  }

  lemma RunWritesIff(w: World, e: Event, t: Tag)
    requires e.ImportRun?
    ensures t in RunWrites(w, e) <==> exists i: nat :: i < |e.tags| && RowTaken(w, e, i) && e.tags[i] == t
  {
    if !e.dryRun {
      var already, all, n := Already(w, e), AnswersTo(e.tags, e.answers), Reached(w, e);
      WrittenIff(e.tags, already, all, n, t);
      forall i: nat | i < |e.tags|
        ensures RowTaken(w, e, i) <==> i < n && Taken(e.tags, already, all, i)
      {
        RowTakenIff(w, e, i);
      }
    }
  }

  lemma RowTakenIff(w: World, e: Event, i: nat)
    requires e.ImportRun? && i < |e.tags| && !e.dryRun
    ensures RowTaken(w, e, i) <==> i < Reached(w, e) && Taken(e.tags, Already(w, e), AnswersTo(e.tags, e.answers), i)
  {
    var already, all, n := Already(w, e), AnswersTo(e.tags, e.answers), Reached(w, e);
    forall k: nat | k < |e.tags|
      ensures RowIsNew(w, e, k) <==> e.tags[k] !in already
      ensures Aborts(e.tags, already, all, k) <==> RowIsNew(w, e, k) && !(k < |e.answers| && e.answers[k] != Failed)
    {
    }
    if i < n {
      forall k: nat | k < i && RowIsNew(w, e, k) ensures k < |e.answers| && e.answers[k] != Failed {
        assert !Aborts(e.tags, already, all, k);
      }
    }
  }

  /** What an event leaves, tag by tag: a run logs and revives what it wrote; its save adds that to the
      ledger it read, or leaves the file as it was, or empty. */
  lemma EventLeaves(w: World, e: Event, t: Tag)
    ensures e.ImportRun? ==> Next(w, e).log == w.log + RunWrites(w, e)
    ensures e.ImportRun? ==> (t in Next(w, e).live <==> t in w.live || t in RunWrites(w, e))
    ensures e.ImportRun? && (e.dryRun || e.save == NotOpened) ==> Next(w, e).ledger == w.ledger
    ensures e.ImportRun? && !e.dryRun && e.save == Torn ==> Next(w, e).ledger == {}
    ensures e.ImportRun? && !e.dryRun && e.save == Saved ==>
              (t in Next(w, e).ledger <==> (e.readable && t in w.ledger) || t in RunWrites(w, e))
    ensures e.Forget? ==> Next(w, e) == World(w.log, w.ledger, w.live - {e.tag})
    ensures e.TeammateAdds? ==> Next(w, e) == World(w.log, w.ledger, w.live + {e.tag})
    ensures e.LedgerCut? ==> Next(w, e) == World(w.log, w.ledger * e.left, w.live)
  {
  }

  /** The state of the importing machine. */
  class Importer {
    var world: World

    constructor ()
      ensures world == NEW_MACHINE
    {
      world := NEW_MACHINE;
    }

    /** `save_ledger`: the file is truncated first and then written. */
    method SaveLedger(tags: set<Tag>, save: Save)
      modifies this
      ensures world == old(world).(ledger := Stored(old(world).ledger, tags, save))
    {
      if save == NotOpened { return; }
      world := world.(ledger := {});
      if save == Saved { world := world.(ledger := tags); }
    }

    /** `run` and `ingest_and_persist_ledger`: the ledger is saved whether or not the pass aborted, and
        never by a dry run. */
    method ImportObservations(batch: seq<Observation>, dryRun: bool, answers: seq<Answer>, stale: Option<set<Tag>>,
                              readable: bool, save: Save)
      returns (result: Pass)
      modifies this
      ensures world == Next(old(world), ImportRun(TagsOf(batch), dryRun, answers, stale, readable, save))
      ensures result.written == RunWrites(old(world), ImportRun(TagsOf(batch), dryRun, answers, stale, readable, save))
      ensures !result.aborted ==> result.counts.imported + result.counts.skipped == |batch|
    {
      var already := Scanned(world, stale);
      var ledger := if readable then world.ledger else {};
      result := IngestObservations(TagsOf(batch), already + ledger, ledger, dryRun, AnswersTo(TagsOf(batch), answers));
      world := World(world.log + result.written, world.ledger, world.live + ToTags(result.written));
      if !dryRun { SaveLedger(result.ledger, save); }
    }
  }

  /** The world after the first `k` events of a history. */
  function At(es: seq<Event>, k: nat): World
    requires k <= |es|
  {
    if k == 0 then NEW_MACHINE else Next(At(es, k - 1), es[k - 1])
  }

  /** What the run at `k` of the history writes. */
  function WritesAt(es: seq<Event>, k: nat): seq<Tag>
    requires k < |es|
  {
    RunWrites(At(es, k), es[k])
  }

  // ---------------------------------------------------------------- the ledger

  /** The event at `k` is a run that wrote `t` and saved its ledger. */
  ghost predicate SavedAt(es: seq<Event>, k: nat, t: Tag)
    requires k < |es|
  {
    t in WritesAt(es, k) && es[k].save == Saved
  }

  /** The event may take an entry out of the file: a run whose save was torn, a run that could not read
      the file and saved over it, or a cut that does not spare `t`. */
  predicate Drops(e: Event, t: Tag) {
    match e
    case ImportRun(_, dryRun, _, _, readable, save) => !dryRun && (save == Torn || (save == Saved && !readable))
    case LedgerCut(left) => t !in left
    case _ => false
  }

  /** Among flags: one is set and nothing is dropped after it. */
  ghost predicate SetAndKept(saved: seq<bool>, drops: seq<bool>, n: nat)
    requires n <= |saved| == |drops|
  {
    exists i: nat :: i < n && saved[i] && NoneSet(drops, i, n)
  }

  ghost predicate NoneSet(drops: seq<bool>, i: nat, n: nat)
    requires n <= |drops|
  {
    forall j :: i < j < n ==> !drops[j]
  }

  lemma SetAndKeptStep(saved: seq<bool>, drops: seq<bool>, n: nat)
    requires 0 < n <= |saved| == |drops|
    ensures SetAndKept(saved, drops, n) <==> saved[n - 1] || (SetAndKept(saved, drops, n - 1) && !drops[n - 1])
  {
    if saved[n - 1] { assert NoneSet(drops, n - 1, n); }
    if SetAndKept(saved, drops, n - 1) && !drops[n - 1] {
      var i: nat :| i < n - 1 && saved[i] && NoneSet(drops, i, n - 1);
      assert NoneSet(drops, i, n);
    }
    if SetAndKept(saved, drops, n) && !saved[n - 1] {
      var i: nat :| i < n && saved[i] && NoneSet(drops, i, n);
      assert NoneSet(drops, i, n - 1);
    }
  }

  ghost function SavedFlags(es: seq<Event>, t: Tag): (flags: seq<bool>)
    ensures |flags| == |es|
  {
    seq(|es|, k requires 0 <= k < |es| => SavedAt(es, k, t))
  }

  ghost function DropFlags(es: seq<Event>, t: Tag): (flags: seq<bool>)
    ensures |flags| == |es|
  {
    seq(|es|, k requires 0 <= k < |es| => Drops(es[k], t))
  }

  /** Some run wrote `t` and saved, and nothing has dropped the entry since. */
  ghost predicate Guarded(es: seq<Event>, n: nat, t: Tag)
    requires n <= |es|
  {
    SetAndKept(SavedFlags(es, t), DropFlags(es, t), n)
  }

  lemma GuardedStep(es: seq<Event>, n: nat, t: Tag)
    requires 0 < n <= |es|
    ensures Guarded(es, n, t) <==> SavedAt(es, n - 1, t) || (Guarded(es, n - 1, t) && !Drops(es[n - 1], t))
  {
    SetAndKeptStep(SavedFlags(es, t), DropFlags(es, t), n);
  }

  lemma NextLedger(w: World, e: Event, t: Tag)
    ensures t in Next(w, e).ledger <==> (t in RunWrites(w, e) && e.save == Saved) || (t in w.ledger && !Drops(e, t))
    ensures t in Next(w, e).log <==> t in w.log || t in RunWrites(w, e)
  {
  }

  /** The ledger after any history holds a tag if and only if some run that wrote it saved and no later
      event dropped it; and then the tag is in the log. */
  lemma {:induction false} LedgerIsSavedWrites(es: seq<Event>, n: nat, t: Tag)
    requires n <= |es|
    ensures t in At(es, n).ledger ==> t in At(es, n).log
    ensures t in At(es, n).ledger <==> Guarded(es, n, t)
  {
    if n > 0 {
      LedgerIsSavedWrites(es, n - 1, t);
      NextLedger(At(es, n - 1), es[n - 1], t);
      GuardedStep(es, n, t);
    }
  }

  // ---------------------------------------------------------------- remembered once

  /** The run at `k` takes one tag twice. */
  ghost predicate Repeats(es: seq<Event>, k: nat)
    requires k < |es|
  {
    var w, e := At(es, k), es[k];
    e.ImportRun? && !e.dryRun && TakenTwice(e.tags, Already(w, e), AnswersTo(e.tags, e.answers), Reached(w, e))
  }

  /** The run at `k` takes its row `i` although it was remembered before: its note is not in the
      scanned index, and the run cannot read the ledger or the ledger has lost the entry. */
  ghost predicate Resurrects(es: seq<Event>, k: nat, i: nat)
    requires k < |es| && es[k].ImportRun? && i < |es[k].tags|
  {
    var w, e, t := At(es, k), es[k], es[k].tags[i];
    && !e.dryRun && i < Reached(w, e) && AnswersTo(e.tags, e.answers)[i] == Remembered
    && t in w.log
    && t !in Scanned(w, e.stale)
    && !(e.readable && Guarded(es, k, t))
  }

  ghost predicate ResurrectsTag(es: seq<Event>, k: nat, t: Tag)
    requires k < |es| && es[k].ImportRun?
  {
    exists i: nat :: i < |es[k].tags| && Resurrects(es, k, i) && es[k].tags[i] == t
  }

  lemma ResurrectedIff(es: seq<Event>, k: nat, t: Tag)
    requires k < |es| && es[k].ImportRun?
    ensures t in WritesAt(es, k) && t in At(es, k).log <==> ResurrectsTag(es, k, t)
  {
    var w, e, tags := At(es, k), es[k], es[k].tags;
    LedgerIsSavedWrites(es, k, t);
    if !e.dryRun {
      WrittenIff(tags, Already(w, e), AnswersTo(e.tags, e.answers), Reached(w, e), t);
      forall i: nat | i < |tags| && tags[i] == t
        ensures Resurrects(es, k, i) <==>
                i < Reached(w, e) && Taken(tags, Already(w, e), AnswersTo(e.tags, e.answers), i) && t in w.log
      {
      }
    }
  }

  lemma DistinctJoin<T>(a: seq<T>, b: seq<T>)
    ensures Distinct(a + b) <==> Distinct(a) && Distinct(b) && forall x :: x in b ==> x !in a
  {
    var s := a + b;
    assert forall k :: 0 <= k < |a| ==> s[k] == a[k] && a[k] in a;
    assert forall k :: 0 <= k < |b| ==> s[|a| + k] == b[k] && b[k] in b;
    if Distinct(s) {
      forall i, j | 0 <= i < j < |b| ensures b[i] != b[j] { assert s[|a| + i] != s[|a| + j]; }
      forall x | x in b ensures x !in a {
        var j :| 0 <= j < |b| && b[j] == x;
        assert s[|a| + j] == x;
      }
    }
  }

  /** The event at `k` takes no row twice and resurrects nothing. */
  ghost predicate OnceAt(es: seq<Event>, k: nat)
    requires k < |es|
  {
    !Repeats(es, k) && (es[k].ImportRun? ==> forall i: nat :: i < |es[k].tags| ==> !Resurrects(es, k, i))
  }

  lemma NoneResurrected(es: seq<Event>, k: nat)
    requires k < |es| && es[k].ImportRun?
    ensures (forall t :: t in WritesAt(es, k) ==> t !in At(es, k).log) <==>
            forall i: nat :: i < |es[k].tags| ==> !Resurrects(es, k, i)
  {
    forall i: nat | i < |es[k].tags| && Resurrects(es, k, i)
      ensures exists t :: t in WritesAt(es, k) && t in At(es, k).log
    {
      ResurrectedIff(es, k, es[k].tags[i]);
    }
    forall t | t in WritesAt(es, k) && t in At(es, k).log ensures ResurrectsTag(es, k, t) { ResurrectedIff(es, k, t); }
  }

  /** An event keeps the log free of repetitions exactly when it repeats and resurrects nothing. */
  lemma OnceStep(es: seq<Event>, k: nat)
    requires k < |es|
    ensures Distinct(At(es, k + 1).log) <==> Distinct(At(es, k).log) && OnceAt(es, k)
  {
    var w, e := At(es, k), es[k];
    assert w.log + [] == w.log;
    if e.ImportRun? {
      DistinctJoin(w.log, WritesAt(es, k));
      NoneResurrected(es, k);
      if !e.dryRun { WrittenOnceIff(e.tags, Already(w, e), AnswersTo(e.tags, e.answers), Reached(w, e)); }
    }
  }

  /** Each of the first `n` events does. */
  ghost predicate OnceUpTo(es: seq<Event>, n: nat)
    requires n <= |es|
  {
    n == 0 || (OnceUpTo(es, n - 1) && OnceAt(es, n - 1))
  }

  /** Over any history of full, dry and aborted runs, forgets, stale scans, unreadable ledgers, failed
      and torn saves, every observation is remembered at most once exactly when no run takes one row
      twice and none resurrects a note that its index scan misses and its ledger does not hold. */
  lemma {:induction false} RememberedOnceIff(es: seq<Event>, n: nat)
    requires n <= |es|
    ensures Distinct(At(es, n).log) <==> OnceUpTo(es, n)
  {
    if n > 0 {
      RememberedOnceIff(es, n - 1);
      OnceStep(es, n - 1);
    }
  }

  /** A batch lists no observation twice (they are rows under one primary key, and `TagsDistinct`),
      every run that may write could read its ledger and saved it, and nobody else touches the file. */
  ghost predicate Kept(e: Event) {
    && (e.ImportRun? ==> Distinct(e.tags) && (e.dryRun || (e.readable && e.save == Saved)))
    && !e.LedgerCut?
  }

  ghost predicate AllKept(es: seq<Event>) { forall k: nat :: k < |es| ==> Kept(es[k]) }

  lemma {:induction false} KeptLedgerIsLog(es: seq<Event>, n: nat)
    requires AllKept(es) && n <= |es|
    ensures At(es, n).ledger == ToTags(At(es, n).log)
  {
    if n > 0 {
      KeptLedgerIsLog(es, n - 1);
      var w, more := At(es, n - 1), WritesAt(es, n - 1);
      assert ToTags(w.log + more) == ToTags(w.log) + ToTags(more);
    }
  }

  lemma KeptIsOnce(es: seq<Event>, k: nat)
    requires AllKept(es) && k < |es|
    ensures OnceAt(es, k)
  {
    KeptLedgerIsLog(es, k);
    if es[k].ImportRun? {
      forall i: nat | i < |es[k].tags| ensures !Resurrects(es, k, i) {
        LedgerIsSavedWrites(es, k, es[k].tags[i]);
      }
    }
  }

  lemma {:induction false} KeptIsOnceUpTo(es: seq<Event>, n: nat)
    requires AllKept(es) && n <= |es|
    ensures OnceUpTo(es, n)
  {
    if n > 0 {
      KeptIsOnceUpTo(es, n - 1);
      KeptIsOnce(es, n - 1);
    }
  }

  /** Where loads and saves succeed and rows are distinct, every observation is remembered at most once,
      and the ledger is exactly the tags whose `remember` returned success. */
  lemma RememberedAtMostOnce(es: seq<Event>, n: nat)
    requires AllKept(es) && n <= |es|
    ensures Distinct(At(es, n).log)
    ensures At(es, n).ledger == ToTags(At(es, n).log)
  {
    KeptIsOnceUpTo(es, n);
    RememberedOnceIff(es, n);
    KeptLedgerIsLog(es, n);
  }

  // ---------------------------------------------------------------- the exceptions arise

  /** One observation, taken, with an up-to-date index. */
  function OneRun(t: Tag, readable: bool, save: Save): Event {
    ImportRun([t], false, [Remembered], None, readable, save)
  }

  lemma OneRunWrites(w: World, t: Tag, readable: bool, save: Save)
    requires t !in w.live && t !in Loaded(w, readable)
    ensures RunWrites(w, OneRun(t, readable, save)) == [t]
  {
    var already := Already(w, OneRun(t, readable, save));
    assert AnswersTo([t], [Remembered]) == [Remembered];
    assert !Aborts([t], already, [Remembered], 0);
    assert Handled([t], already, [Remembered]) == 1;
    OneWritten(t, already);
  }

  lemma OneRunStep(w: World, t: Tag, readable: bool, save: Save)
    requires t !in w.live && t !in Loaded(w, readable)
    ensures Next(w, OneRun(t, readable, save)) ==
            World(w.log + [t], Stored(w.ledger, Loaded(w, readable) + {t}, save), w.live + {t})
  {
    OneRunWrites(w, t, readable, save);
    assert ToTags([t]) == {t};
  }

  lemma OneWritten(t: Tag, already: set<Tag>)
    requires t !in already
    ensures Written([t], already, [Remembered], 1) == [t]
    ensures Written([t, t], already, [Remembered, Remembered], 2) == [t, t]
  {
    assert Written([t], already, [Remembered], 0) == [];
    assert Written([t, t], already, [Remembered, Remembered], 0) == [];
    assert Written([t, t], already, [Remembered, Remembered], 1) == [t];
  }

  /** Import, forget, import again: the first run's save is lost. */
  function LostSave(t: Tag): seq<Event> { [OneRun(t, true, NotOpened), Forget(t), OneRun(t, true, Saved)] }

  /** Both runs save, but the second cannot read the file. */
  function LostLoad(t: Tag): seq<Event> { [OneRun(t, true, Saved), Forget(t), OneRun(t, false, Saved)] }

  /** Another observation's save is torn in between. */
  function TornSave(t: Tag, u: Tag): seq<Event> {
    [OneRun(t, true, Saved), OneRun(u, true, Torn), Forget(t), OneRun(t, true, Saved)]
  }

  lemma UnsavedLedgerResurrects(t: Tag)
    ensures At(LostSave(t), 3).log == [t, t] && !Distinct(At(LostSave(t), 3).log)
  {
    FirstRun(t, NotOpened);
    OneRunStep(World([t], {}, {}), t, true, Saved);
    AfterThree(OneRun(t, true, NotOpened), Forget(t), OneRun(t, true, Saved));
    TwiceIsNotDistinct(t);
  }

  lemma UnreadableLedgerResurrects(t: Tag)
    ensures At(LostLoad(t), 3).log == [t, t] && !Distinct(At(LostLoad(t), 3).log)
  {
    FirstRun(t, Saved);
    OneRunStep(World([t], {t}, {}), t, false, Saved);
    AfterThree(OneRun(t, true, Saved), Forget(t), OneRun(t, false, Saved));
    TwiceIsNotDistinct(t);
  }

  lemma FirstRun(t: Tag, save: Save)
    ensures Next(NEW_MACHINE, OneRun(t, true, save)) == World([t], Stored({}, {t}, save), {t})
    ensures Next(Next(NEW_MACHINE, OneRun(t, true, save)), Forget(t)) == World([t], Stored({}, {t}, save), {})
  {
    OneRunStep(NEW_MACHINE, t, true, save);
    assert [] + [t] == [t];
  }

  lemma TornLedgerResurrects(t: Tag, u: Tag)
    requires t != u
    ensures At(TornSave(t, u), 4).log == [t] + [u] + [t] && !Distinct(At(TornSave(t, u), 4).log)
  {
    FirstRun(t, Saved);
    SecondTorn(t, u);
    OneRunStep(World([t] + [u], {}, {u}), t, true, Saved);
    AfterFour(TornSave(t, u), OneRun(t, true, Saved), OneRun(u, true, Torn), Forget(t), OneRun(t, true, Saved));
    AgainIsNotDistinct(t, u);
  }

  lemma SecondTorn(t: Tag, u: Tag)
    requires t != u
    ensures Next(Next(World([t], {t}, {t}), OneRun(u, true, Torn)), Forget(t)) == World([t] + [u], {}, {u})
  {
    OneRunStep(World([t], {t}, {t}), u, true, Torn);
    assert {t} + {u} - {t} == {u};
  }

  lemma AgainIsNotDistinct(t: Tag, u: Tag)
    ensures !Distinct([t] + [u] + [t])
  {
    var s := [t] + [u] + [t];
    assert s[0] == s[2];
  }

  lemma TwiceIsNotDistinct(t: Tag)
    ensures !Distinct([t] + [t]) && [t] + [t] == [t, t]
  {
    assert ([t] + [t])[0] == ([t] + [t])[1];
  }

  lemma AfterThree(a: Event, b: Event, c: Event)
    ensures At([a, b, c], 3) == Next(Next(Next(NEW_MACHINE, a), b), c)
  {
    var es := [a, b, c];
    assert At(es, 1) == Next(At(es, 0), a);
    assert At(es, 2) == Next(At(es, 1), b);
  }

  lemma AfterFour(es: seq<Event>, a: Event, b: Event, c: Event, d: Event)
    requires es == [a, b, c, d]
    ensures At(es, 4) == Next(Next(Next(Next(NEW_MACHINE, a), b), c), d)
  {
    assert At(es, 1) == Next(At(es, 0), a);
    assert At(es, 2) == Next(At(es, 1), b);
    assert At(es, 3) == Next(At(es, 2), c);
  }

  /** Nor does a pass consult what it has itself just written. It takes a foreign database whose rows
      repeat, which one with its primary key in place does not hold. */
  lemma RepeatedRowIsWrittenTwice(o: Observation)
    ensures Written(TagsOf([o, o]), {}, [Remembered, Remembered], 2) == [ProvenanceTag(o), ProvenanceTag(o)]
  {
    var t := ProvenanceTag(o);
    assert TagsOf([o, o]) == [t, t];
    OneWritten(t, {});
  }
}
