/** The team report: the activity tally over a window and the reuse ranking (`report.rs`). */
module Report {
  import opened OpLog
  import opened Sorting

  datatype Window = Window(sinceMs: nat, untilMs: nat)

  predicate Contains(w: Window, ms: nat) { w.sinceMs <= ms < w.untilMs }

  /** The counter an op belongs to; reinforcements belong to none of the report's five. */
  datatype Counter = Added | Edited | Linked | Tombstoned | Redacted | Usage

  datatype Activity = Activity(added: nat, edited: nat, linked: nat, tombstoned: nat, redacted: nat)

  function CounterOf(kind: OpKind): Counter {
    match kind
    case Remember => Added
    case Edit => Edited
    case Link(_) => Linked
    case Relate(_, _) => Linked
    case Forget => Tombstoned
    case Redact => Redacted
    case Reinforce => Usage
  }

  /** A verified op as the tally sees it: the timestamp of its id, and its kind. */
  datatype Entry = Entry(ms: nat, kind: OpKind)

  predicate Hits(op: Entry, w: Window, c: Counter) { Contains(w, op.ms) && CounterOf(op.kind) == c }

  /** The ops in the window that belong to `c`. */
  function Count(ops: seq<Entry>, w: Window, c: Counter): nat {
    if ops == [] then 0 else Count(ops[..|ops| - 1], w, c) + if Hits(ops[|ops| - 1], w, c) then 1 else 0
  }

  /** `tally_activity`. */
  method TallyActivity(ops: seq<Entry>, w: Window) returns (counts: Activity)
    ensures counts.added == Count(ops, w, Added) && counts.edited == Count(ops, w, Edited)
            && counts.linked == Count(ops, w, Linked)
    ensures counts.tombstoned == Count(ops, w, Tombstoned) && counts.redacted == Count(ops, w, Redacted)
  {
    var added, edited, linked, tombstoned, redacted := 0, 0, 0, 0, 0;
    for i := 0 to |ops|
      invariant added == Count(ops[..i], w, Added) && edited == Count(ops[..i], w, Edited)
                && linked == Count(ops[..i], w, Linked)
      invariant tombstoned == Count(ops[..i], w, Tombstoned) && redacted == Count(ops[..i], w, Redacted)
    {
      assert ops[..i + 1][..i] == ops[..i] && ops[..i + 1][i] == ops[i];
      if Contains(w, ops[i].ms) {
        match ops[i].kind
        case Remember => added := added + 1;
        case Edit => edited := edited + 1;
        case Link(_) => linked := linked + 1;
        case Relate(_, _) => linked := linked + 1;
        case Forget => tombstoned := tombstoned + 1;
        case Redact => redacted := redacted + 1;
        case Reinforce =>
      }
    }
    assert ops[..|ops|] == ops;
    counts := Activity(added, edited, linked, tombstoned, redacted);
  }

  /** Adjacent windows add up, counter by counter. */
  lemma {:induction false} AdjacentWindowsAdd(ops: seq<Entry>, a: nat, b: nat, c: nat, k: Counter)
    requires a <= b <= c
    ensures Count(ops, Window(a, c), k) == Count(ops, Window(a, b), k) + Count(ops, Window(b, c), k)
  {
    if ops != [] { AdjacentWindowsAdd(ops[..|ops| - 1], a, b, c, k); }
  }

  /** What is counted: each op whose millisecond is at or after the start and before the end, in the
      counter of its kind. */
  lemma {:induction false} CountMeans(ops: seq<Entry>, since: nat, until: nat, c: Counter)
    ensures Count(ops, Window(since, until), c) ==
            |set i | 0 <= i < |ops| && since <= ops[i].ms < until
               && (ops[i].kind.Remember? <==> c == Added)
               && (ops[i].kind.Edit? <==> c == Edited)
               && ((ops[i].kind.Link? || ops[i].kind.Relate?) <==> c == Linked)
               && (ops[i].kind.Forget? <==> c == Tombstoned)
               && (ops[i].kind.Redact? <==> c == Redacted)|
  {
    assert HitsAmong(ops, Window(since, until), c) == set i | 0 <= i < |ops| && since <= ops[i].ms < until
               && (ops[i].kind.Remember? <==> c == Added)
               && (ops[i].kind.Edit? <==> c == Edited)
               && ((ops[i].kind.Link? || ops[i].kind.Relate?) <==> c == Linked)
               && (ops[i].kind.Forget? <==> c == Tombstoned)
               && (ops[i].kind.Redact? <==> c == Redacted);
    CountIsSize(ops, Window(since, until), c);
  }

  ghost function HitsAmong(ops: seq<Entry>, w: Window, c: Counter): set<nat> {
    set i | 0 <= i < |ops| && Hits(ops[i], w, c)
  }

  lemma HitsMore(ops: seq<Entry>, w: Window, c: Counter)
    requires ops != []
    ensures var n := |ops| - 1;
            HitsAmong(ops, w, c) == if Hits(ops[n], w, c) then HitsAmong(ops[..n], w, c) + {n as nat}
                                    else HitsAmong(ops[..n], w, c)
  {
  }

  lemma {:induction false} CountIsSize(ops: seq<Entry>, w: Window, c: Counter)
    ensures Count(ops, w, c) == |HitsAmong(ops, w, c)|
  {
    if ops != [] {
      var n := |ops| - 1;
      CountIsSize(ops[..n], w, c);
      HitsMore(ops, w, c);
      assert n !in HitsAmong(ops[..n], w, c);
    }
  }

  function OpsIn(ops: seq<Entry>, w: Window): nat {
    if ops == [] then 0 else OpsIn(ops[..|ops| - 1], w) + if Contains(w, ops[|ops| - 1].ms) then 1 else 0
  }

  /** Every op in the window is counted once, or is a reinforcement. */
  lemma {:induction false} EveryOpCountedOnce(ops: seq<Entry>, w: Window)
    ensures Count(ops, w, Added) + Count(ops, w, Edited) + Count(ops, w, Linked) + Count(ops, w, Tombstoned)
            + Count(ops, w, Redacted) + Count(ops, w, Usage) == OpsIn(ops, w)
  {
    if ops != [] { EveryOpCountedOnce(ops[..|ops| - 1], w); }
  }

  // ---------------------------------------------------------------- reuse

  datatype Record = Record(noteId: NoteId, summary: string, reinforcers: set<string>)

  datatype Reuse = Reuse(id: NoteId, summary: string, distinctReinforcers: nat)

  const MAX_REUSE_ENTRIES := 20

  function ReuseOf(r: Record): Reuse { Reuse(r.noteId, r.summary, |r.reinforcers|) }

  /** More reinforcers first, then the smaller id; ids sort as their text does. */
  predicate Ahead(a: Reuse, b: Reuse) {
    a.distinctReinforcers > b.distinctReinforcers || (a.distinctReinforcers == b.distinctReinforcers && a.id < b.id)
  }

  function Reused(records: seq<Record>): seq<Reuse> {
    if records == [] then []
    else Reused(records[..|records| - 1]) + if records[|records| - 1].reinforcers != {}
      then [ReuseOf(records[|records| - 1])] else []
  }

  function Ranked(records: seq<Record>): seq<Reuse> { Sort(Reused(records), Ahead) }

  /** `rank_reuse`. */
  method RankReuse(records: seq<Record>) returns (top: seq<Reuse>, total: nat)
    ensures total == |Ranked(records)|
    ensures top == if total <= 20 then Ranked(records) else Ranked(records)[..20]
  {
    var reused: seq<Reuse> := [];
    for i := 0 to |records|
      invariant reused == Reused(records[..i])
    {
      assert records[..i + 1][..i] == records[..i];
      if records[i].reinforcers != {} { reused := reused + [ReuseOf(records[i])]; }
    }
    assert records[..|records|] == records;
    top := Sort(reused, Ahead);
    total := |top|;
    if |top| > MAX_REUSE_ENTRIES { top := top[..MAX_REUSE_ENTRIES]; }
  }

  ghost predicate UniqueIds(records: seq<Record>) {
    forall i, j :: 0 <= i < j < |records| ==> records[i].noteId != records[j].noteId
  }

  lemma {:induction false} ReusedElements(records: seq<Record>, x: Reuse)
    ensures x in Reused(records) <==> exists r :: r in records && r.reinforcers != {} && ReuseOf(r) == x
  {
    if records != [] {
      var n := |records| - 1;
      ReusedElements(records[..n], x);
      assert records == records[..n] + [records[n]];
      if exists r :: r in records && r.reinforcers != {} && ReuseOf(r) == x {
        var r :| r in records && r.reinforcers != {} && ReuseOf(r) == x;
        if r != records[n] { assert r in records[..n]; }
      }
      if x in Reused(records[..n]) {
        var r :| r in records[..n] && r.reinforcers != {} && ReuseOf(r) == x;
        assert r in records;
      }
      if records[n].reinforcers != {} && ReuseOf(records[n]) == x { assert records[n] in records; }
    }
  }

  ghost function Elements(s: seq<Reuse>): set<Reuse> { set x | x in s }

  /** With one record per id the ranking order is total on the reused notes. */
  lemma RankIsTotal(records: seq<Record>)
    requires UniqueIds(records)
    ensures Orders(Ahead, Elements(Reused(records)))
    ensures Distinct(Reused(records))
  {
    var e := Elements(Reused(records));
    forall x, y | x in e && y in e && x.id == y.id ensures x == y {
      ReusedElements(records, x);
      ReusedElements(records, y);
      var r :| r in records && ReuseOf(r) == x;
      var s :| s in records && ReuseOf(s) == y;
      assert ReuseOf(r).id == r.noteId && ReuseOf(s).id == s.noteId;
      SameRecord(records, r, s);
    }
    ReusedDistinct(records);
  }

  lemma SameRecord(records: seq<Record>, r: Record, s: Record)
    requires UniqueIds(records) && r in records && s in records && r.noteId == s.noteId
    ensures r == s
  {
    var i :| 0 <= i < |records| && records[i] == r;
    var j :| 0 <= j < |records| && records[j] == s;
  }

  lemma {:induction false} ReusedDistinct(records: seq<Record>)
    requires UniqueIds(records)
    ensures Distinct(Reused(records))
  {
    if records != [] {
      var n := |records| - 1;
      var before := Reused(records[..n]);
      ReusedDistinct(records[..n]);
      forall x | x in before ensures x != ReuseOf(records[n]) {
        ReusedElements(records[..n], x);
        var r :| r in records[..n] && ReuseOf(r) == x;
        var i :| 0 <= i < n && records[i] == r;
      }
      assert forall i :: 0 <= i < |before| ==> before[i] in before;
    }
  }

  /** Two readings of one set of notes rank them the same. */
  lemma RankingIsDetermined(a: seq<Record>, b: seq<Record>)
    requires UniqueIds(a) && UniqueIds(b) && forall r :: r in a <==> r in b
    ensures Ranked(a) == Ranked(b)
  {
    RankIsTotal(a);
    ReusedDistinct(b);
    forall x ensures x in Reused(a) <==> x in Reused(b) {
      ReusedElements(a, x);
      ReusedElements(b, x);
    }
    SortIsDetermined(Reused(a), Reused(b), Ahead, Elements(Reused(a)));
  }

  /** The list is the top of the ranking: all reinforced notes, in order, the kept ones ahead of
      every omitted one, and the total counts them before the cap. */
  lemma OmittedRankBelow(records: seq<Record>, i: nat, j: nat)
    requires UniqueIds(records) && i < MAX_REUSE_ENTRIES <= j < |Ranked(records)|
    ensures Ahead(Ranked(records)[i], Ranked(records)[j])
  {
    RankIsTotal(records);
    SortSorts(Reused(records), Ahead, Elements(Reused(records)));
  }

  /** The list itself: every entry has more reinforcers than the next, or as many and a smaller id. */
  lemma RankedByReinforcers(records: seq<Record>, i: nat, j: nat)
    requires forall a, b :: 0 <= a < b < |records| ==> records[a].noteId != records[b].noteId
    requires i < j < |Ranked(records)|
    ensures var x, y := Ranked(records)[i], Ranked(records)[j];
            || x.distinctReinforcers > y.distinctReinforcers
            || (x.distinctReinforcers == y.distinctReinforcers && x.id < y.id)
  {
    RankIsTotal(records);
    SortSorts(Reused(records), Ahead, Elements(Reused(records)));
    assert Ahead(Ranked(records)[i], Ranked(records)[j]);
  }

  /** What is on it: the reinforced notes, each with its id, summary and number of distinct reinforcers. */
  lemma RankedAreReinforced(records: seq<Record>, x: Reuse)
    ensures x in Ranked(records) <==>
            exists r :: r in records && |r.reinforcers| > 0 && x == Reuse(r.noteId, r.summary, |r.reinforcers|)
  {
    TotalIsBeforeCap(records);
    if r :| r in records && |r.reinforcers| > 0 && x == Reuse(r.noteId, r.summary, |r.reinforcers|) {
      assert r.reinforcers != {} && ReuseOf(r) == x;
    }
    if r :| r in records && r.reinforcers != {} && ReuseOf(r) == x {
      assert |r.reinforcers| > 0 by { var who :| who in r.reinforcers; }
    }
  }

  lemma {:induction false} TotalIsBeforeCap(records: seq<Record>)
    ensures |Ranked(records)| == |ReinforcedIndices(records)|
    ensures forall x :: x in Ranked(records) <==> exists r :: r in records && r.reinforcers != {} && ReuseOf(r) == x
  {
    SortElements(Reused(records), Ahead);
    ReusedSize(records);
    forall x
      ensures x in Ranked(records) <==> exists r :: r in records && r.reinforcers != {} && ReuseOf(r) == x
    {
      ReusedElements(records, x);
    }
  }

  ghost function ReinforcedIndices(records: seq<Record>): set<nat> {
    set i | 0 <= i < |records| && records[i].reinforcers != {}
  }

  lemma {:induction false} ReusedSize(records: seq<Record>)
    ensures |Reused(records)| == |ReinforcedIndices(records)|
  {
    if records != [] {
      var n := |records| - 1;
      ReusedSize(records[..n]);
      var before := ReinforcedIndices(records[..n]);
      assert ReinforcedIndices(records) == if records[n].reinforcers != {} then before + {n} else before;
    }
  }
}
