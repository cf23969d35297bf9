/** Signed head pointers and this machine's memory of the highest one verified per
    author (`oplog/head.rs`, `oplog/watermark.rs`). */
module Watermarks {
  import opened Options
  import opened OpLog

  /** A verified head: the author signed that `tip`, at `lamport`, is their newest op. */
  datatype Head = Head(author: AuthorKey, lamport: nat, tip: Digest)

  type Marks = map<AuthorKey, Head>

  datatype HeadRegression = HeadRegression(remembered: Head, served: Option<Head>)

  /** The one direction a mark may move, and the negation of the regression condition. */
  predicate AtOrAbove(head: Head, remembered: Head) {
    head.lamport > remembered.lamport || (head.lamport == remembered.lamport && head.tip == remembered.tip)
  }

  function AdvanceTo(marks: Marks, head: Head): Marks {
    if head.author in marks && !AtOrAbove(head, marks[head.author]) then marks
    else if head.author in marks && marks[head.author].lamport == head.lamport then marks
    else marks[head.author := head]
  }

  function AdvanceAll(marks: Marks, heads: seq<Head>): Marks {
    if heads == [] then marks
    else AdvanceTo(AdvanceAll(marks, heads[..|heads| - 1]), heads[|heads| - 1])
  }

  /** Each mark is filed under its own author. */
  ghost predicate WellKeyed(marks: Marks) {
    forall a :: a in marks ==> marks[a].author == a
  }

  /** The head served for `a`; of several, the last. */
  function Served(heads: seq<Head>, a: AuthorKey): Option<Head> {
    if heads == [] then None
    else if heads[|heads| - 1].author == a then Some(heads[|heads| - 1])
    else Served(heads[..|heads| - 1], a)
  }

  /** The evidence condition: nothing is served for a remembered author, or something lower. */
  predicate Regressed(remembered: Head, served: Option<Head>) {
    served == None || !AtOrAbove(served.value, remembered)
  }

  ghost predicate OneHeadPerAuthor(heads: seq<Head>) {
    forall i, j :: 0 <= i < j < |heads| ==> heads[i].author != heads[j].author
  }

  /** A mark either stays or moves strictly up. */
  ghost predicate Rises(old_: Marks, next: Marks) {
    forall a :: a in old_ ==> a in next && (next[a] == old_[a] || next[a].lamport > old_[a].lamport)
  }

  lemma {:induction false} NeverLowered(marks: Marks, heads: seq<Head>)
    requires WellKeyed(marks)
    ensures WellKeyed(AdvanceAll(marks, heads))
    ensures Rises(marks, AdvanceAll(marks, heads))
    ensures forall h :: h in heads ==>
            h.author in AdvanceAll(marks, heads) && h.lamport <= AdvanceAll(marks, heads)[h.author].lamport
  {
    if heads != [] {
      var n := |heads| - 1;
      NeverLowered(marks, heads[..n]);
      assert heads == heads[..n] + [heads[n]];
    }
  }

  lemma {:induction false} ServedIsListed(heads: seq<Head>, a: AuthorKey)
    ensures Served(heads, a) == None ==> forall h :: h in heads ==> h.author != a
    ensures Served(heads, a) != None ==> Served(heads, a).value in heads && Served(heads, a).value.author == a
    ensures OneHeadPerAuthor(heads) ==> forall h :: h in heads && h.author == a ==> Served(heads, a) == Some(h)
  {
    if heads != [] {
      var n := |heads| - 1;
      ServedIsListed(heads[..n], a);
      assert heads == heads[..n] + [heads[n]];
    }
  }

  /** What a read leaves in a mark: the served head where it is at or above, else what was there. */
  lemma {:induction false} MarkAfter(marks: Marks, heads: seq<Head>, a: AuthorKey)
    requires WellKeyed(marks) && OneHeadPerAuthor(heads)
    ensures a in AdvanceAll(marks, heads) <==> a in marks || Served(heads, a) != None
    ensures a in AdvanceAll(marks, heads) ==>
              AdvanceAll(marks, heads)[a] ==
                if a in marks && Regressed(marks[a], Served(heads, a)) then marks[a] else Served(heads, a).value
  {
    if heads != [] {
      var n := |heads| - 1;
      MarkAfter(marks, heads[..n], a);
      ServedIsListed(heads[..n], a);
      NeverLowered(marks, heads[..n]);
      assert heads == heads[..n] + [heads[n]];
    }
  }

  /** A hostile read is not believed the second time: serving the same heads again reports
      exactly the same authors, whatever the first read recorded. */
  lemma RepeatedReadReportsTheSame(marks: Marks, heads: seq<Head>, a: AuthorKey)
    requires WellKeyed(marks) && OneHeadPerAuthor(heads)
    requires a in AdvanceAll(marks, heads)
    ensures Regressed(AdvanceAll(marks, heads)[a], Served(heads, a)) <==>
            a in marks && Regressed(marks[a], Served(heads, a))
  {
    MarkAfter(marks, heads, a);
  }

  ghost predicate Ascending(authors: seq<AuthorKey>) {
    forall i, j :: 0 <= i < j < |authors| ==> authors[i] < authors[j]
  }

  method Smallest(authors: set<AuthorKey>) returns (least: AuthorKey)
    requires authors != {}
    ensures least in authors && forall a :: a in authors ==> least <= a
  {
    least :| least in authors;
    var rest := authors - {least};
    while rest != {}
      invariant least in authors && rest <= authors
      invariant forall a :: a in authors && a !in rest ==> least <= a
      decreases rest
    {
      var a :| a in rest;
      if a < least { least := a; }
      rest := rest - {a};
    }
  }

  /** Key order, as the marks map iterates. */
  method SortedAuthors(marks: Marks) returns (authors: seq<AuthorKey>)
    ensures Ascending(authors)
    ensures forall a :: a in authors <==> a in marks
  {
    authors := [];
    var rest := marks.Keys;
    while rest != {}
      invariant Ascending(authors)
      invariant rest <= marks.Keys
      invariant forall a :: a in authors <==> a in marks && a !in rest
      invariant forall a, b :: a in authors && b in rest ==> a < b
      decreases rest
    {
      var least := Smallest(rest);
      assert forall i :: 0 <= i < |authors| ==> authors[i] in authors;
      authors := authors + [least];
      rest := rest - {least};
    }
  }

  /** The reported authors, ascending, one line each. */
  ghost predicate Reports(marks: Marks, heads: seq<Head>, regressions: seq<HeadRegression>) {
    && (forall r :: r in regressions ==> ReportOf(marks, heads, r))
    && (forall a :: a in marks && Regressed(marks[a], Served(heads, a)) ==>
       HeadRegression(marks[a], Served(heads, a)) in regressions)
    && AscendingReports(regressions)
  }

  ghost predicate AscendingReports(regressions: seq<HeadRegression>) {
    forall i, j :: 0 <= i < j < |regressions| ==> regressions[i].remembered.author < regressions[j].remembered.author
  }

  ghost predicate ReportOf(marks: Marks, heads: seq<Head>, r: HeadRegression) {
    exists a :: a in marks && Regressed(marks[a], Served(heads, a)) && r == HeadRegression(marks[a], Served(heads, a))
  }

  method LastServed(heads: seq<Head>) returns (served: Marks)
    ensures forall a :: Served(heads, a) == if a in served then Some(served[a]) else None
  {
    served := map[];
    for i := 0 to |heads|
      invariant forall a :: Served(heads[..i], a) == if a in served then Some(served[a]) else None
    {
      assert heads[..i + 1][..i] == heads[..i] && heads[..i + 1][i] == heads[i];
      served := served[heads[i].author := heads[i]];
    }
    assert heads[..|heads|] == heads;
  }

  /** The evidence for `a`, if there is any. */
  function Evidence(marks: Marks, heads: seq<Head>, a: AuthorKey): seq<HeadRegression>
    requires a in marks
  {
    if Regressed(marks[a], Served(heads, a)) then [HeadRegression(marks[a], Served(heads, a))] else []
  }

  /** The evidence for the authors in turn. */
  function Collected(marks: Marks, heads: seq<Head>, authors: seq<AuthorKey>): seq<HeadRegression>
    requires forall a :: a in authors ==> a in marks
  {
    if authors == [] then []
    else Collected(marks, heads, authors[..|authors| - 1]) + Evidence(marks, heads, authors[|authors| - 1])
  }

  lemma {:induction false} CollectedSound(marks: Marks, heads: seq<Head>, authors: seq<AuthorKey>, r: HeadRegression)
    requires WellKeyed(marks) && forall a :: a in authors ==> a in marks
    requires r in Collected(marks, heads, authors)
    ensures ReportOf(marks, heads, r) && r.remembered.author in authors
  {
    var n := |authors| - 1;
    if r in Collected(marks, heads, authors[..n]) {
      CollectedSound(marks, heads, authors[..n], r);
    } else {
      assert r in Evidence(marks, heads, authors[n]);
    }
  }

  lemma {:induction false} CollectedComplete(marks: Marks, heads: seq<Head>, authors: seq<AuthorKey>, a: AuthorKey)
    requires forall a :: a in authors ==> a in marks
    requires a in authors && Regressed(marks[a], Served(heads, a))
    ensures HeadRegression(marks[a], Served(heads, a)) in Collected(marks, heads, authors)
  {
    var n := |authors| - 1;
    if a in authors[..n] { CollectedComplete(marks, heads, authors[..n], a); }
  }

  lemma {:induction false} CollectedAscends(marks: Marks, heads: seq<Head>, authors: seq<AuthorKey>)
    requires WellKeyed(marks) && Ascending(authors)
    requires forall a :: a in authors ==> a in marks
    ensures AscendingReports(Collected(marks, heads, authors))
  {
    if authors != [] {
      var n := |authors| - 1;
      CollectedAscends(marks, heads, authors[..n]);
      var before := Collected(marks, heads, authors[..n]);
      forall k | 0 <= k < |before| ensures before[k].remembered.author < authors[n] {
        CollectedSound(marks, heads, authors[..n], before[k]);
      }
    }
  }

  lemma CollectedReports(marks: Marks, heads: seq<Head>, authors: seq<AuthorKey>)
    requires WellKeyed(marks) && Ascending(authors)
    requires forall a :: a in authors <==> a in marks
    ensures Reports(marks, heads, Collected(marks, heads, authors))
  {
    forall r | r in Collected(marks, heads, authors) ensures ReportOf(marks, heads, r) {
      CollectedSound(marks, heads, authors, r);
    }
    forall a | a in marks && Regressed(marks[a], Served(heads, a))
      ensures HeadRegression(marks[a], Served(heads, a)) in Collected(marks, heads, authors)
    {
      CollectedComplete(marks, heads, authors, a);
    }
    CollectedAscends(marks, heads, authors);
  }

  method Compare(marks: Marks, heads: seq<Head>) returns (regressions: seq<HeadRegression>)
    requires WellKeyed(marks)
    ensures Reports(marks, heads, regressions)
  {
    var served := LastServed(heads);
    var authors := SortedAuthors(marks);
    regressions := [];
    for i := 0 to |authors|
      invariant regressions == Collected(marks, heads, authors[..i])
    {
      assert authors[..i + 1][..i] == authors[..i] && authors[..i + 1][i] == authors[i] && authors[i] in authors;
      var remembered := marks[authors[i]];
      var head := if authors[i] in served then Some(served[authors[i]]) else None;
      if Regressed(remembered, head) { regressions := regressions + [HeadRegression(remembered, head)]; }
    }
    assert authors[..|authors|] == authors;
    CollectedReports(marks, heads, authors);
  }

  /** The marks file's in-memory side. */
  class HeadWatermarks {
    var marks: Marks

    ghost predicate Valid() reads this { WellKeyed(marks) }

    constructor ()
      ensures Valid() && marks == map[]
    {
      marks := map[];
    }

    /** Compare first, then advance. */
    method Observe(heads: seq<Head>) returns (regressions: seq<HeadRegression>)
      requires Valid()
      modifies this
      ensures Valid()
      ensures Reports(old(marks), heads, regressions)
      ensures marks == AdvanceAll(old(marks), heads)
      ensures Rises(old(marks), marks)
    {
      regressions := Compare(marks, heads);
      for i := 0 to |heads|
        invariant marks == AdvanceAll(old(marks), heads[..i])
      {
        assert heads[..i + 1][..i] == heads[..i] && heads[..i + 1][i] == heads[i];
        marks := AdvanceTo(marks, heads[i]);
      }
      assert heads[..|heads|] == heads;
      NeverLowered(old(marks), heads);
    }

    /** Only after the head's publication succeeded. */
    method RecordPublishedHead(head: Head)
      requires Valid()
      modifies this
      ensures Valid()
      ensures marks == AdvanceTo(old(marks), head)
      ensures Rises(old(marks), marks)
    {
      marks := AdvanceTo(marks, head);
    }
  }

  /** The higher of two marks, the file's on a tie. */
  function Higher(onDisk: Option<Head>, mine: Option<Head>): Option<Head> {
    if mine.Some? && (onDisk.None? || onDisk.value.lamport < mine.value.lamport) then mine else onDisk
  }

  function MarkOf(marks: Marks, a: AuthorKey): Option<Head> {
    if a in marks then Some(marks[a]) else None
  }

  /** What `write_marks` puts back: both maps, the higher mark of each author. */
  function Merged(onDisk: Marks, mine: Marks): (merged: Marks)
    ensures forall a :: MarkOf(merged, a) == Higher(MarkOf(onDisk, a), MarkOf(mine, a))
    ensures Rises(onDisk, merged)
  {
    map a | a in onDisk.Keys + mine.Keys :: Higher(MarkOf(onDisk, a), MarkOf(mine, a)).value
  }

  lemma MarksEqual(m: Marks, n: Marks)
    requires forall a :: MarkOf(m, a) == MarkOf(n, a)
    ensures m == n
  {
    forall a ensures a in m <==> a in n { assert MarkOf(m, a) == MarkOf(n, a); }
    forall a | a in m ensures m[a] == n[a] { assert MarkOf(m, a) == MarkOf(n, a); }
  }

  /** The fold of `write_marks`. */
  method WriteMarks(onDisk: Marks, mine: Marks) returns (merged: Marks)
    ensures merged == Merged(onDisk, mine)
  {
    merged := onDisk;
    var rest := mine.Keys;
    while rest != {}
      invariant rest <= mine.Keys
      invariant forall a :: MarkOf(merged, a) == if a in rest then MarkOf(onDisk, a)
                else Higher(MarkOf(onDisk, a), MarkOf(mine, a))
      decreases rest
    {
      var a :| a in rest;
      assert MarkOf(merged, a) == MarkOf(onDisk, a);
      if a !in merged || merged[a].lamport < mine[a].lamport { merged := merged[a := mine[a]]; }
      rest := rest - {a};
    }
    MarksEqual(merged, Merged(onDisk, mine));
  }

  // ---------------------------------------------------------------- on the fields of the heads

  /** What is reported of a remembered head: nothing served, a lower lamport, or another tip at the same. */
  lemma RegressedMeans(remembered: Head, served: Option<Head>)
    ensures Regressed(remembered, served) <==>
            || served == None
            || served.value.lamport < remembered.lamport
            || (served.value.lamport == remembered.lamport && served.value.tip != remembered.tip)
  {
  }

  /** Which authors a comparison reports, with what was remembered and the last head served. */
  lemma ReportsMean(marks: Marks, heads: seq<Head>, regressions: seq<HeadRegression>, r: HeadRegression)
    requires Reports(marks, heads, regressions)
    ensures r in regressions <==>
            exists a :: a in marks && r.remembered == marks[a] && LastHead(heads, a, r.served)
                        && (|| r.served == None
                            || r.served.value.lamport < marks[a].lamport
                            || (r.served.value.lamport == marks[a].lamport && r.served.value.tip != marks[a].tip))
  {
    forall a ensures LastHead(heads, a, Served(heads, a)) { ServedIsLast(heads, a); }
    forall a, h | LastHead(heads, a, h) ensures h == Served(heads, a) { LastHeadIsOne(heads, a, h, Served(heads, a)); }
  }

  /** `h` is the last of `heads` by author `a`. */
  ghost predicate LastHead(heads: seq<Head>, a: AuthorKey, h: Option<Head>) {
    match h
    case None => forall i :: 0 <= i < |heads| ==> heads[i].author != a
    case Some(x) =>
      exists i: nat :: i < |heads| && heads[i] == x && x.author == a
                       && forall j :: i < j < |heads| ==> heads[j].author != a
  }

  lemma {:induction false} ServedIsLast(heads: seq<Head>, a: AuthorKey)
    ensures LastHead(heads, a, Served(heads, a))
  {
    if heads != [] {
      var n := |heads| - 1;
      ServedIsLast(heads[..n], a);
      if heads[n].author != a && Served(heads[..n], a).Some? {
        var i: nat :| i < n && heads[..n][i] == Served(heads[..n], a).value && heads[..n][i].author == a
          && forall j :: i < j < n ==> heads[..n][j].author != a;
        assert forall j :: i < j < n ==> heads[j].author == heads[..n][j].author;
        assert heads[i] == Served(heads, a).value;
      } else if heads[n].author == a {
        assert heads[n] == Served(heads, a).value;
      } else {
        assert forall j :: 0 <= j < n ==> heads[j] == heads[..n][j];
      }
    }
  }

  lemma LastHeadIsOne(heads: seq<Head>, a: AuthorKey, g: Option<Head>, h: Option<Head>)
    requires LastHead(heads, a, g) && LastHead(heads, a, h)
    ensures g == h
  {
    if g.Some? && h.Some? {
      var i: nat :| i < |heads| && heads[i] == g.value && g.value.author == a
        && forall j :: i < j < |heads| ==> heads[j].author != a;
      var k: nat :| k < |heads| && heads[k] == h.value && h.value.author == a
        && forall j :: k < j < |heads| ==> heads[j].author != a;
    }
  }

  /** A read moves a mark exactly to a head of a higher lamport, and files a first head. */
  lemma MarkMoves(marks: Marks, head: Head)
    requires WellKeyed(marks)
    ensures AdvanceTo(marks, head) ==
            if head.author !in marks || head.lamport > marks[head.author].lamport then marks[head.author := head]
            else marks
  {
  }

  /** What a write of the file keeps for each author: the mark of the higher lamport, the file's on a tie. */
  lemma MergedMark(onDisk: Marks, mine: Marks, a: AuthorKey)
    ensures a in Merged(onDisk, mine) <==> a in onDisk || a in mine
    ensures a in Merged(onDisk, mine) ==>
              Merged(onDisk, mine)[a] ==
                if a !in onDisk then mine[a]
                else if a in mine && onDisk[a].lamport < mine[a].lamport then mine[a]
                else onDisk[a]
  {
    assert MarkOf(Merged(onDisk, mine), a) == Higher(MarkOf(onDisk, a), MarkOf(mine, a));
  }
}
