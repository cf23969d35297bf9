/** The session brief: tiers, newest first, greedily within a token budget (`brief.rs`). The header's
    wording is a parameter. */
module Brief {
  import opened Sorting

  datatype NoteType = Convention | Decision | Gotcha | Reference | Context

  datatype Record = Record(noteId: nat, updated: nat, noteType: NoteType, repo: string, summary: string)

  datatype Tier = Rules | Gotchas | Rest

  function TierOf(t: NoteType): Tier {
    match t
    case Convention => Rules
    case Decision => Rules
    case Gotcha => Gotchas
    case Reference => Rest
    case Context => Rest
  }

  function TypeName(t: NoteType): string {
    match t
    case Convention => "convention"
    case Decision => "decision"
    case Gotcha => "gotcha"
    case Reference => "reference"
    case Context => "context"
  }

  /** `estimate_tokens`: four characters to a token, rounded up. */
  function Tokens(text: string): nat { (|text| + 3) / 4 }

  /** Newest first, then by id. */
  predicate Newer(a: Record, b: Record) {
    a.updated > b.updated || (a.updated == b.updated && a.noteId < b.noteId)
  }

  function InTier(records: seq<Record>, tier: Tier): seq<Record> {
    if records == [] then []
    else
      var last := records[|records| - 1];
      InTier(records[..|records| - 1], tier) + if TierOf(last.noteType) == tier then [last] else []
  }

  function Ordered(records: seq<Record>, tier: Tier): seq<Record> { Sort(InTier(records, tier), Newer) }

  function Title(tier: Tier): string {
    match tier
    case Rules => "\n## Conventions & decisions\n"
    case Gotchas => "\n## Gotchas\n"
    case Rest => "\n## More\n"
  }

  function Line(r: Record, compact: bool): string {
    if compact then "- " + r.summary + "\n" else "- [" + TypeName(r.noteType) + "] (" + r.repo + ") " + r.summary + "\n"
  }

  /** The text so far and the tokens charged for it. */
  datatype Page = Page(out: string, used: nat)

  function Charge(p: Page, text: string): Page { Page(p.out + text, p.used + Tokens(text)) }

  predicate Fits(p: Page, text: string, budget: nat) { p.used + Tokens(text) <= budget }

  function LinesOf(items: seq<Record>, compact: bool): seq<string> {
    seq(|items|, i requires 0 <= i < |items| => Line(items[i], compact))
  }

  /** Lines while they fit; the first that does not ends the section. */
  function PushLines(p: Page, budget: nat, lines: seq<string>): Page
    decreases |lines|
  {
    if lines == [] || !Fits(p, lines[0], budget) then p else PushLines(Charge(p, lines[0]), budget, lines[1..])
  }

  /** `push_section`. */
  function PushSection(p: Page, budget: nat, tier: Tier, items: seq<Record>): Page {
    if items == [] || !Fits(p, Title(tier), budget) then p
    else PushLines(Charge(p, Title(tier)), budget, LinesOf(items, tier == Rest))
  }

  function RulesPage(header: string, records: seq<Record>, budget: nat): Page {
    PushSection(Charge(Page("", 0), header), budget, Rules, Ordered(records, Rules))
  }

  function FinalPage(header: string, records: seq<Record>, budget: nat): Page {
    PushSection(PushSection(RulesPage(header, records, budget), budget, Gotchas, Ordered(records, Gotchas)), budget,
      Rest, Ordered(records, Rest))
  }

  function Brief(header: string, records: seq<Record>, budget: nat): string {
    if records == [] || Tokens(header) > budget then "" else FinalPage(header, records, budget).out
  }

  // ---------------------------------------------------------------- the code

  lemma PushOne(p: Page, budget: nat, lines: seq<string>, i: nat)
    requires i < |lines|
    ensures PushLines(p, budget, lines[i..]) == if Fits(p, lines[i], budget)
            then PushLines(Charge(p, lines[i]), budget, lines[i + 1..]) else p
  {
    assert lines[i..][0] == lines[i] && lines[i..][1..] == lines[i + 1..];
  }

  /** The loop of `push_section`, up to the line that does not fit. */
  method PushLinesLoop(p: Page, budget: nat, lines: seq<string>) returns (q: Page)
    ensures q == PushLines(p, budget, lines)
  {
    var used: nat, out: string := p.used, p.out;
    assert lines[0..] == lines;
    for i := 0 to |lines|
      invariant PushLines(p, budget, lines) == PushLines(Page(out, used), budget, lines[i..])
    {
      PushOne(Page(out, used), budget, lines, i);
      var cost: nat := Tokens(lines[i]);
      if used + cost > budget { return Page(out, used); }
      used := used + cost;
      out := out + lines[i];
    }
    q := Page(out, used);
  }

  method PushSectionLoop(p: Page, budget: nat, tier: Tier, items: seq<Record>) returns (q: Page)
    ensures q == PushSection(p, budget, tier, items)
  {
    if items == [] { return p; }
    var title := Title(tier);
    if p.used + Tokens(title) > budget { return p; }
    q := PushLinesLoop(Page(p.out + title, p.used + Tokens(title)), budget, LinesOf(items, tier == Rest));
  }

  /** `render_brief`. */
  method RenderBrief(header: string, records: seq<Record>, budget: nat) returns (text: string)
    ensures text == Brief(header, records, budget)
  {
    if records == [] { return ""; }
    var rules, gotchas, rest: seq<Record> := [], [], [];
    for i := 0 to |records|
      invariant rules == InTier(records[..i], Rules) && gotchas == InTier(records[..i], Gotchas)
                && rest == InTier(records[..i], Rest)
    {
      assert records[..i + 1][..i] == records[..i] && records[..i + 1][i] == records[i];
      match records[i].noteType
      case Convention => rules := rules + [records[i]];
      case Decision => rules := rules + [records[i]];
      case Gotcha => gotchas := gotchas + [records[i]];
      case Reference => rest := rest + [records[i]];
      case Context => rest := rest + [records[i]];
    }
    assert records[..|records|] == records;
    rules, gotchas, rest := Sort(rules, Newer), Sort(gotchas, Newer), Sort(rest, Newer);
    if Tokens(header) > budget { return ""; }
    var page := Charge(Page("", 0), header);
    page := PushSectionLoop(page, budget, Rules, rules);
    page := PushSectionLoop(page, budget, Gotchas, gotchas);
    page := PushSectionLoop(page, budget, Rest, rest);
    text := page.out;
  }

  // ---------------------------------------------------------------- the budget

  /** The charge covers the text, and the budget covers the charge. */
  ghost predicate Accounted(p: Page, budget: nat) { Tokens(p.out) <= p.used <= budget }

  lemma ChargeCovers(p: Page, text: string, budget: nat)
    requires Accounted(p, budget) && Fits(p, text, budget)
    ensures Accounted(Charge(p, text), budget)
  {
  }

  lemma {:induction false} LinesAccounted(p: Page, budget: nat, lines: seq<string>)
    requires Accounted(p, budget)
    ensures Accounted(PushLines(p, budget, lines), budget)
    decreases |lines|
  {
    if lines != [] && Fits(p, lines[0], budget) {
      ChargeCovers(p, lines[0], budget);
      LinesAccounted(Charge(p, lines[0]), budget, lines[1..]);
    }
  }

  lemma SectionAccounted(p: Page, budget: nat, tier: Tier, items: seq<Record>)
    requires Accounted(p, budget)
    ensures Accounted(PushSection(p, budget, tier, items), budget)
  {
    if items != [] && Fits(p, Title(tier), budget) {
      ChargeCovers(p, Title(tier), budget);
      LinesAccounted(Charge(p, Title(tier)), budget, LinesOf(items, tier == Rest));
    }
  }

  /** The whole text is within the budget, measured as one text. */
  lemma BriefFitsBudget(header: string, records: seq<Record>, budget: nat)
    ensures Tokens(Brief(header, records, budget)) <= budget
  {
    if records != [] && Tokens(header) <= budget {
      var start := Charge(Page("", 0), header);
      ChargeCovers(Page("", 0), header, budget);
      SectionAccounted(start, budget, Rules, Ordered(records, Rules));
      var rules := RulesPage(header, records, budget);
      SectionAccounted(rules, budget, Gotchas, Ordered(records, Gotchas));
      SectionAccounted(PushSection(rules, budget, Gotchas, Ordered(records, Gotchas)), budget, Rest,
        Ordered(records, Rest));
    }
  }

  // ---------------------------------------------------------------- what a section lists

  function Joined(lines: seq<string>): string {
    if lines == [] then "" else lines[0] + Joined(lines[1..])
  }

  function CostOf(lines: seq<string>): nat {
    if lines == [] then 0 else Tokens(lines[0]) + CostOf(lines[1..])
  }

  /** How many lines a section takes. */
  function Taken(used: nat, budget: nat, lines: seq<string>): (k: nat)
    ensures k <= |lines|
    decreases |lines|
  {
    if lines == [] || used + Tokens(lines[0]) > budget then 0
      else 1 + Taken(used + Tokens(lines[0]), budget, lines[1..])
  }

  /** A section lists a prefix of its tier's lines, in order, and stops only at the end or at a line
      that would not fit. */
  lemma {:induction false} SectionListsPrefix(p: Page, budget: nat, lines: seq<string>)
    ensures var k, q := Taken(p.used, budget, lines), PushLines(p, budget, lines);
            && q.out == p.out + Joined(lines[..k])
            && q.used == p.used + CostOf(lines[..k])
            && (k < |lines| ==> !Fits(q, lines[k], budget))
    decreases |lines|
  {
    if lines != [] && Fits(p, lines[0], budget) {
      var next, k := Charge(p, lines[0]), Taken(p.used, budget, lines);
      SectionListsPrefix(next, budget, lines[1..]);
      assert lines[..k][1..] == lines[1..][..k - 1] && lines[..k][0] == lines[0];
      assert p.out + lines[0] + Joined(lines[1..][..k - 1]) == p.out + Joined(lines[..k]);
    } else {
      assert p.out + "" == p.out;
    }
  }

  // ---------------------------------------------------------------- order

  ghost predicate UniqueIds(records: seq<Record>) {
    forall i, j :: 0 <= i < j < |records| ==> records[i].noteId != records[j].noteId
  }

  lemma {:induction false} InTierElements(records: seq<Record>, tier: Tier, r: Record)
    ensures r in InTier(records, tier) <==> r in records && TierOf(r.noteType) == tier
  {
    if records != [] {
      InTierElements(records[..|records| - 1], tier, r);
      assert records == records[..|records| - 1] + [records[|records| - 1]];
    }
  }

  lemma {:induction false} InTierDistinct(records: seq<Record>, tier: Tier)
    requires UniqueIds(records)
    ensures Distinct(InTier(records, tier))
  {
    if records != [] {
      var n := |records| - 1;
      InTierDistinct(records[..n], tier);
      var before := InTier(records[..n], tier);
      forall r | r in before ensures r != records[n] { InTierElements(records[..n], tier, r); }
      assert forall i :: 0 <= i < |before| ==> before[i] in before;
    }
  }

  ghost function Elements(s: seq<Record>): set<Record> { set r | r in s }

  lemma NewerIsTotal(records: seq<Record>)
    requires UniqueIds(records)
    ensures Orders(Newer, Elements(records))
  {
    forall a, b | a in records && b in records && a.noteId == b.noteId ensures a == b {
      var i :| 0 <= i < |records| && records[i] == a;
      var j :| 0 <= j < |records| && records[j] == b;
    }
  }

  /** A tier depends only on which of its notes are live. */
  lemma TierIsDetermined(a: seq<Record>, b: seq<Record>, tier: Tier)
    requires UniqueIds(a) && UniqueIds(b)
    requires forall r: Record :: TierOf(r.noteType) == tier ==> (r in a <==> r in b)
    ensures Ordered(a, tier) == Ordered(b, tier)
  {
    NewerIsTotal(a);
    InTierDistinct(a, tier);
    InTierDistinct(b, tier);
    forall r ensures r in InTier(a, tier) <==> r in InTier(b, tier) {
      InTierElements(a, tier, r);
      InTierElements(b, tier, r);
    }
    var x, y := InTier(a, tier), InTier(b, tier);
    forall i | 0 <= i < |x| ensures x[i] in Elements(a) { InTierElements(a, tier, x[i]); }
    forall i | 0 <= i < |y| ensures y[i] in Elements(a) { assert y[i] in y; InTierElements(b, tier, y[i]); }
    SortIsDetermined(x, y, Newer, Elements(a));
  }

  /** Two machines with the same live notes render the same brief, in whatever order they hold them. */
  lemma BriefIsDetermined(header: string, a: seq<Record>, b: seq<Record>, budget: nat)
    requires UniqueIds(a) && UniqueIds(b) && forall r :: r in a <==> r in b
    ensures Brief(header, a, budget) == Brief(header, b, budget)
  {
    TierIsDetermined(a, b, Rules);
    TierIsDetermined(a, b, Gotchas);
    TierIsDetermined(a, b, Rest);
    assert a == [] <==> b == [] by {
      if a != [] { assert a[0] in a; assert a[0] in b; }
      if b != [] { assert b[0] in b; assert b[0] in a; }
    }
  }

  lemma {:induction false} LinesExtend(p: Page, budget: nat, lines: seq<string>)
    ensures p.out <= PushLines(p, budget, lines).out
    decreases |lines|
  {
    if lines != [] && Fits(p, lines[0], budget) { LinesExtend(Charge(p, lines[0]), budget, lines[1..]); }
  }

  lemma SectionExtends(p: Page, budget: nat, tier: Tier, items: seq<Record>)
    ensures p.out <= PushSection(p, budget, tier, items).out
  {
    LinesExtend(Charge(p, Title(tier)), budget, LinesOf(items, tier == Rest));
  }

  /** Lower tiers never cost the rules anything: live sets with the same rules begin their briefs
      with the same header and rules section. */
  lemma RulesUnaffected(header: string, a: seq<Record>, b: seq<Record>, budget: nat)
    requires UniqueIds(a) && UniqueIds(b) && Ordered(a, Rules) != []
    requires forall r: Record :: TierOf(r.noteType) == Rules ==> (r in a <==> r in b)
    requires Tokens(header) <= budget
    ensures RulesPage(header, a, budget) == RulesPage(header, b, budget)
    ensures RulesPage(header, a, budget).out <= Brief(header, a, budget)
            && RulesPage(header, a, budget).out <= Brief(header, b, budget)
  {
    TierIsDetermined(a, b, Rules);
    BeginsWithRules(header, a, budget);
    BeginsWithRules(header, b, budget);
  }

  lemma BeginsWithRules(header: string, a: seq<Record>, budget: nat)
    requires Ordered(a, Rules) != [] && Tokens(header) <= budget
    ensures RulesPage(header, a, budget).out <= Brief(header, a, budget)
  {
    SortElements(InTier(a, Rules), Newer);
    assert a != [];
    var rules := RulesPage(header, a, budget);
    SectionExtends(rules, budget, Gotchas, Ordered(a, Gotchas));
    SectionExtends(PushSection(rules, budget, Gotchas, Ordered(a, Gotchas)), budget, Rest, Ordered(a, Rest));
  }

  // ---------------------------------------------------------------- when the rules are kept

  /** How many lines of a section are listed. */
  function Listed(p: Page, budget: nat, tier: Tier, items: seq<Record>): nat {
    if items == [] || !Fits(p, Title(tier), budget) then 0
    else Taken(p.used + Tokens(Title(tier)), budget, LinesOf(items, tier == Rest))
  }

  lemma {:induction false} AllTakenIff(used: nat, budget: nat, lines: seq<string>)
    requires used <= budget
    ensures Taken(used, budget, lines) == |lines| <==> used + CostOf(lines) <= budget
    decreases |lines|
  {
    if lines != [] && used + Tokens(lines[0]) <= budget { AllTakenIff(used + Tokens(lines[0]), budget, lines[1..]); }
  }

  /** A section's text and charge, from the number of lines it lists. */
  lemma SectionIs(p: Page, budget: nat, tier: Tier, items: seq<Record>)
    ensures var q, k, lines := PushSection(p, budget, tier, items), Listed(p, budget, tier, items),
            LinesOf(items, tier == Rest);
            && k <= |items|
            && (items == [] || !Fits(p, Title(tier), budget) ==> q == p)
            && (items != [] && Fits(p, Title(tier), budget) ==>
                  q.out == p.out + Title(tier) + Joined(lines[..k])
                    && q.used == p.used + Tokens(Title(tier)) + CostOf(lines[..k]))
  {
    if items != [] && Fits(p, Title(tier), budget) {
      SectionListsPrefix(Charge(p, Title(tier)), budget, LinesOf(items, tier == Rest));
    }
  }

  /** A section lists something exactly when its title and first line fit. */
  lemma SomeListedIff(p: Page, budget: nat, tier: Tier, items: seq<Record>)
    ensures Listed(p, budget, tier, items) > 0 <==>
            items != [] && p.used + Tokens(Title(tier)) + Tokens(Line(items[0], tier == Rest)) <= budget
  {
    if items != [] { assert LinesOf(items, tier == Rest)[0] == Line(items[0], tier == Rest); }
  }

  function RulesListed(header: string, records: seq<Record>, budget: nat): nat {
    Listed(Charge(Page("", 0), header), budget, Rules, Ordered(records, Rules))
  }

  function GotchasPage(header: string, records: seq<Record>, budget: nat): Page {
    PushSection(RulesPage(header, records, budget), budget, Gotchas, Ordered(records, Gotchas))
  }

  /** What the header and a rules section in full cost. */
  function RulesCost(header: string, records: seq<Record>): nat {
    Tokens(header) + Tokens(Title(Rules)) + CostOf(LinesOf(Ordered(records, Rules), false))
  }

  /** Every rule is listed exactly when header, title and all rule lines fit the budget. */
  lemma RulesKeptIff(header: string, records: seq<Record>, budget: nat)
    requires Tokens(header) <= budget && Ordered(records, Rules) != []
    ensures RulesListed(header, records, budget) == |Ordered(records, Rules)| <==> RulesCost(header, records) <= budget
  {
    var start, lines := Charge(Page("", 0), header), LinesOf(Ordered(records, Rules), false);
    if Fits(start, Title(Rules), budget) { AllTakenIff(start.used + Tokens(Title(Rules)), budget, lines); }
  }

  /** A text continued by nothing or by the title of a lower tier. */
  ghost predicate LowerAfter(text: string, whole: string) {
    text <= whole && (whole == text || text + Title(Gotchas) <= whole || text + Title(Rest) <= whole)
  }

  lemma LowerSection(p: Page, budget: nat, tier: Tier, items: seq<Record>)
    ensures var q := PushSection(p, budget, tier, items); q == p || p.out + Title(tier) <= q.out
  {
    SectionIs(p, budget, tier, items);
  }

  lemma AfterRules(header: string, records: seq<Record>, budget: nat)
    requires Ordered(records, Rules) != [] && Tokens(header) <= budget
    ensures LowerAfter(RulesPage(header, records, budget).out, Brief(header, records, budget))
  {
    BeginsWithRules(header, records, budget);
    SortElements(InTier(records, Rules), Newer);
    var rules, mid := RulesPage(header, records, budget), GotchasPage(header, records, budget);
    LowerSection(rules, budget, Gotchas, Ordered(records, Gotchas));
    LowerSection(mid, budget, Rest, Ordered(records, Rest));
    SectionExtends(mid, budget, Rest, Ordered(records, Rest));
  }

  lemma {:induction false} JoinedSplits(lines: seq<string>, k: nat)
    requires k < |lines|
    ensures Joined(lines) == Joined(lines[..k]) + lines[k] + Joined(lines[k + 1..])
  {
    if k == 0 {
      assert lines[1..] == lines[0 + 1..] && lines[..0] == [];
    } else {
      JoinedSplits(lines[1..], k - 1);
      assert lines[1..][..k - 1] == lines[..k][1..] && lines[1..][k..] == lines[k + 1..];
      Regroup(lines[0], Joined(lines[1..][..k - 1]), lines[k], Joined(lines[k + 1..]));
    }
  }

  lemma Regroup(a: string, b: string, c: string, d: string)
    ensures a + (b + c + d) == a + b + c + d
  {
  }

  /** A line is not mistaken for what follows the rules section. */
  lemma LineIsNoTitle(text: string, line: string, rest: string, whole: string)
    requires LowerAfter(text, whole) && line != [] && line[0] == '-'
    ensures !(text + line + rest <= whole)
  {
    assert Title(Gotchas)[0] == '\n' && Title(Rest)[0] == '\n';
    var n := |text|;
    assert (text + line + rest)[n] == '-';
    assert (text + Title(Gotchas))[n] == '\n' && (text + Title(Rest))[n] == '\n';
  }

  lemma RulesTitleIsNoLower(text: string, rest: string, whole: string)
    requires LowerAfter(text, whole)
    ensures !(text + Title(Rules) + rest <= whole)
  {
    var n := |text| + 4;
    assert (text + Title(Rules) + rest)[n] == Title(Rules)[4] == 'C';
    assert (text + Title(Gotchas))[n] == Title(Gotchas)[4] == 'G';
    assert (text + Title(Rest))[n] == Title(Rest)[4] == 'M';
  }

  /** How much of a rules section a text shows, from what follows it. */
  lemma ShownInFullIff(header: string, lines: seq<string>, k: nat, titled: bool, text: string, whole: string)
    requires k <= |lines| && forall i :: 0 <= i < |lines| ==> lines[i] != [] && lines[i][0] == '-'
    requires text == if titled then header + Title(Rules) + Joined(lines[..k]) else header
    requires LowerAfter(text, whole)
    ensures header + Title(Rules) + Joined(lines) <= whole <==> titled && k == |lines|
  {
    if !titled {
      RulesTitleIsNoLower(header, Joined(lines), whole);
    } else if k == |lines| {
      assert lines[..k] == lines;
    } else {
      JoinedSplits(lines, k);
      Regroup(header + Title(Rules), Joined(lines[..k]), lines[k], Joined(lines[k + 1..]));
      LineIsNoTitle(text, lines[k], Joined(lines[k + 1..]), whole);
    }
  }

  /** The promise of the documentation, with its exact condition: the brief begins with the header and
      every rule if and only if together they fit the budget. */
  lemma BriefKeepsRulesIff(header: string, records: seq<Record>, budget: nat)
    requires Tokens(header) <= budget && Ordered(records, Rules) != []
    ensures header + Title(Rules) + Joined(LinesOf(Ordered(records, Rules), false)) <= Brief(header, records, budget)
            <==> RulesCost(header, records) <= budget
  {
    var items := Ordered(records, Rules);
    var start, lines := Charge(Page("", 0), header), LinesOf(items, false);
    assert start.out == header;
    SectionIs(start, budget, Rules, items);
    RulesKeptIff(header, records, budget);
    AfterRules(header, records, budget);
    assert forall i :: 0 <= i < |lines| ==> lines[i] == Line(items[i], false) && lines[i][0] == '-';
    ShownInFullIff(header, lines, RulesListed(header, records, budget), Fits(start, Title(Rules), budget),
                   RulesPage(header, records, budget).out, Brief(header, records, budget));
  }

  /** Exactly when a lower-tier line is listed although a rule was dropped. */
  lemma LowerTierOutlivesRuleIff(header: string, records: seq<Record>, budget: nat)
    requires Tokens(header) <= budget && Ordered(records, Rules) != []
    ensures var p, q, g, r := RulesPage(header, records, budget), GotchasPage(header, records, budget),
            Ordered(records, Gotchas), Ordered(records, Rest);
            RulesListed(header, records, budget) < |Ordered(records, Rules)|
              && (Listed(p, budget, Gotchas, g) > 0 || Listed(q, budget, Rest, r) > 0)
            <==>
            && RulesCost(header, records) > budget
            && (|| (g != [] && p.used + Tokens(Title(Gotchas)) + Tokens(Line(g[0], false)) <= budget)
                || (r != [] && q.used + Tokens(Title(Rest)) + Tokens(Line(r[0], true)) <= budget))
  {
    RulesKeptIff(header, records, budget);
    SectionIs(Charge(Page("", 0), header), budget, Rules, Ordered(records, Rules));
    SomeListedIff(RulesPage(header, records, budget), budget, Gotchas, Ordered(records, Gotchas));
    SomeListedIff(GotchasPage(header, records, budget), budget, Rest, Ordered(records, Rest));
  }

  lemma OneOfEach(rule: Record, gotcha: Record)
    requires TierOf(rule.noteType) == Rules && TierOf(gotcha.noteType) == Gotchas
    ensures var records := [rule, gotcha];
            Ordered(records, Rules) == [rule] && Ordered(records, Gotchas) == [gotcha] && Ordered(records, Rest) == []
  {
    var records := [rule, gotcha];
    assert records[..1] == [rule] && [rule][..0] == [] && [gotcha][..0] == [];
    forall tier: Tier
      ensures InTier(records, tier) == (if tier == Rules then [rule] else [])
              + (if tier == Gotchas then [gotcha] else [])
    {
      assert InTier([], tier) == [];
      assert InTier([rule], tier) == InTier([], tier) + if tier == Rules then [rule] else [];
    }
    assert Sort([rule], Newer) == [rule] && Sort([gotcha], Newer) == [gotcha];
  }

  /** A section of one note: its line is listed or dropped by the budget alone. */
  lemma SectionOfOne(p: Page, budget: nat, tier: Tier, note: Record)
    requires Fits(p, Title(tier), budget)
    ensures var q, line := Charge(p, Title(tier)), Line(note, tier == Rest);
            PushSection(p, budget, tier, [note]) == if Fits(q, line, budget) then Charge(q, line) else q
  {
    var lines := LinesOf([note], tier == Rest);
    assert lines[0] == Line(note, tier == Rest) && lines[1..] == [] && lines[0..] == lines;
    PushOne(Charge(p, Title(tier)), budget, lines, 0);
  }

  /** Two live notes: a rule too long for what is left is dropped and the shorter gotcha listed. */
  lemma GotchaMayOutliveRule(header: string, rule: Record, gotcha: Record, budget: nat)
    requires TierOf(rule.noteType) == Rules && TierOf(gotcha.noteType) == Gotchas
    requires Tokens(header) + Tokens(Title(Rules)) + Tokens(Title(Gotchas)) + Tokens(Line(gotcha, false)) <= budget
    requires budget < Tokens(header) + Tokens(Title(Rules)) + Tokens(Line(rule, false))
    ensures Brief(header, [rule, gotcha], budget) == header + Title(Rules) + Title(Gotchas) + Line(gotcha, false)
  {
    OneOfEach(rule, gotcha);
    var start := Charge(Page("", 0), header);
    assert start.out == header;
    SectionOfOne(start, budget, Rules, rule);
    SectionOfOne(Charge(start, Title(Rules)), budget, Gotchas, gotcha);
  }

  /** Such a live set and budget exist under every header. */
  lemma RulesMayBeDropped(header: string) returns (rule: Record, gotcha: Record, budget: nat)
    ensures TierOf(rule.noteType) == Rules && UniqueIds([rule, gotcha])
    ensures Brief(header, [rule, gotcha], budget) == header + Title(Rules) + Title(Gotchas) + Line(gotcha, false)
  {
    rule := Record(0, 0, Decision, "global", seq(40, _ => 'x'));
    gotcha := Record(1, 0, Gotcha, "global", "y");
    assert |Title(Gotchas)| == 12 && |Line(gotcha, false)| == 22 && |Line(rule, false)| == 63;
    budget := Tokens(header) + Tokens(Title(Rules)) + Tokens(Title(Gotchas)) + Tokens(Line(gotcha, false));
    GotchaMayOutliveRule(header, rule, gotcha, budget);
  }

  // ---------------------------------------------------------------- the brief, line by line

  /** Notes of `types` listed newest first, then by id, and every one not listed after all that are. */
  ghost predicate ListsNewest(records: seq<Record>, listed: seq<Record>, types: set<NoteType>) {
    && (forall r :: r in listed ==> r in records && r.noteType in types)
    && (forall i, j :: 0 <= i < j < |listed| ==>
          || listed[i].updated > listed[j].updated
          || (listed[i].updated == listed[j].updated && listed[i].noteId < listed[j].noteId))
    && (forall r, l :: r in records && r.noteType in types && r !in listed && l in listed ==>
          || l.updated > r.updated
          || (l.updated == r.updated && l.noteId < r.noteId))
  }

  function TypesOf(tier: Tier): set<NoteType> {
    match tier
    case Rules => {Convention, Decision}
    case Gotchas => {Gotcha}
    case Rest => {Reference, Context}
  }

  /** Any first part of a tier in the order of the brief lists its newest. */
  lemma FirstAreNewest(records: seq<Record>, tier: Tier, k: nat)
    requires UniqueIds(records) && k <= |Ordered(records, tier)|
    ensures ListsNewest(records, Ordered(records, tier)[..k], TypesOf(tier))
  {
    var all := Ordered(records, tier);
    TierSorts(records, tier);
    forall r | r in records && r.noteType in TypesOf(tier) ensures r in all { InTierElements(records, tier, r); }
    assert forall i :: 0 <= i < k ==> all[..k][i] == all[i];
    forall r, l | r in records && r.noteType in TypesOf(tier) && r !in all[..k] && l in all[..k]
      ensures l.updated > r.updated || (l.updated == r.updated && l.noteId < r.noteId)
    {
      assert r in all;
      var i :| 0 <= i < |all| && all[i] == r;
      var j :| 0 <= j < k && all[..k][j] == l;
      assert Newer(all[j], all[i]);
    }
  }

  lemma TierSorts(records: seq<Record>, tier: Tier)
    requires UniqueIds(records)
    ensures Sorted(Ordered(records, tier), Newer)
    ensures forall r :: r in Ordered(records, tier) <==> r in InTier(records, tier)
    ensures forall r :: r in Ordered(records, tier) ==> r in records && r.noteType in TypesOf(tier)
  {
    var mine := InTier(records, tier);
    NewerIsTotal(records);
    InTierDistinct(records, tier);
    forall r ensures r in mine ==> r in records && r.noteType in TypesOf(tier) { InTierElements(records, tier, r); }
    forall i | 0 <= i < |mine| ensures mine[i] in Elements(records) { assert mine[i] in mine; }
    SortSorts(mine, Newer, Elements(records));
    SortElements(mine, Newer);
  }

  lemma SectionLists(p: Page, records: seq<Record>, budget: nat, tier: Tier)
    returns (title: string, listed: seq<Record>)
    requires UniqueIds(records)
    ensures ListsNewest(records, listed, TypesOf(tier)) && title in ["", Title(tier)] && (title == "" ==> listed == [])
    ensures PushSection(p, budget, tier, Ordered(records, tier)).out ==
            p.out + title + Joined(LinesOf(listed, tier == Rest))
  {
    var items := Ordered(records, tier);
    SectionIs(p, budget, tier, items);
    var titled := items != [] && Fits(p, Title(tier), budget);
    title := if titled then Title(tier) else "";
    var k := if titled then Listed(p, budget, tier, items) else 0;
    listed := items[..k];
    FirstAreNewest(records, tier, k);
    assert LinesOf(items, tier == Rest)[..k] == LinesOf(listed, tier == Rest);
    if !titled { assert p.out + "" + "" == p.out; }
  }

  /** The whole text: the header, then up to three sections in this order, each the newest of its notes
      under its title. */
  lemma BriefText(header: string, records: seq<Record>, budget: nat)
    returns (rules: seq<Record>, gotchas: seq<Record>, rest: seq<Record>, titles: (string, string, string))
    requires forall i, j :: 0 <= i < j < |records| ==> records[i].noteId != records[j].noteId
    requires records != [] && |header| <= 4 * budget
    ensures ListsNewest(records, rules, {Convention, Decision}) && (titles.0 == "" ==> rules == [])
    ensures ListsNewest(records, gotchas, {Gotcha}) && (titles.1 == "" ==> gotchas == [])
    ensures ListsNewest(records, rest, {Reference, Context}) && (titles.2 == "" ==> rest == [])
    ensures titles.0 in ["", "\n## Conventions & decisions\n"]
    ensures titles.1 in ["", "\n## Gotchas\n"] && titles.2 in ["", "\n## More\n"]
    ensures Brief(header, records, budget) ==
            header + titles.0 + Joined(LinesOf(rules, false)) + titles.1 + Joined(LinesOf(gotchas, false))
              + titles.2 + Joined(LinesOf(rest, true))
  {
    BriefPages(header, records, budget);
    var a, b, c;
    a, rules := SectionLists(Charge(Page("", 0), header), records, budget, Rules);
    b, gotchas := SectionLists(RulesPage(header, records, budget), records, budget, Gotchas);
    c, rest := SectionLists(GotchasPage(header, records, budget), records, budget, Rest);
    titles := (a, b, c);
  }

  lemma BriefPages(header: string, records: seq<Record>, budget: nat)
    requires records != [] && |header| <= 4 * budget
    ensures var start, one, two :=
              Charge(Page("", 0), header), RulesPage(header, records, budget), GotchasPage(header, records, budget);
            && start.out == header
            && one.out == PushSection(start, budget, Rules, Ordered(records, Rules)).out
            && two.out == PushSection(one, budget, Gotchas, Ordered(records, Gotchas)).out
            && Brief(header, records, budget) == PushSection(two, budget, Rest, Ordered(records, Rest)).out
  {
    assert Charge(Page("", 0), header).out == header;
  }

  /** The text of a section and of a line, for one note of each type. */
  lemma BriefOfOne(header: string, note: Record, budget: nat, title: string, line: string)
    requires title == match note.noteType
               case Convention => "\n## Conventions & decisions\n"
               case Decision => "\n## Conventions & decisions\n"
               case Gotcha => "\n## Gotchas\n"
               case Reference => "\n## More\n"
               case Context => "\n## More\n"
    requires line == match note.noteType
               case Convention => "- [convention] (" + note.repo + ") " + note.summary + "\n"
               case Decision => "- [decision] (" + note.repo + ") " + note.summary + "\n"
               case Gotcha => "- [gotcha] (" + note.repo + ") " + note.summary + "\n"
               case Reference => "- " + note.summary + "\n"
               case Context => "- " + note.summary + "\n"
    ensures var left := 4 * budget - (|header| + 3) / 4 * 4;
            Brief(header, [note], budget) ==
              if left < 0 then ""
              else if left < |title| then header
              else if left - (|title| + 3) / 4 * 4 < |line| then header + title
              else header + title + line
  {
    TextOfOne(note, title, line);
    SectionAlone(header, note, budget);
    InQuarters(budget, |header|, |title|, |line|);
  }

  lemma TextOfOne(note: Record, title: string, line: string)
    requires title == match note.noteType
               case Convention => "\n## Conventions & decisions\n"
               case Decision => "\n## Conventions & decisions\n"
               case Gotcha => "\n## Gotchas\n"
               case Reference => "\n## More\n"
               case Context => "\n## More\n"
    requires line == match note.noteType
               case Convention => "- [convention] (" + note.repo + ") " + note.summary + "\n"
               case Decision => "- [decision] (" + note.repo + ") " + note.summary + "\n"
               case Gotcha => "- [gotcha] (" + note.repo + ") " + note.summary + "\n"
               case Reference => "- " + note.summary + "\n"
               case Context => "- " + note.summary + "\n"
    ensures title == Title(TierOf(note.noteType)) && line == Line(note, TierOf(note.noteType) == Rest)
  {
    assert "- [" + "convention" + "] (" == "- [convention] (" && "- [" + "decision" + "] (" == "- [decision] (";
    assert "- [" + "gotcha" + "] (" == "- [gotcha] (";
  }

  lemma SectionAlone(header: string, note: Record, budget: nat)
    ensures var tier := TierOf(note.noteType);
            var title, line := Title(tier), Line(note, tier == Rest);
            Brief(header, [note], budget) ==
              if Tokens(header) > budget then ""
              else if Tokens(header) + Tokens(title) > budget then header
              else if Tokens(header) + Tokens(title) + Tokens(line) > budget then header + title
              else header + title + line
  {
    var tier, start := TierOf(note.noteType), Charge(Page("", 0), header);
    assert start.out == header;
    OnlyTier(note);
    if Fits(start, Title(tier), budget) { SectionOfOne(start, budget, tier, note); }
  }

  lemma InQuarters(budget: nat, header: nat, title: nat, line: nat)
    ensures var left := 4 * budget - (header + 3) / 4 * 4;
            && (left < 0 <==> (header + 3) / 4 > budget)
            && (left < title <==> (header + 3) / 4 + (title + 3) / 4 > budget)
            && (left - (title + 3) / 4 * 4 < line <==> (header + 3) / 4 + (title + 3) / 4 + (line + 3) / 4 > budget)
  {
  }

  lemma OnlyTier(note: Record)
    ensures forall tier :: Ordered([note], tier) == if tier == TierOf(note.noteType) then [note] else []
  {
    assert [note][..0] == [];
    forall tier ensures Ordered([note], tier) == if tier == TierOf(note.noteType) then [note] else [] {
      assert InTier([], tier) == [];
      assert InTier([note], tier) == if tier == TierOf(note.noteType) then [note] else [];
      if tier == TierOf(note.noteType) { assert Sort([note], Newer) == [note]; }
    }
  }
}
