/** The heads-then-ops double read of a live bucket (`doctor.rs`, `audit/reconcile.rs`),
    run against honest authors whose every write puts its op before its head. */
module Doctor {
  import opened Options
  import opened OpLog
  import opened AuthorChain
  import opened Quarantine
  import opened Watermarks

  // ---------------------------------------------------------------- the checks

  datatype SuppressedTail = SuppressedTail(author: AuthorKey, claimed: Head, visibleLamport: Option<nat>)

  predicate Present(ops: set<Op>, d: Digest) {
    exists op :: op in ops && op.digest == d
  }

  /** The highest lamport among `a`'s ops, if there is one. */
  ghost predicate Highest(ops: set<Op>, a: AuthorKey, visible: Option<nat>) {
    match visible
    case None => AuthorOps(ops, a) == {}
    case Some(l) =>
      && (exists op :: op in AuthorOps(ops, a) && op.lamport == l)
      && (forall op :: op in AuthorOps(ops, a) ==> op.lamport <= l)
  }

  ghost predicate TailOf(heads: seq<Head>, ops: set<Op>, t: SuppressedTail) {
    && t.claimed in heads
    && t.author == t.claimed.author
    && !Present(ops, t.claimed.tip)
    && Highest(ops, t.author, t.visibleLamport)
  }

  /** A head naming a tip that no visible op reproduces, and nothing else, is a suppressed tail. */
  ghost predicate TailsOf(heads: seq<Head>, ops: set<Op>, tails: seq<SuppressedTail>) {
    && (forall t :: t in tails ==> TailOf(heads, ops, t))
    && (forall h :: h in heads && !Present(ops, h.tip) ==> exists t :: t in tails && t.claimed == h)
  }

  method HighestLamports(ops: seq<Op>) returns (present: set<Digest>, visible: map<AuthorKey, nat>)
    ensures forall d :: d in present <==> Present(ToSet(ops), d)
    ensures forall a :: Highest(ToSet(ops), a, if a in visible then Some(visible[a]) else None)
  {
    present, visible := {}, map[];
    for i := 0 to |ops|
      invariant forall d :: d in present <==> Present(ToSet(ops[..i]), d)
      invariant forall a :: Highest(ToSet(ops[..i]), a, if a in visible then Some(visible[a]) else None)
    {
      var op := ops[i];
      assert ToSet(ops[..i + 1]) == ToSet(ops[..i]) + {op};
      ghost var before := visible;
      present := present + {op.digest};
      var best := if op.authorKey in visible && visible[op.authorKey] > op.lamport then visible[op.authorKey]
        else op.lamport;
      visible := visible[op.authorKey := best];
      forall a ensures Highest(ToSet(ops[..i + 1]), a, if a in visible then Some(visible[a]) else None) {
        HighestPush(ToSet(ops[..i]), op, a, if a in before then Some(before[a]) else None);
      }
    }
    assert ops[..|ops|] == ops;
  }

  lemma HighestPush(ops: set<Op>, op: Op, a: AuthorKey, visible: Option<nat>)
    requires Highest(ops, a, visible)
    ensures Highest(ops + {op}, a,
              if op.authorKey != a then visible
              else if visible.Some? && visible.value > op.lamport then visible else Some(op.lamport))
  {
    var mine := AuthorOps(ops + {op}, a);
    if op.authorKey != a {
      assert mine == AuthorOps(ops, a);
    } else {
      assert mine == AuthorOps(ops, a) + {op};
      if visible.Some? {
        var top :| top in AuthorOps(ops, a) && top.lamport == visible.value;
        assert top in mine;
      }
    }
  }

  method FindSuppressedTails(heads: seq<Head>, ops: seq<Op>) returns (tails: seq<SuppressedTail>)
    ensures TailsOf(heads, ToSet(ops), tails)
  {
    var present, visible := HighestLamports(ops);
    tails := [];
    for i := 0 to |heads|
      invariant TailsOf(heads[..i], ToSet(ops), tails)
    {
      var h := heads[i];
      assert heads[..i + 1] == heads[..i] + [h];
      if h.tip !in present {
        var t := SuppressedTail(h.author, h, if h.author in visible then Some(visible[h.author]) else None);
        ghost var before := tails;
        tails := tails + [t];
        assert t in tails && forall e :: e in before ==> e in tails;
      }
    }
    assert heads[..|heads|] == heads;
  }

  datatype Line =
    | QuarantineLine(author: AuthorKey, dropped: nat)
    | TailLine(tail: SuppressedTail)
    | RegressionLine(regression: HeadRegression)

  ghost predicate QuarantineLines(fetched: set<Op>, kept: set<Op>, lines: seq<Line>) {
    && (forall l :: l in lines && l.QuarantineLine? ==>
          l.dropped == |AuthorOps(fetched, l.author)| - |AuthorOps(kept, l.author)|
            && AuthorOps(kept, l.author) != AuthorOps(fetched, l.author))
    && (forall a :: AuthorOps(kept, a) != AuthorOps(fetched, a) ==>
       exists l :: l in lines && l.QuarantineLine? && l.author == a)
  }

  ghost predicate TailLines(heads: seq<Head>, kept: set<Op>, lines: seq<Line>) {
    && (forall l :: l in lines && l.TailLine? ==> TailOf(heads, kept, l.tail))
    && (forall h :: h in heads && !Present(kept, h.tip) ==>
       exists l :: l in lines && l.TailLine? && l.tail.claimed == h)
  }

  ghost predicate RegressionLines(marks: Marks, heads: seq<Head>, lines: seq<Line>) {
    && (forall l :: l in lines && l.RegressionLine? ==> ReportOf(marks, heads, l.regression))
    && (forall a :: a in marks && Regressed(marks[a], Served(heads, a)) ==>
       RegressionLine(HeadRegression(marks[a], Served(heads, a))) in lines)
  }

  method RenderQuarantine(quarantined: map<AuthorKey, nat>) returns (lines: seq<Line>)
    ensures forall l :: l in lines <==>
            l.QuarantineLine? && l.author in quarantined && l.dropped == quarantined[l.author]
  {
    lines := [];
    var rest := quarantined.Keys;
    while rest != {}
      invariant rest <= quarantined.Keys
      invariant forall l :: l in lines <==>
                l.QuarantineLine? && l.author in quarantined && l.author !in rest && l.dropped == quarantined[l.author]
      decreases rest
    {
      var a :| a in rest;
      lines := lines + [QuarantineLine(a, quarantined[a])];
      rest := rest - {a};
    }
  }

  /** `op_log_integrity_lines`, given what its two reads returned (`None` for a failed read). A
      failed op read silences everything; a failed head read leaves the quarantine lines, and
      then no mark moves. */
  method OpLogIntegrityLines(heads: Option<seq<Head>>, fetched: Option<seq<Op>>, watermarks: HeadWatermarks?,
                             ghost depth: Digest -> nat)
    returns (lines: seq<Line>, ghost kept: set<Op>)
    requires fetched.Some? ==> DigestsIdentify(ToSet(fetched.value)) && Acyclic(ToSet(fetched.value), depth)
    requires watermarks != null ==> watermarks.Valid()
    modifies watermarks
    ensures watermarks != null ==> watermarks.Valid()
    ensures fetched == None ==> lines == []
    ensures fetched == None || heads == None ==> watermarks != null ==> watermarks.marks == old(watermarks.marks)
    ensures fetched.Some? ==>
            Survivors(ToSet(fetched.value), kept) && QuarantineLines(ToSet(fetched.value), kept, lines)
    ensures fetched.Some? && heads == None ==> forall l :: l in lines ==> l.QuarantineLine?
    ensures fetched.Some? && heads.Some? ==> TailLines(heads.value, kept, lines)
    ensures fetched.Some? && heads.Some? && watermarks != null ==>
              RegressionLines(old(watermarks.marks), heads.value, lines)
                && watermarks.marks == AdvanceAll(old(watermarks.marks), heads.value)
    ensures watermarks == null ==> forall l :: l in lines ==> !l.RegressionLine?
  {
    lines, kept := [], {};
    if fetched.Some? {
      var ops, quarantined := ReadChains(fetched.value, depth);
      kept := ToSet(ops);
      lines := RenderQuarantine(quarantined);
      QuarantineRendered(ToSet(fetched.value), kept, quarantined, lines);
      if heads.Some? {
        var tails := FindSuppressedTails(heads.value, ops);
        ghost var q := lines;
        lines := lines + seq(|tails|, i requires 0 <= i < |tails| => TailLine(tails[i]));
        TailsRendered(heads.value, kept, tails, q, lines);
        if watermarks != null {
          var regressions := watermarks.Observe(heads.value);
          ghost var t := lines;
          lines := lines + seq(|regressions|, i requires 0 <= i < |regressions| => RegressionLine(regressions[i]));
          RegressionsRendered(old(watermarks.marks), heads.value, regressions, t, lines);
          LinesKeepTails(kept, heads.value, t, lines);
        }
        LinesKeepQuarantine(ToSet(fetched.value), kept, q, lines);
      }
    }
  }

  lemma QuarantineRendered(fetched: set<Op>, kept: set<Op>, quarantined: map<AuthorKey, nat>, lines: seq<Line>)
    requires forall l :: l in lines <==>
             l.QuarantineLine? && l.author in quarantined && l.dropped == quarantined[l.author]
    requires forall a :: a in quarantined <==> AuthorOps(kept, a) != AuthorOps(fetched, a)
    requires forall a :: a in quarantined ==> quarantined[a] == |AuthorOps(fetched, a)| - |AuthorOps(kept, a)|
    ensures QuarantineLines(fetched, kept, lines)
  {
    forall a | AuthorOps(kept, a) != AuthorOps(fetched, a)
      ensures exists l :: l in lines && l.QuarantineLine? && l.author == a
    {
      assert QuarantineLine(a, quarantined[a]) in lines;
    }
  }

  lemma TailsRendered(heads: seq<Head>, kept: set<Op>, tails: seq<SuppressedTail>, before: seq<Line>, lines: seq<Line>)
    requires TailsOf(heads, kept, tails)
    requires forall l :: l in before ==> l.QuarantineLine?
    requires lines == before + seq(|tails|, i requires 0 <= i < |tails| => TailLine(tails[i]))
    ensures TailLines(heads, kept, lines)
    ensures forall l :: l in lines && l !in before ==> l.TailLine?
  {
    forall h | h in heads && !Present(kept, h.tip)
      ensures exists l :: l in lines && l.TailLine? && l.tail.claimed == h
    {
      var t :| t in tails && t.claimed == h;
      var i :| 0 <= i < |tails| && tails[i] == t;
      assert lines[|before| + i] == TailLine(t);
    }
  }

  lemma RegressionsRendered(marks: Marks, heads: seq<Head>, regressions: seq<HeadRegression>, before: seq<Line>,
                            lines: seq<Line>)
    requires Reports(marks, heads, regressions)
    requires forall l :: l in before ==> !l.RegressionLine?
    requires lines == before + seq(|regressions|, i requires 0 <= i < |regressions| => RegressionLine(regressions[i]))
    ensures RegressionLines(marks, heads, lines)
    ensures forall l :: l in lines && l !in before ==> l.RegressionLine?
    ensures forall l :: l in before ==> l in lines
  {
    forall r | r in regressions ensures RegressionLine(r) in lines {
      var i :| 0 <= i < |regressions| && regressions[i] == r;
      assert lines[|before| + i] == RegressionLine(r);
    }
  }

  lemma LinesKeepTails(kept: set<Op>, heads: seq<Head>, before: seq<Line>, lines: seq<Line>)
    requires TailLines(heads, kept, before)
    requires forall l :: l in before ==> l in lines
    requires forall l :: l in lines && l !in before ==> l.RegressionLine?
    ensures TailLines(heads, kept, lines)
  {
    forall h | h in heads && !Present(kept, h.tip)
      ensures exists l :: l in lines && l.TailLine? && l.tail.claimed == h
    {
      var l :| l in before && l.TailLine? && l.tail.claimed == h;
      assert l in lines;
    }
  }

  lemma LinesKeepQuarantine(fetched: set<Op>, kept: set<Op>, before: seq<Line>, lines: seq<Line>)
    requires QuarantineLines(fetched, kept, before)
    requires forall l :: l in before ==> l in lines
    requires forall l :: l in lines && l !in before ==> !l.QuarantineLine?
    ensures QuarantineLines(fetched, kept, lines)
  {
    forall a | AuthorOps(kept, a) != AuthorOps(fetched, a)
      ensures exists l :: l in lines && l.QuarantineLine? && l.author == a
    {
      var l :| l in before && l.QuarantineLine? && l.author == a;
      assert l in lines;
    }
  }
}
