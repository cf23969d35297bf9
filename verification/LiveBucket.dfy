/** Honest writers and one reader over a live bucket, step by step. The reader's listings are
    not atomic: an op listing returns at least what was there throughout and at most what was
    there at some moment. */
module LiveBucket {
  import opened Options
  import opened OpLog
  import opened AuthorChain
  import opened Quarantine
  import opened Watermarks
  import opened Doctor

  /** One honest author: the durable chain, how much of it the head object covers, and an op
      object whose append failed and is still to be reclaimed. */
  datatype Writer = Writer(chain: seq<Op>, published: nat, stray: Option<Op>)

  /** What the reader holds. `begun` is the length of every chain when its op listing began. */
  datatype Reader = Reader(
    marks: Option<Marks>,
    listed: Option<set<AuthorKey>>,
    heads: map<AuthorKey, Head>,
    begun: Option<map<AuthorKey, nat>>,
    must: set<Op>,
    may: set<Op>,
    seen: Option<set<Op>>)

  /** `file` is the marks file shared by this machine's processes. */
  datatype World = World(writers: map<AuthorKey, Writer>, file: Marks, reader: Reader)

  datatype ReadOrder = HeadsFirst | OpsFirst

  function HeadOf(op: Op): Head { Head(op.authorKey, op.lamport, op.digest) }

  /** The digest the op after the first `i` names. */
  function TipAt(chain: seq<Op>, i: nat): Digest
    requires i <= |chain|
  {
    if i == 0 then GENESIS_PREV else chain[i - 1].digest
  }

  function Objects(w: Writer): set<Op> {
    ToSet(w.chain) + if w.stray.Some? then {w.stray.value} else {}
  }

  function Bucket(writers: map<AuthorKey, Writer>): set<Op> {
    set a, op | a in writers && op in Objects(writers[a]) :: op
  }

  predicate Listing(r: Reader) { r.begun.Some? && r.seen == None }

  function Lands(r: Reader, op: Op): Reader {
    if Listing(r) then r.(may := r.may + {op}) else r
  }

  function Vanishes(r: Reader, op: Op): Reader {
    if Listing(r) then r.(must := r.must - {op}) else r
  }

  /** What `a` may mint next: chained to the tip, above every lamport used, a new hash. */
  ghost predicate Mints(w: Writer, a: AuthorKey, op: Op) {
    && op.authorKey == a
    && op.prev == TipAt(w.chain, |w.chain|)
    && op.digest != GENESIS_PREV
    && forall o :: o in w.chain ==> o.lamport < op.lamport && o.digest != op.digest
  }

  // ---------------------------------------------------------------- steps

  ghost predicate Append(w: World, v: World, a: AuthorKey, op: Op) {
    && a in w.writers
    && w.writers[a].stray == None
    && Mints(w.writers[a], a, op)
    && v == w.(writers := w.writers[a := w.writers[a].(chain := w.writers[a].chain + [op])],
       reader := Lands(w.reader, op))
  }

  /** The put landed but reported an error; the author will reclaim the object. */
  ghost predicate AppendFails(w: World, v: World, a: AuthorKey, op: Op) {
    && a in w.writers
    && w.writers[a].stray == None
    && Mints(w.writers[a], a, op)
    && v == w.(writers := w.writers[a := w.writers[a].(stray := Some(op))], reader := Lands(w.reader, op))
  }

  ghost predicate Reclaim(w: World, v: World, a: AuthorKey) {
    && a in w.writers
    && w.writers[a].stray.Some?
    && v == w.(writers := w.writers[a := w.writers[a].(stray := None)],
       reader := Vanishes(w.reader, w.writers[a].stray.value))
  }

  /** The head put succeeds; a failed one is no step, and the author may append again without it. */
  ghost predicate Publish(w: World, v: World, a: AuthorKey) {
    && a in w.writers
    && w.writers[a].chain != []
    && v == w.(writers := w.writers[a := w.writers[a].(published := |w.writers[a].chain|)])
  }

  /** Some process of this machine files a head that `a` did publish. */
  ghost predicate Remembers(w: World, v: World, a: AuthorKey, m: nat) {
    && a in w.writers
    && 1 <= m <= w.writers[a].published <= |w.writers[a].chain|
    && v == w.(file := w.file[a := HeadOf(w.writers[a].chain[m - 1])])
  }

  ghost predicate WriterStep(w: World, v: World, a: AuthorKey) {
    || (exists op :: Append(w, v, a, op))
    || (exists op :: AppendFails(w, v, a, op))
    || Reclaim(w, v, a)
    || Publish(w, v, a)
    || (exists m: nat :: Remembers(w, v, a, m))
  }

  ghost predicate LoadMarks(w: World, v: World) {
    w.reader.marks == None && v == w.(reader := w.reader.(marks := Some(w.file)))
  }

  function Publishers(writers: map<AuthorKey, Writer>): set<AuthorKey> {
    set a | a in writers && writers[a].published > 0
  }

  ghost predicate ListHeads(order: ReadOrder, w: World, v: World) {
    && w.reader.marks.Some?
    && w.reader.listed == None
    && (order == OpsFirst ==> w.reader.seen.Some?)
    && v == w.(reader := w.reader.(listed := Some(Publishers(w.writers))))
  }

  ghost predicate GetHead(w: World, v: World, a: AuthorKey) {
    && w.reader.listed.Some?
    && a in w.reader.listed.value
    && a !in w.reader.heads
    && a in w.writers
    && 1 <= w.writers[a].published <= |w.writers[a].chain|
    && var tip := w.writers[a].chain[w.writers[a].published - 1];
       v == w.(reader := w.reader.(heads := w.reader.heads[a := HeadOf(tip)]))
  }

  predicate HeadsRead(r: Reader) { r.listed.Some? && r.listed.value <= r.heads.Keys }

  function Lengths(writers: map<AuthorKey, Writer>): map<AuthorKey, nat> {
    map a | a in writers :: |writers[a].chain|
  }

  ghost predicate ListOps(order: ReadOrder, w: World, v: World) {
    && w.reader.begun == None
    && w.reader.marks.Some?
    && (order == HeadsFirst ==> HeadsRead(w.reader))
    && v == w.(reader := w.reader.(
                 begun := Some(Lengths(w.writers)),
                 must := Bucket(w.writers), may := Bucket(w.writers)))
  }

  ghost predicate FinishOps(w: World, v: World, seen: set<Op>) {
    && Listing(w.reader)
    && w.reader.must <= seen <= w.reader.may
    && v == w.(reader := w.reader.(seen := Some(seen)))
  }

  ghost predicate ReaderStep(order: ReadOrder, w: World, v: World) {
    || LoadMarks(w, v)
    || ListHeads(order, w, v)
    || (exists a :: GetHead(w, v, a))
    || ListOps(order, w, v)
    || (exists seen :: FinishOps(w, v, seen))
  }

  ghost predicate Step(order: ReadOrder, w: World, v: World) {
    (exists a :: WriterStep(w, v, a)) || ReaderStep(order, w, v)
  }

  const FRESH_READER := Reader(None, None, map[], None, {}, {}, None)

  /** Any number of authors, none of whom has written yet. */
  ghost predicate Init(w: World) {
    && (forall a :: a in w.writers ==> w.writers[a] == Writer([], 0, None))
    && w.file == map[]
    && w.reader == FRESH_READER
  }

  ghost predicate Run(order: ReadOrder, run: seq<World>) {
    && run != []
    && Init(run[0])
    && forall i :: 0 <= i < |run| - 1 ==> Step(order, run[i], run[i + 1])
  }

  // ---------------------------------------------------------------- what every step keeps

  ghost predicate LinkAt(a: AuthorKey, chain: seq<Op>, i: nat) {
    i < |chain| && chain[i].authorKey == a && chain[i].prev == TipAt(chain, i) && chain[i].digest != GENESIS_PREV
  }

  ghost predicate HonestChain(a: AuthorKey, chain: seq<Op>) {
    && (forall i :: 0 <= i < |chain| ==> LinkAt(a, chain, i))
    && (forall i, j :: 0 <= i < j < |chain| ==>
       chain[i].lamport < chain[j].lamport && chain[i].digest != chain[j].digest)
  }

  /** `x` is a failed append made when the chain had `i` ops. */
  ghost predicate StrayAt(a: AuthorKey, chain: seq<Op>, i: nat, x: Op) {
    i <= |chain| && x.authorKey == a && x.prev == TipAt(chain, i)
  }

  ghost predicate GoodWriter(a: AuthorKey, w: Writer) {
    && HonestChain(a, w.chain)
    && w.published <= |w.chain|
    && (w.stray.Some? ==> StrayAt(a, w.chain, |w.chain|, w.stray.value))
  }

  ghost predicate Published(w: Writer, h: Head) {
    exists m :: 0 <= m < w.published <= |w.chain| && h == HeadOf(w.chain[m])
  }

  /** `ops` holds the first `n` ops of the chain, and whatever else of `a` it holds is a later
      op or a failed append made no earlier. */
  ghost predicate Covers(a: AuthorKey, chain: seq<Op>, n: nat, least: set<Op>, most: set<Op>) {
    && n <= |chain|
    && (forall i :: 0 <= i < n ==> chain[i] in least)
    && (forall x :: x in most && x.authorKey == a && x !in chain ==> LateStray(a, chain, n, x))
  }

  ghost predicate LateStray(a: AuthorKey, chain: seq<Op>, n: nat, x: Op) {
    exists i :: n <= i && StrayAt(a, chain, i, x)
  }

  ghost predicate HeadInvariant(a: AuthorKey, w: Writer, file: Marks, r: Reader) {
    && (a in file ==> Published(w, file[a]))
    && (r.marks.Some? && a in r.marks.value ==> Published(w, r.marks.value[a]))
    && (a in r.heads ==> Published(w, r.heads[a]))
    && (r.marks.Some? && a in r.marks.value && a in r.heads ==> r.marks.value[a].lamport <= r.heads[a].lamport)
    && (r.marks.Some? && a in r.marks.value && r.listed.Some? ==> a in r.listed.value)
  }

  /** What the op listing surely returns, and what it may. */
  function Least(r: Reader): set<Op> { if r.seen.Some? then r.seen.value else r.must }

  function Most(r: Reader): set<Op> { if r.seen.Some? then r.seen.value else r.may }

  ghost predicate OpInvariant(a: AuthorKey, w: Writer, r: Reader) {
    r.begun.Some? ==>
      && a in r.begun.value
      && Covers(a, w.chain, r.begun.value[a], Least(r), Most(r))
      && (a in r.heads ==> Claims(w.chain, r.begun.value[a], r.heads[a]))
  }

  /** `h` names one of the first `n` ops. */
  ghost predicate Claims(chain: seq<Op>, n: nat, h: Head) {
    exists m :: 0 <= m < n <= |chain| && h == HeadOf(chain[m])
  }

  ghost predicate ReaderInvariant(r: Reader) {
    && (r.listed.Some? ==> r.marks.Some?)
    && (r.listed == None ==> r.heads == map[])
    && (r.begun.Some? ==> HeadsRead(r))
    && (r.seen.Some? ==> r.begun.Some?)
  }

  ghost predicate AuthorInvariant(w: World, a: AuthorKey) {
    a in w.writers ==>
      && GoodWriter(a, w.writers[a])
      && HeadInvariant(a, w.writers[a], w.file, w.reader)
      && OpInvariant(a, w.writers[a], w.reader)
      && (a in w.reader.heads && w.reader.listed.Some? ==> a in w.reader.listed.value)
  }

  ghost predicate Invariant(w: World) {
    ReaderInvariant(w.reader) && forall a :: AuthorInvariant(w, a)
  }

  // -- writer steps

  lemma AppendHonest(a: AuthorKey, w: Writer, op: Op)
    requires GoodWriter(a, w) && Mints(w, a, op)
    ensures HonestChain(a, w.chain + [op])
  {
    var next := w.chain + [op];
    forall i | 0 <= i < |next| ensures LinkAt(a, next, i) {
      if i < |w.chain| { assert LinkAt(a, w.chain, i); }
      assert TipAt(next, i) == TipAt(w.chain, i);
    }
    assert forall i :: 0 <= i < |w.chain| ==> w.chain[i] in w.chain;
  }

  lemma StrayStays(a: AuthorKey, chain: seq<Op>, op: Op, n: nat, x: Op)
    requires LateStray(a, chain, n, x)
    ensures LateStray(a, chain + [op], n, x)
  {
    var i: nat :| n <= i && StrayAt(a, chain, i, x);
    assert TipAt(chain + [op], i) == TipAt(chain, i);
    assert StrayAt(a, chain + [op], i, x);
  }

  lemma CoversAppend(a: AuthorKey, chain: seq<Op>, n: nat, least: set<Op>, most: set<Op>, op: Op)
    requires Covers(a, chain, n, least, most)
    ensures Covers(a, chain + [op], n, least, most + {op}) && Covers(a, chain + [op], n, least, most)
  {
    var next := chain + [op];
    forall x | x in most + {op} && x.authorKey == a && x !in next ensures LateStray(a, next, n, x) {
      assert x != op by { assert next[|chain|] == op; }
      assert x !in chain;
      StrayStays(a, chain, op, n, x);
    }
  }

  lemma PublishedStays(w: Writer, v: Writer, h: Head)
    requires Published(w, h)
    requires w.chain <= v.chain && w.published <= v.published <= |v.chain|
    ensures Published(v, h)
  {
    var m :| 0 <= m < w.published <= |w.chain| && h == HeadOf(w.chain[m]);
    assert v.chain[m] == w.chain[m];
  }

  lemma ClaimsStays(chain: seq<Op>, next: seq<Op>, n: nat, h: Head)
    requires Claims(chain, n, h) && chain <= next
    ensures Claims(next, n, h)
  {
    var m :| 0 <= m < n <= |chain| && h == HeadOf(chain[m]);
    assert next[m] == chain[m];
  }

  lemma HeadInvariantStays(a: AuthorKey, w: Writer, v: Writer, file: Marks, r: Reader, q: Reader)
    requires HeadInvariant(a, w, file, r)
    requires w.chain <= v.chain && w.published <= v.published <= |v.chain|
    requires q.marks == r.marks && q.heads == r.heads && q.listed == r.listed
    ensures HeadInvariant(a, v, file, q)
  {
    if a in file { PublishedStays(w, v, file[a]); }
    if r.marks.Some? && a in r.marks.value { PublishedStays(w, v, r.marks.value[a]); }
    if a in r.heads { PublishedStays(w, v, r.heads[a]); }
  }

  lemma AppendKeeps(w: World, v: World, a: AuthorKey, op: Op)
    requires Invariant(w) && Append(w, v, a, op)
    ensures AuthorInvariant(v, a)
  {
    var me := w.writers[a];
    assert AuthorInvariant(w, a);
    AppendHonest(a, me, op);
    HeadInvariantStays(a, me, v.writers[a], w.file, w.reader, v.reader);
    if w.reader.begun.Some? {
      var r := w.reader;
      CoversAppend(a, me.chain, r.begun.value[a], Least(r), Most(r), op);
      if a in r.heads { ClaimsStays(me.chain, v.writers[a].chain, r.begun.value[a], r.heads[a]); }
    }
  }

  lemma AppendFailsKeeps(w: World, v: World, a: AuthorKey, op: Op)
    requires Invariant(w) && AppendFails(w, v, a, op)
    ensures AuthorInvariant(v, a)
  {
    var me := w.writers[a];
    assert AuthorInvariant(w, a);
    assert StrayAt(a, me.chain, |me.chain|, op);
    HeadInvariantStays(a, me, v.writers[a], w.file, w.reader, v.reader);
    if Listing(w.reader) {
      assert LateStray(a, me.chain, w.reader.begun.value[a], op);
    }
  }

  lemma ReclaimKeeps(w: World, v: World, a: AuthorKey)
    requires Invariant(w) && Reclaim(w, v, a)
    ensures AuthorInvariant(v, a)
  {
    var me, x := w.writers[a], w.writers[a].stray.value;
    assert AuthorInvariant(w, a);
    HeadInvariantStays(a, me, v.writers[a], w.file, w.reader, v.reader);
    if Listing(w.reader) {
      forall i | 0 <= i < w.reader.begun.value[a] ensures me.chain[i] in v.reader.must {
        StrayIsOff(a, me, i);
      }
    }
  }

  /** A failed append hangs off the tip, so it is no op of the chain. */
  lemma StrayIsOff(a: AuthorKey, w: Writer, i: nat)
    requires GoodWriter(a, w) && w.stray.Some? && i < |w.chain|
    ensures w.chain[i] != w.stray.value
  {
    var last := |w.chain| - 1;
    assert LinkAt(a, w.chain, i) && LinkAt(a, w.chain, last);
    if i > 0 { assert w.chain[i - 1].digest != w.chain[last].digest; }
  }

  lemma PublishKeeps(w: World, v: World, a: AuthorKey)
    requires Invariant(w) && Publish(w, v, a)
    ensures AuthorInvariant(v, a)
  {
    assert AuthorInvariant(w, a);
    HeadInvariantStays(a, w.writers[a], v.writers[a], w.file, w.reader, v.reader);
  }

  lemma RemembersKeeps(w: World, v: World, a: AuthorKey, m: nat)
    requires Invariant(w) && Remembers(w, v, a, m)
    ensures AuthorInvariant(v, a)
  {
    assert AuthorInvariant(w, a);
    assert Published(v.writers[a], v.file[a]);
  }

  lemma OwnObjects(a: AuthorKey, w: Writer)
    requires GoodWriter(a, w)
    ensures forall x :: x in Objects(w) ==> x.authorKey == a
  {
    forall x | x in w.chain ensures x.authorKey == a {
      var i :| 0 <= i < |w.chain| && w.chain[i] == x;
      assert LinkAt(a, w.chain, i);
    }
  }

  /** Another author's object landing or vanishing is no matter to `b`. */
  lemma CoversForeign(b: AuthorKey, chain: seq<Op>, n: nat, least: set<Op>, most: set<Op>, op: Op)
    requires HonestChain(b, chain) && Covers(b, chain, n, least, most) && op.authorKey != b
    ensures Covers(b, chain, n, least, most + {op}) && Covers(b, chain, n, least - {op}, most)
  {
    forall i | 0 <= i < n ensures chain[i] in least - {op} { assert LinkAt(b, chain, i); }
  }

  /** A step of `a` moves at most one object of `a` in the listing. */
  lemma ForeignStep(w: World, v: World, a: AuthorKey)
    requires AuthorInvariant(w, a) && WriterStep(w, v, a)
    ensures || v.reader == w.reader
            || exists op: Op ::
                 op.authorKey == a && (v.reader == Lands(w.reader, op) || v.reader == Vanishes(w.reader, op))
  {
    if Reclaim(w, v, a) { OwnObjects(a, w.writers[a]); }
  }

  lemma OpInvariantForeign(b: AuthorKey, w: Writer, r: Reader, op: Op)
    requires GoodWriter(b, w) && OpInvariant(b, w, r) && op.authorKey != b
    ensures OpInvariant(b, w, Lands(r, op)) && OpInvariant(b, w, Vanishes(r, op))
  {
    if Listing(r) { CoversForeign(b, w.chain, r.begun.value[b], r.must, r.may, op); }
  }

  /** A step of `a` leaves what is known of every other author. */
  lemma OthersKept(w: World, v: World, a: AuthorKey, b: AuthorKey)
    requires Invariant(w) && WriterStep(w, v, a) && b != a
    ensures AuthorInvariant(v, b)
  {
    assert AuthorInvariant(w, b) && AuthorInvariant(w, a);
    ForeignStep(w, v, a);
    if b in v.writers {
      assert v.writers[b] == w.writers[b] && (b in v.file <==> b in w.file) && (b in v.file ==> v.file[b] == w.file[b]);
      if v.reader != w.reader {
        var op: Op :| op.authorKey == a && (v.reader == Lands(w.reader, op) || v.reader == Vanishes(w.reader, op));
        OpInvariantForeign(b, w.writers[b], w.reader, op);
      }
    }
  }

  lemma WriterStepKeeps(w: World, v: World, a: AuthorKey)
    requires Invariant(w) && WriterStep(w, v, a)
    ensures Invariant(v)
  {
    forall b ensures AuthorInvariant(v, b) {
      if b != a {
        OthersKept(w, v, a, b);
      } else if exists op :: Append(w, v, a, op) {
        var op :| Append(w, v, a, op);
        AppendKeeps(w, v, a, op);
      } else if exists op :: AppendFails(w, v, a, op) {
        var op :| AppendFails(w, v, a, op);
        AppendFailsKeeps(w, v, a, op);
      } else if Reclaim(w, v, a) {
        ReclaimKeeps(w, v, a);
      } else if Publish(w, v, a) {
        PublishKeeps(w, v, a);
      } else {
        var m: nat :| Remembers(w, v, a, m);
        RemembersKeeps(w, v, a, m);
      }
    }
  }

  // -- reader steps

  /** The current head is at or above every head published before. */
  lemma CurrentIsHighest(a: AuthorKey, w: Writer, h: Head)
    requires GoodWriter(a, w) && Published(w, h)
    ensures w.published > 0 && h.lamport <= HeadOf(w.chain[w.published - 1]).lamport
  {
  }

  lemma GetHeadKeeps(w: World, v: World, a: AuthorKey)
    requires Invariant(w) && GetHead(w, v, a)
    ensures Invariant(v)
  {
    assert AuthorInvariant(w, a);
    var me := w.writers[a];
    assert Published(me, v.reader.heads[a]);
    if w.reader.marks.Some? && a in w.reader.marks.value { CurrentIsHighest(a, me, w.reader.marks.value[a]); }
    forall b ensures AuthorInvariant(v, b) {
      assert AuthorInvariant(w, b);
    }
  }

  lemma ListOpsKeeps(w: World, v: World)
    requires Invariant(w) && ListOps(HeadsFirst, w, v)
    ensures Invariant(v)
  {
    forall a ensures AuthorInvariant(v, a) {
      assert AuthorInvariant(w, a);
      if a in w.writers { ListingCovers(w, a); }
    }
  }

  lemma ListingCovers(w: World, a: AuthorKey)
    requires Invariant(w) && a in w.writers
    ensures Covers(a, w.writers[a].chain, |w.writers[a].chain|, Bucket(w.writers), Bucket(w.writers))
    ensures a in w.reader.heads ==> Claims(w.writers[a].chain, |w.writers[a].chain|, w.reader.heads[a])
  {
    var me := w.writers[a];
    assert AuthorInvariant(w, a);
    forall i | 0 <= i < |me.chain| ensures me.chain[i] in Bucket(w.writers) {
      assert me.chain[i] in Objects(me);
    }
    forall x | x in Bucket(w.writers) && x.authorKey == a && x !in me.chain
      ensures LateStray(a, me.chain, |me.chain|, x)
    {
      var b :| b in w.writers && x in Objects(w.writers[b]);
      assert AuthorInvariant(w, b);
      OwnObjects(b, w.writers[b]);
      assert StrayAt(a, me.chain, |me.chain|, x);
    }
    if a in w.reader.heads {
      var m :| 0 <= m < me.published <= |me.chain| && w.reader.heads[a] == HeadOf(me.chain[m]);
      assert Claims(me.chain, |me.chain|, w.reader.heads[a]);
    }
  }

  lemma FinishKeeps(w: World, v: World, seen: set<Op>)
    requires Invariant(w) && FinishOps(w, v, seen)
    ensures Invariant(v)
  {
    forall a ensures AuthorInvariant(v, a) { assert AuthorInvariant(w, a); }
  }

  lemma ListHeadsKeeps(w: World, v: World)
    requires Invariant(w) && ListHeads(HeadsFirst, w, v)
    ensures Invariant(v)
  {
    forall a ensures AuthorInvariant(v, a) {
      assert AuthorInvariant(w, a);
      if a in w.writers && a in w.reader.marks.value { CurrentIsHighest(a, w.writers[a], w.reader.marks.value[a]); }
    }
  }

  lemma StepKeeps(w: World, v: World)
    requires Invariant(w) && Step(HeadsFirst, w, v)
    ensures Invariant(v)
  {
    if exists a :: WriterStep(w, v, a) {
      var a :| WriterStep(w, v, a);
      WriterStepKeeps(w, v, a);
    } else if LoadMarks(w, v) {
      forall a ensures AuthorInvariant(v, a) { assert AuthorInvariant(w, a); }
    } else if ListHeads(HeadsFirst, w, v) {
      ListHeadsKeeps(w, v);
    } else if exists a :: GetHead(w, v, a) {
      var a :| GetHead(w, v, a);
      GetHeadKeeps(w, v, a);
    } else if ListOps(HeadsFirst, w, v) {
      ListOpsKeeps(w, v);
    } else {
      var seen :| FinishOps(w, v, seen);
      FinishKeeps(w, v, seen);
    }
  }

  lemma {:induction false} RunKeeps(run: seq<World>)
    requires Run(HeadsFirst, run)
    ensures Invariant(run[|run| - 1])
  {
    if |run| > 1 {
      RunKeeps(run[..|run| - 1]);
      StepKeeps(run[|run| - 2], run[|run| - 1]);
    }
  }

  // ---------------------------------------------------------------- no honest author is accused

  /** `ops` has no choice below `n`: every op after the first `i < n` is the chain's. */
  ghost predicate Unforked(ops: set<Op>, chain: seq<Op>, n: nat) {
    n <= |chain| && forall i :: 0 <= i < n ==> Children(ops, TipAt(chain, i)) == {chain[i]}
  }

  /** Where the chain does not fork, the selection follows it. */
  lemma {:induction false} PrefixKept(ops: set<Op>, chain: seq<Op>, n: nat, i: nat, path: seq<Op>)
    requires Unforked(ops, chain, n) && i <= n
    requires Selects(ops, TipAt(chain, i), path)
    ensures forall k :: i <= k < n ==> chain[k] in path
    decreases n - i
  {
    if i < n {
      assert path != [] && path[0] == chain[i];
      PrefixKept(ops, chain, n, i + 1, path[1..]);
      forall k | i <= k < n ensures chain[k] in path { if k > i { assert chain[k] in path[1..]; } }
    }
  }

  lemma CoversUnforked(a: AuthorKey, chain: seq<Op>, n: nat, seen: set<Op>, ops: set<Op>)
    requires HonestChain(a, chain) && Covers(a, chain, n, seen, seen)
    requires ops == AuthorOps(seen, a)
    ensures Unforked(ops, chain, n)
  {
    forall i | 0 <= i < n ensures Children(ops, TipAt(chain, i)) == {chain[i]} {
      assert LinkAt(a, chain, i);
      forall x | x in Children(ops, TipAt(chain, i)) ensures x == chain[i] {
        if x in chain {
          var j :| 0 <= j < |chain| && chain[j] == x;
          assert LinkAt(a, chain, j);
          SameTip(a, chain, i, j);
        } else {
          assert LateStray(a, chain, n, x);
          var j: nat :| n <= j && StrayAt(a, chain, j, x);
          SameTip(a, chain, i, j);
        }
      }
    }
  }

  /** No two positions of an honest chain hang off the same digest. */
  lemma SameTip(a: AuthorKey, chain: seq<Op>, i: nat, j: nat)
    requires HonestChain(a, chain) && i <= |chain| && j <= |chain|
    ensures TipAt(chain, i) == TipAt(chain, j) <==> i == j
  {
    if i > 0 { assert LinkAt(a, chain, i - 1); }
    if j > 0 { assert LinkAt(a, chain, j - 1); }
    if 0 < i < j { assert chain[i - 1].digest != chain[j - 1].digest; }
    if 0 < j < i { assert chain[j - 1].digest != chain[i - 1].digest; }
  }

  /** The read's view: the honest authors' ops as listed, and any ops whatever of other keys. */
  ghost predicate Fetches(w: World, fetched: set<Op>) {
    w.reader.seen.Some? && forall a :: a in w.writers ==> AuthorOps(fetched, a) == AuthorOps(w.reader.seen.value, a)
  }

  ghost predicate Serves(w: World, heads: seq<Head>) {
    forall a :: a in w.writers ==> Served(heads, a) == if a in w.reader.heads then Some(w.reader.heads[a]) else None
  }

  /** In every heads-first run, whatever other keys do and wherever the writes fall, the tip an
      honest author's head names survives the quarantine. */
  lemma HonestTipSurvives(run: seq<World>, fetched: set<Op>, kept: set<Op>, a: AuthorKey)
    requires Run(HeadsFirst, run)
    requires var w := run[|run| - 1]; Fetches(w, fetched) && a in w.writers && a in w.reader.heads
    requires Survivors(fetched, kept)
    ensures Present(kept, run[|run| - 1].reader.heads[a].tip)
  {
    var w := run[|run| - 1];
    RunKeeps(run);
    assert AuthorInvariant(w, a);
    var chain, n, seen := w.writers[a].chain, w.reader.begun.value[a], w.reader.seen.value;
    CoversUnforked(a, chain, n, seen, AuthorOps(seen, a));
    assert KeepsAuthor(AuthorOps(fetched, a), AuthorOps(kept, a));
    var path :| Selects(AuthorOps(fetched, a), GENESIS_PREV, path) && AuthorOps(kept, a) == ToSet(path);
    PrefixKept(AuthorOps(fetched, a), chain, n, 0, path);
    var m :| 0 <= m < n <= |chain| && w.reader.heads[a] == HeadOf(chain[m]);
    assert chain[m] in ToSet(path);
    assert chain[m] in kept;
  }

  /** In every heads-first run no served head of an honest author is below the mark loaded. */
  lemma HonestHeadHolds(run: seq<World>, a: AuthorKey)
    requires Run(HeadsFirst, run)
    requires var w := run[|run| - 1];
             w.reader.seen.Some? && w.reader.marks.Some? && a in w.writers && a in w.reader.marks.value
    ensures var r := run[|run| - 1].reader; a in r.heads && AtOrAbove(r.heads[a], r.marks.value[a])
  {
    var w := run[|run| - 1];
    RunKeeps(run);
    assert AuthorInvariant(w, a);
    var me, r := w.writers[a], w.reader;
    SameLamport(a, me, r.heads[a], r.marks.value[a]);
  }

  lemma SameLamport(a: AuthorKey, w: Writer, h: Head, k: Head)
    requires GoodWriter(a, w) && Published(w, h) && Published(w, k)
    ensures h.lamport == k.lamport ==> h == k
  {
  }

  /** A line that accuses `a`: of a suppressed tail or of a head moved backward. */
  predicate Accuses(l: Line, a: AuthorKey) {
    match l
    case QuarantineLine(_, _) => false
    case TailLine(t) => t.author == a
    case RegressionLine(r) => r.remembered.author == a
  }

  /** Marks are filed under their own authors. */
  ghost predicate KeyedMarks(w: World) {
    WellKeyed(w.file) && (w.reader.marks.Some? ==> WellKeyed(w.reader.marks.value))
  }

  lemma WriterKeyed(w: World, v: World, a: AuthorKey)
    requires Invariant(w) && KeyedMarks(w) && WriterStep(w, v, a)
    ensures KeyedMarks(v)
  {
    assert AuthorInvariant(w, a);
    if m: nat :| Remembers(w, v, a, m) {
      assert LinkAt(a, w.writers[a].chain, m - 1);
      assert v.file == w.file[a := HeadOf(w.writers[a].chain[m - 1])] && v.reader == w.reader;
    } else {
      assert v.file == w.file && v.reader.marks == w.reader.marks;
    }
  }

  lemma ReaderKeyed(w: World, v: World)
    requires KeyedMarks(w) && ReaderStep(HeadsFirst, w, v)
    ensures KeyedMarks(v)
  {
    assert v.file == w.file && (v.reader.marks == w.reader.marks || v.reader.marks == Some(w.file));
  }

  lemma StepKeyed(w: World, v: World)
    requires Invariant(w) && KeyedMarks(w) && Step(HeadsFirst, w, v)
    ensures KeyedMarks(v)
  {
    if a :| WriterStep(w, v, a) { WriterKeyed(w, v, a); } else { ReaderKeyed(w, v); }
  }

  lemma {:induction false} RunKeyed(run: seq<World>)
    requires Run(HeadsFirst, run)
    ensures Invariant(run[|run| - 1]) && KeyedMarks(run[|run| - 1])
  {
    RunKeeps(run);
    if |run| > 1 {
      RunKeyed(run[..|run| - 1]);
      StepKeyed(run[|run| - 2], run[|run| - 1]);
    }
  }

  /** `doctor` accuses no honest author, in any run: the lines `OpLogIntegrityLines` promises,
      given what a heads-first run read, name none of them. */
  lemma NoHonestAuthorAccused(run: seq<World>, heads: seq<Head>, fetched: set<Op>, kept: set<Op>, lines: seq<Line>,
                              l: Line)
    requires Run(HeadsFirst, run)
    requires Fetches(run[|run| - 1], fetched) && Serves(run[|run| - 1], heads) && OneHeadPerAuthor(heads)
    requires Survivors(fetched, kept)
    requires run[|run| - 1].reader.marks.Some?
    requires TailLines(heads, kept, lines) && RegressionLines(run[|run| - 1].reader.marks.value, heads, lines)
    requires l in lines
    ensures forall a :: a in run[|run| - 1].writers ==> !Accuses(l, a)
  {
    var w := run[|run| - 1];
    forall a | a in w.writers ensures !Accuses(l, a) {
      if l.TailLine? && l.tail.author == a {
        ServedIsListed(heads, a);
        HonestTipSurvives(run, fetched, kept, a);
      } else if l.RegressionLine? {
        NoRegressionLine(run, heads, lines, l, a);
      }
    }
  }

  // ---------------------------------------------------------------- what is detected

  /** Every ancestor of a kept op of an honest chain is kept. */
  lemma {:induction false} AncestorsKept(a: AuthorKey, chain: seq<Op>, ops: set<Op>, path: seq<Op>, i: nat, k: nat)
    requires HonestChain(a, chain) && k <= i < |chain|
    requires DigestsIdentify(ops + ToSet(chain))
    requires Linked(ops, GENESIS_PREV, path) && ToSet(path) <= ops && chain[i] in path
    ensures chain[k] in path
    decreases i
  {
    if k < i {
      assert LinkAt(a, chain, i) && LinkAt(a, chain, i - 1);
      KeptParent(ops, GENESIS_PREV, path, chain[i]);
      var p :| p in path && p.digest == chain[i].prev;
      assert p in ToSet(path) && chain[i - 1] in ToSet(chain);
      AncestorsKept(a, chain, ops, path, i - 1, k);
    }
  }

  /** What `a` has in the read: ops of its chain, and failed appends made after op `n`. */
  ghost predicate LateStraysOnly(a: AuthorKey, chain: seq<Op>, n: nat, fetched: set<Op>) {
    forall x :: x in fetched && x.authorKey == a && x !in chain ==> LateStray(a, chain, n, x)
  }

  lemma KeptTipNeedsAncestors(a: AuthorKey, chain: seq<Op>, n: nat, fetched: set<Op>, kept: set<Op>, path: seq<Op>)
    requires HonestChain(a, chain) && n < |chain|
    requires DigestsIdentify(fetched + ToSet(chain)) && kept <= fetched
    requires Selects(AuthorOps(fetched, a), GENESIS_PREV, path) && AuthorOps(kept, a) == ToSet(path)
    requires Present(kept, chain[n].digest)
    ensures forall i :: 0 <= i <= n ==> chain[i] in fetched
  {
    var mine := AuthorOps(fetched, a);
    assert LinkAt(a, chain, n) && chain[n] in ToSet(chain);
    var y :| y in kept && y.digest == chain[n].digest;
    assert y in fetched + ToSet(chain) && chain[n] in fetched + ToSet(chain);
    assert y in ToSet(path);
    SelectionIsLinked(mine, GENESIS_PREV, path);
    forall i | 0 <= i <= n ensures chain[i] in fetched {
      AncestorsKept(a, chain, mine, path, n, i);
      assert chain[i] in ToSet(path);
    }
  }

  /** The tail check is exact for an honest author: the head naming op `n` is reported if and only
      if the read missed some op at or below it, the tip or any ancestor. */
  lemma HiddenOpIsReported(a: AuthorKey, chain: seq<Op>, n: nat, fetched: set<Op>, kept: set<Op>)
    requires HonestChain(a, chain) && n < |chain|
    requires DigestsIdentify(fetched + ToSet(chain))
    requires LateStraysOnly(a, chain, n + 1, fetched)
    requires Survivors(fetched, kept)
    ensures Present(kept, HeadOf(chain[n]).tip) <==> forall i :: 0 <= i <= n ==> chain[i] in fetched
  {
    var mine := AuthorOps(fetched, a);
    assert KeepsAuthor(mine, AuthorOps(kept, a));
    var path :| Selects(mine, GENESIS_PREV, path) && AuthorOps(kept, a) == ToSet(path);
    if Present(kept, chain[n].digest) {
      KeptTipNeedsAncestors(a, chain, n, fetched, kept, path);
    }
    if forall i :: 0 <= i <= n ==> chain[i] in fetched {
      CoversUnforked(a, chain, n + 1, fetched, mine);
      PrefixKept(mine, chain, n + 1, 0, path);
      assert chain[n] in ToSet(path);
      assert chain[n] in kept;
    }
  }

  /** The same over runs, with reads of listed objects failing at will (the read skips those): an
      honest author's head is reported if and only if an op at or below it was not fetched. */
  lemma LossyReadReportsExactly(run: seq<World>, fetched: set<Op>, kept: set<Op>, a: AuthorKey)
    requires Run(HeadsFirst, run)
    requires var w := run[|run| - 1]; w.reader.seen.Some? && a in w.writers && a in w.reader.heads
    requires AuthorOps(fetched, a) <= run[|run| - 1].reader.seen.value
    requires DigestsIdentify(fetched + ToSet(run[|run| - 1].writers[a].chain)) && Survivors(fetched, kept)
    ensures var w := run[|run| - 1];
            exists n :: 0 <= n < |w.writers[a].chain| && w.reader.heads[a] == HeadOf(w.writers[a].chain[n])
              && (Present(kept, w.reader.heads[a].tip) <==>
                 forall i :: 0 <= i <= n ==> w.writers[a].chain[i] in fetched)
  {
    var w := run[|run| - 1];
    RunKeeps(run);
    assert AuthorInvariant(w, a);
    var chain, begun := w.writers[a].chain, w.reader.begun.value[a];
    var n :| 0 <= n < begun <= |chain| && w.reader.heads[a] == HeadOf(chain[n]);
    forall x | x in fetched && x.authorKey == a && x !in chain ensures LateStray(a, chain, n + 1, x) {
      assert x in AuthorOps(fetched, a);
      assert LateStray(a, chain, begun, x);
      var i: nat :| begun <= i && StrayAt(a, chain, i, x);
      assert n + 1 <= i;
    }
    HiddenOpIsReported(a, chain, n, fetched, kept);
  }

  /** The op an honest head names, or an ancestor of it, was not fetched. */
  ghost predicate Missed(w: World, a: AuthorKey, fetched: set<Op>) {
    && a in w.writers && a in w.reader.heads
    && exists n, i :: NamesAt(w, a, n) && 0 <= i <= n && w.writers[a].chain[i] !in fetched
  }

  ghost predicate NamesAt(w: World, a: AuthorKey, n: int) {
    && a in w.writers && a in w.reader.heads && 0 <= n < |w.writers[a].chain|
    && w.reader.heads[a] == HeadOf(w.writers[a].chain[n])
  }

  lemma MissedIsAbsent(run: seq<World>, fetched: set<Op>, kept: set<Op>, a: AuthorKey)
    requires Run(HeadsFirst, run)
    requires var w := run[|run| - 1]; w.reader.seen.Some? && a in w.writers && a in w.reader.heads
    requires AuthorOps(fetched, a) <= run[|run| - 1].reader.seen.value
    requires DigestsIdentify(fetched + ToSet(run[|run| - 1].writers[a].chain)) && Survivors(fetched, kept)
    ensures var w := run[|run| - 1];
            (Present(kept, w.reader.heads[a].tip) <==> !Missed(w, a, fetched)) && w.reader.heads[a].author == a
  {
    var w := run[|run| - 1];
    RunKeeps(run);
    assert AuthorInvariant(w, a);
    LossyReadReportsExactly(run, fetched, kept, a);
    var chain := w.writers[a].chain;
    var n :| 0 <= n < |chain| && w.reader.heads[a] == HeadOf(chain[n])
             && (Present(kept, w.reader.heads[a].tip) <==> forall i :: 0 <= i <= n ==> chain[i] in fetched);
    assert NamesAt(w, a, n) && LinkAt(a, chain, n);
    forall k | NamesAt(w, a, k) ensures k == n { OneIndex(a, chain, k, n); }
  }

  lemma OneIndex(a: AuthorKey, chain: seq<Op>, i: nat, j: nat)
    requires HonestChain(a, chain) && i < |chain| && j < |chain| && HeadOf(chain[i]) == HeadOf(chain[j])
    ensures i == j
  {
  }

  /** Exactly whom `doctor` accuses, in any run, with any listed ops failing to be fetched: an honest
      author is named by some line if and only if the op its served head names, or an ancestor, was
      not fetched. */
  lemma AccusedIffMissed(run: seq<World>, heads: seq<Head>, fetched: set<Op>, kept: set<Op>, lines: seq<Line>,
                         a: AuthorKey)
    requires Run(HeadsFirst, run) && Serves(run[|run| - 1], heads) && OneHeadPerAuthor(heads)
             && Survivors(fetched, kept)
    requires var w := run[|run| - 1]; w.reader.marks.Some? && w.reader.seen.Some? && a in w.writers
    requires TailLines(heads, kept, lines) && RegressionLines(run[|run| - 1].reader.marks.value, heads, lines)
    requires AuthorOps(fetched, a) <= run[|run| - 1].reader.seen.value
    requires DigestsIdentify(fetched + ToSet(run[|run| - 1].writers[a].chain))
    ensures (exists l :: l in lines && Accuses(l, a)) <==> Missed(run[|run| - 1], a, fetched)
  {
    var w := run[|run| - 1];
    ServedIsListed(heads, a);
    if a in w.reader.heads { MissedIsAbsent(run, fetched, kept, a); }
    forall l | l in lines && Accuses(l, a) ensures Missed(w, a, fetched) {
      if l.RegressionLine? { NoRegressionLine(run, heads, lines, l, a); }
    }
    if Missed(w, a, fetched) {
      var l :| l in lines && l.TailLine? && l.tail.claimed == w.reader.heads[a];
      assert Accuses(l, a);
    }
  }

  lemma NoRegressionLine(run: seq<World>, heads: seq<Head>, lines: seq<Line>, l: Line, a: AuthorKey)
    requires Run(HeadsFirst, run) && Serves(run[|run| - 1], heads)
    requires var w := run[|run| - 1]; w.reader.marks.Some? && w.reader.seen.Some? && a in w.writers
    requires RegressionLines(run[|run| - 1].reader.marks.value, heads, lines) && l in lines && l.RegressionLine?
    ensures l.regression.remembered.author != a
  {
    var marks := run[|run| - 1].reader.marks.value;
    RunKeyed(run);
    var b :| b in marks && Regressed(marks[b], Served(heads, b))
      && l.regression == HeadRegression(marks[b], Served(heads, b));
    if a in marks { HonestHeadHolds(run, a); }
  }

  // ---------------------------------------------------------------- marks shared with a writer

  /** What the reader was served for `a`. */
  function ServedTo(r: Reader, a: AuthorKey): Option<Head> {
    if a in r.heads then Some(r.heads[a]) else None
  }

  /** Marks shared with a writer of the same process: `a` is reported exactly when nothing was served
      for it or the served head is lower than the mark. */
  lemma SharedMarkReported(w: World, a: AuthorKey)
    requires Invariant(w) && a in w.writers && a in w.file
    ensures Regressed(w.file[a], ServedTo(w.reader, a)) <==>
            a !in w.reader.heads || w.reader.heads[a].lamport < w.file[a].lamport
  {
    assert AuthorInvariant(w, a);
    if a in w.reader.heads { SameLamport(a, w.writers[a], w.reader.heads[a], w.file[a]); }
  }

  /** What a run never takes back: chain, publications, and the reader's heads and listing. */
  ghost predicate Grows(w: World, v: World, a: AuthorKey) {
    && (a in w.writers ==>
       a in v.writers && w.writers[a].chain <= v.writers[a].chain && w.writers[a].published <= v.writers[a].published)
    && (a in w.reader.heads ==> a in v.reader.heads && v.reader.heads[a] == w.reader.heads[a])
    && (w.reader.listed.Some? ==> v.reader.listed == w.reader.listed)
  }

  lemma WriterGrows(w: World, v: World, b: AuthorKey, a: AuthorKey)
    requires Invariant(w) && WriterStep(w, v, b)
    ensures Grows(w, v, a)
    ensures v.reader.heads == w.reader.heads && v.reader.listed == w.reader.listed
    ensures Files(w, v, a) || ((a in v.file <==> a in w.file) && (a in w.file ==> v.file[a] == w.file[a]))
  {
    assert AuthorInvariant(w, b);
  }

  /** What one step can do to the head, the listing and the mark of `a`. */
  ghost predicate Moved(w: World, v: World, a: AuthorKey) {
    && Grows(w, v, a)
    && (a in v.reader.heads && a !in w.reader.heads ==> GetHead(w, v, a))
    && (v.reader.listed.Some? && w.reader.listed == None ==> ListHeads(HeadsFirst, w, v))
    && (Files(w, v, a) || ((a in v.file <==> a in w.file) && (a in w.file ==> v.file[a] == w.file[a])))
  }

  ghost predicate Files(w: World, v: World, a: AuthorKey) {
    exists m: nat :: Remembers(w, v, a, m)
  }

  lemma StepMoves(w: World, v: World, a: AuthorKey)
    requires Invariant(w) && Step(HeadsFirst, w, v)
    ensures Moved(w, v, a)
  {
    if exists b :: WriterStep(w, v, b) {
      var b :| WriterStep(w, v, b);
      WriterGrows(w, v, b, a);
    } else {
      ReaderGrows(w, v, a);
    }
  }

  lemma RunMoves(run: seq<World>, n: nat, a: AuthorKey)
    requires Run(HeadsFirst, run) && 0 < n < |run|
    ensures Moved(run[n - 1], run[n], a)
  {
    var before := run[..n];
    assert Run(HeadsFirst, before) && before[|before| - 1] == run[n - 1];
    RunKeeps(before);
    assert Step(HeadsFirst, run[n - 1], run[n - 1 + 1]);
    StepMoves(run[n - 1], run[n], a);
  }

  lemma ReaderGrows(w: World, v: World, a: AuthorKey)
    requires ReaderStep(HeadsFirst, w, v)
    ensures Grows(w, v, a) && v.file == w.file
    ensures a in v.reader.heads && a !in w.reader.heads ==> GetHead(w, v, a)
    ensures v.reader.listed.Some? && w.reader.listed == None ==> ListHeads(HeadsFirst, w, v)
  {
    if exists b :: GetHead(w, v, b) { var b :| GetHead(w, v, b); }
    else if exists seen :: FinishOps(w, v, seen) { var seen :| FinishOps(w, v, seen); }
  }

  /** A run as its steps treat `a`, from a start where nothing is held of it. */
  ghost predicate Course(run: seq<World>, a: AuthorKey) {
    && run != [] && a !in run[0].reader.heads && run[0].reader.listed == None && a !in run[0].file
    && forall n :: 0 < n < |run| ==> Moved(run[n - 1], run[n], a)
  }

  lemma RunCourse(run: seq<World>, a: AuthorKey)
    requires Run(HeadsFirst, run)
    ensures Course(run, a)
  {
    forall n | 0 < n < |run| ensures Moved(run[n - 1], run[n], a) { RunMoves(run, n, a); }
  }

  lemma {:induction false} CourseGrows(run: seq<World>, i: nat, j: nat, a: AuthorKey)
    requires Course(run, a) && i <= j < |run|
    ensures Grows(run[i], run[j], a)
    decreases j
  {
    if i < j {
      CourseGrows(run, i, j - 1, a);
      assert Moved(run[j - 1], run[j], a);
    }
  }

  lemma RunGrows(run: seq<World>, i: nat, j: nat, a: AuthorKey)
    requires Run(HeadsFirst, run) && i <= j < |run|
    ensures Grows(run[i], run[j], a)
  {
    RunCourse(run, a);
    CourseGrows(run, i, j, a);
  }

  /** The step that settled what is served for `a`: the fetch of its head or, if `a` was not listed,
      the listing. */
  ghost predicate Settles(run: seq<World>, j: nat, a: AuthorKey) {
    j + 1 < |run| && if a in run[|run| - 1].reader.heads then GetHead(run[j], run[j + 1], a)
      else ListHeads(HeadsFirst, run[j], run[j + 1])
  }

  lemma {:induction false} HeadWasFetched(run: seq<World>, a: AuthorKey, n: nat) returns (j: nat)
    requires Course(run, a) && n < |run| && a in run[n].reader.heads
    ensures j < n && GetHead(run[j], run[j + 1], a)
    decreases n
  {
    assert Moved(run[n - 1], run[n], a);
    if a in run[n - 1].reader.heads { j := HeadWasFetched(run, a, n - 1); } else { j := n - 1; }
  }

  lemma {:induction false} HeadsWereListed(run: seq<World>, a: AuthorKey, n: nat) returns (j: nat)
    requires Course(run, a) && n < |run| && run[n].reader.listed.Some?
    ensures j < n && ListHeads(HeadsFirst, run[j], run[j + 1])
    decreases n
  {
    assert Moved(run[n - 1], run[n], a);
    if run[n - 1].reader.listed.Some? { j := HeadsWereListed(run, a, n - 1); } else { j := n - 1; }
  }

  /** Some step settled it. */
  lemma SettledByAStep(run: seq<World>, a: AuthorKey) returns (j: nat)
    requires Run(HeadsFirst, run) && HeadsRead(run[|run| - 1].reader)
    ensures Settles(run, j, a)
  {
    var last := |run| - 1;
    RunCourse(run, a);
    if a in run[last].reader.heads { j := HeadWasFetched(run, a, last); } else { j := HeadsWereListed(run, a, last); }
  }

  /** Every mark was filed by some step of the run. */
  lemma {:induction false} FiledByAStep(run: seq<World>, a: AuthorKey, n: nat) returns (i: nat, m: nat)
    requires Course(run, a) && n < |run| && a in run[n].file
    ensures i < n && Remembers(run[i], run[i + 1], a, m) && run[n].file[a] == HeadOf(run[i].writers[a].chain[m - 1])
    decreases n
  {
    assert Moved(run[n - 1], run[n], a);
    if Files(run[n - 1], run[n], a) {
      i := n - 1;
      m :| Remembers(run[n - 1], run[n], a, m);
    } else {
      i, m := FiledByAStep(run, a, n - 1);
    }
  }

  /** `run[i]` files, for good, a head `a` published after `settled` ops were. */
  ghost predicate FilesLater(run: seq<World>, a: AuthorKey, settled: nat, j: nat, i: nat, m: nat) {
    && j <= i && i + 1 < |run| && m > settled
    && Remembers(run[i], run[i + 1], a, m)
    && a in run[|run| - 1].file && run[|run| - 1].file[a] == HeadOf(run[i].writers[a].chain[m - 1])
  }

  /** The head served, in terms of the writer at the settling step. */
  lemma ServedWas(run: seq<World>, a: AuthorKey, j: nat)
    requires Run(HeadsFirst, run) && HeadsRead(run[|run| - 1].reader) && a in run[|run| - 1].writers
             && Settles(run, j, a)
    ensures a in run[j].writers
    ensures var w, v := run[j].writers[a], run[|run| - 1];
            && Grows(run[j], v, a) && w.published <= |w.chain|
            && (if a in v.reader.heads then w.published > 0
               && v.reader.heads[a] == HeadOf(v.writers[a].chain[w.published - 1]) else w.published == 0)
  {
    var last := |run| - 1;
    SameAuthors(run, j, a);
    RunGrows(run, j, last, a);
    RunGrows(run, j + 1, last, a);
    RunKeeps(run[..j + 1]);
    assert run[..j + 1][j] == run[j];
    assert AuthorInvariant(run[j], a);
  }

  lemma {:induction false} SameAuthors(run: seq<World>, j: nat, a: AuthorKey)
    requires Run(HeadsFirst, run) && j < |run|
    ensures a in run[j].writers <==> a in run[|run| - 1].writers
    decreases |run| - j
  {
    if j + 1 < |run| {
      SameAuthors(run, j + 1, a);
      assert run[j + 1].writers.Keys == run[j].writers.Keys by { KeysStay(run[j], run[j + 1]); }
    }
  }

  lemma KeysStay(w: World, v: World)
    requires Step(HeadsFirst, w, v)
    ensures v.writers.Keys == w.writers.Keys
  {
    if exists b :: WriterStep(w, v, b) { var b :| WriterStep(w, v, b); }
  }

  /** Which of two ops of an honest chain comes later, by lamport. */
  lemma LamportOrder(a: AuthorKey, chain: seq<Op>, i: nat, j: nat)
    requires HonestChain(a, chain) && i < |chain| && j < |chain|
    ensures chain[i].lamport < chain[j].lamport <==> i < j
  {
  }

  /** Exactly when marks shared with a writer report an honest author, over every heads-first run:
      when the mark was filed of a head published after that author's head was fetched, or, for an
      author not listed, after the listing. */
  lemma SharedMarksReportIff(run: seq<World>, a: AuthorKey) returns (j: nat)
    requires Run(HeadsFirst, run) && HeadsRead(run[|run| - 1].reader)
    requires a in run[|run| - 1].writers && a in run[|run| - 1].file
    ensures Settles(run, j, a) && a in run[j].writers
    ensures var w := run[|run| - 1];
            Regressed(w.file[a], ServedTo(w.reader, a)) <==>
              exists i, m :: FilesLater(run, a, run[j].writers[a].published, j, i, m)
  {
    j := SettledByAStep(run, a);
    SameAuthors(run, j, a);
    ReportsIffFiledLater(run, a, j);
  }

  lemma ReportsIffFiledLater(run: seq<World>, a: AuthorKey, j: nat)
    requires Run(HeadsFirst, run) && HeadsRead(run[|run| - 1].reader) && Settles(run, j, a)
    requires a in run[|run| - 1].writers && a in run[|run| - 1].file && a in run[j].writers
    ensures var w := run[|run| - 1];
            Regressed(w.file[a], ServedTo(w.reader, a)) <==>
              exists i, m :: FilesLater(run, a, run[j].writers[a].published, j, i, m)
  {
    var last := |run| - 1;
    var w, settled := run[last], run[j].writers[a].published;
    RunKeeps(run);
    assert AuthorInvariant(w, a);
    ServedWas(run, a, j);
    SharedMarkReported(w, a);
    RunCourse(run, a);
    var i, m := FiledByAStep(run, a, last);
    MarkIsLater(run, a, j, i, m);
    if m > settled {
      if i < j { RunGrows(run, i, j, a); }
      assert FilesLater(run, a, settled, j, i, m);
    } else {
      forall i2: nat, m2: nat ensures !FilesLater(run, a, settled, j, i2, m2) {
        if FilesLater(run, a, settled, j, i2, m2) { MarkIsLater(run, a, j, i2, m2); }
      }
    }
  }

  /** A filed head is above the served one exactly when it was published after the settling step. */
  lemma MarkIsLater(run: seq<World>, a: AuthorKey, j: nat, i: nat, m: nat)
    requires Run(HeadsFirst, run) && HeadsRead(run[|run| - 1].reader) && Settles(run, j, a)
    requires a in run[|run| - 1].writers && a in run[|run| - 1].file && a in run[j].writers
    requires i + 1 < |run| && Remembers(run[i], run[i + 1], a, m)
             && run[|run| - 1].file[a] == HeadOf(run[i].writers[a].chain[m - 1])
    ensures var w := run[|run| - 1];
            (a !in w.reader.heads || w.reader.heads[a].lamport < w.file[a].lamport) <==> m > run[j].writers[a].published
  {
    var last := |run| - 1;
    var w := run[last];
    RunKeeps(run);
    assert AuthorInvariant(w, a);
    ServedWas(run, a, j);
    RunGrows(run, i, last, a);
    var was, now := run[i].writers[a].chain, w.writers[a].chain;
    assert now[m - 1] == was[m - 1];
    LaterIsHigher(w, a, run[j].writers[a].published, m);
  }

  lemma LaterIsHigher(w: World, a: AuthorKey, served: nat, m: nat)
    requires a in w.writers && a in w.file && HonestChain(a, w.writers[a].chain)
    requires served <= |w.writers[a].chain| && 0 < m <= |w.writers[a].chain|
             && w.file[a] == HeadOf(w.writers[a].chain[m - 1])
    requires if a in w.reader.heads then served > 0 && w.reader.heads[a] == HeadOf(w.writers[a].chain[served - 1])
             else served == 0
    ensures a !in w.reader.heads || w.reader.heads[a].lamport < w.file[a].lamport <==> m > served
  {
    if served > 0 { LamportOrder(a, w.writers[a].chain, served - 1, m - 1); }
  }

  // ---------------------------------------------------------------- the two orders that do accuse

  function Example(n: nat): Op {
    Op(n, "a", 1, n, 1, Remember, n, "k", n, if n == 0 then 0 else n - 1, n)
  }

  /** With the two reads swapped, a run of one honest author ends with a head whose tip no
      selection of the ops read contains. */
  lemma SwappedReadsAccuse() returns (run: seq<World>)
    ensures Run(OpsFirst, run)
    ensures var w := run[|run| - 1];
            && w.reader.seen.Some? && HeadsRead(w.reader)
            && 1 in w.writers && 1 in w.reader.heads
            && forall kept :: Survivors(w.reader.seen.value, kept) ==> !Present(kept, w.reader.heads[1].tip)
  {
    var done := FRESH_READER.(marks := Some(map[]), begun := Some(map[1 := 0]), seen := Some({}));
    var held := done.(listed := Some({1}), heads := map[1 := HeadOf(Example(1))]);
    run := SwappedRun(Example(1), done, held);
    forall kept | Survivors({}, kept)
      ensures !Present(kept, held.heads[1].tip)
    {
      NoneSurvives(kept, held.heads[1].tip);
    }
  }

  lemma NoneSurvives(kept: set<Op>, tip: Digest)
    requires Survivors({}, kept)
    ensures !Present(kept, tip)
  {
  }

  lemma SwappedRun(op: Op, done: Reader, held: Reader) returns (run: seq<World>)
    requires op == Example(1)
             && done == FRESH_READER.(marks := Some(map[]), begun := Some(map[1 := 0]), seen := Some({}))
    requires held == done.(listed := Some({1}), heads := map[1 := HeadOf(op)])
    ensures Run(OpsFirst, run) && run[|run| - 1] == Alone([op], 1, map[], held)
  {
    var idle := FRESH_READER;
    var loaded := idle.(marks := Some(map[]));
    var begun := loaded.(begun := Some(map[1 := 0]));
    var listed := done.(listed := Some({1}));
    SwappedOps(idle, loaded, begun, done);
    AppendStep(OpsFirst, [], 0, op, map[], done);
    PublishStep(OpsFirst, [op], 0, map[], done);
    SwappedHeads(op, done, listed, held);
    assert [] + [op] == [op];
    run := [Alone([], 0, map[], idle)];
    run := Extend(OpsFirst, run, Alone([], 0, map[], loaded));
    run := Extend(OpsFirst, run, Alone([], 0, map[], begun));
    run := Extend(OpsFirst, run, Alone([], 0, map[], done));
    run := Extend(OpsFirst, run, Alone([op], 0, map[], done));
    run := Extend(OpsFirst, run, Alone([op], 1, map[], done));
    run := Extend(OpsFirst, run, Alone([op], 1, map[], listed));
    run := Extend(OpsFirst, run, Alone([op], 1, map[], held));
  }

  lemma SwappedOps(idle: Reader, loaded: Reader, begun: Reader, done: Reader)
    requires idle == FRESH_READER && loaded == idle.(marks := Some(map[]))
             && begun == loaded.(begun := Some(map[1 := 0]))
    requires done == begun.(seen := Some({}))
    ensures Step(OpsFirst, Alone([], 0, map[], idle), Alone([], 0, map[], loaded))
    ensures Step(OpsFirst, Alone([], 0, map[], loaded), Alone([], 0, map[], begun))
    ensures Step(OpsFirst, Alone([], 0, map[], begun), Alone([], 0, map[], done))
  {
    var a, b := Alone([], 0, map[], loaded), Alone([], 0, map[], begun);
    assert LoadMarks(Alone([], 0, map[], idle), a);
    assert Bucket(a.writers) == {};
    assert Lengths(a.writers) == map[1 := 0];
    assert ListOps(OpsFirst, a, b);
    assert FinishOps(b, Alone([], 0, map[], done), {});
  }

  lemma SwappedHeads(op: Op, done: Reader, listed: Reader, held: Reader)
    requires done.seen.Some? && done.marks.Some? && done.listed == None && done.heads == map[]
    requires listed == done.(listed := Some({1})) && held == listed.(heads := map[1 := HeadOf(op)])
    ensures Step(OpsFirst, Alone([op], 1, map[], done), Alone([op], 1, map[], listed))
    ensures Step(OpsFirst, Alone([op], 1, map[], listed), Alone([op], 1, map[], held))
  {
    var a, b := Alone([op], 1, map[], done), Alone([op], 1, map[], listed);
    assert Publishers(a.writers) == {1};
    assert ListHeads(OpsFirst, a, b);
    assert GetHead(b, Alone([op], 1, map[], held), 1);
  }

  /** Heads first, but compared with marks that a writer in the same process advances in between:
      a run of one honest author ends with its served head below its own mark. */
  lemma SharedMarksAccuse() returns (run: seq<World>)
    ensures Run(HeadsFirst, run)
    ensures var w := run[|run| - 1];
            && 1 in w.writers && HeadsRead(w.reader) && 1 in w.reader.heads && 1 in w.file
            && Regressed(w.file[1], Some(w.reader.heads[1]))
  {
    var one, two := Example(1), Example(2);
    var held: Reader;
    run, held := SharedRun(one, two);
    LowerHeadRegresses(HeadOf(two), HeadOf(one));
  }

  lemma LowerHeadRegresses(remembered: Head, served: Head)
    requires served.lamport < remembered.lamport
    ensures Regressed(remembered, Some(served))
  {
  }

  lemma SharedRun(one: Op, two: Op) returns (run: seq<World>, held: Reader)
    requires Mints(Writer([], 0, None), 1, one) && Mints(Writer([one], 1, None), 1, two)
    ensures Run(HeadsFirst, run) && run[|run| - 1] == Alone([one, two], 2, map[1 := HeadOf(two)], held)
    ensures HeadsRead(held) && held.heads == map[1 := HeadOf(one)]
  {
    run, held := HeadIsRead(one);
    AppendStep(HeadsFirst, [one], 1, two, map[], held);
    PublishStep(HeadsFirst, [one, two], 1, map[], held);
    RememberStep([one, two], held);
    assert [one] + [two] == [one, two];
    run := Extend(HeadsFirst, run, Alone([one, two], 1, map[], held));
    run := Extend(HeadsFirst, run, Alone([one, two], 2, map[], held));
    run := Extend(HeadsFirst, run, Alone([one, two], 2, map[1 := HeadOf(two)], held));
  }

  /** The other shape: an author whose first head lands and is filed after the listing is reported as
      served nothing. */
  lemma FirstHeadAccuses() returns (run: seq<World>)
    ensures Run(HeadsFirst, run)
    ensures var w := run[|run| - 1];
            && 1 in w.writers && HeadsRead(w.reader) && 1 !in w.reader.heads && 1 in w.file
            && Regressed(w.file[1], ServedTo(w.reader, 1))
  {
    var one := Example(1);
    var idle := FRESH_READER;
    var loaded := idle.(marks := Some(map[]));
    var listed := loaded.(listed := Some({}));
    ListsNobody(idle, loaded, listed);
    AppendStep(HeadsFirst, [], 0, one, map[], listed);
    PublishStep(HeadsFirst, [one], 0, map[], listed);
    RememberStep([one], listed);
    assert [] + [one] == [one];
    run := [Alone([], 0, map[], idle)];
    run := Extend(HeadsFirst, run, Alone([], 0, map[], loaded));
    run := Extend(HeadsFirst, run, Alone([], 0, map[], listed));
    run := Extend(HeadsFirst, run, Alone([one], 0, map[], listed));
    run := Extend(HeadsFirst, run, Alone([one], 1, map[], listed));
    run := Extend(HeadsFirst, run, Alone([one], 1, map[1 := HeadOf(one)], listed));
  }

  lemma ListsNobody(idle: Reader, loaded: Reader, listed: Reader)
    requires idle == FRESH_READER && loaded == idle.(marks := Some(map[])) && listed == loaded.(listed := Some({}))
    ensures Step(HeadsFirst, Alone([], 0, map[], idle), Alone([], 0, map[], loaded))
    ensures Step(HeadsFirst, Alone([], 0, map[], loaded), Alone([], 0, map[], listed))
  {
    var a := Alone([], 0, map[], loaded);
    assert LoadMarks(Alone([], 0, map[], idle), a);
    assert Publishers(a.writers) == {};
    assert ListHeads(HeadsFirst, a, Alone([], 0, map[], listed));
  }

  lemma HeadIsRead(one: Op) returns (run: seq<World>, held: Reader)
    requires Mints(Writer([], 0, None), 1, one)
    ensures Run(HeadsFirst, run) && run[|run| - 1] == Alone([one], 1, map[], held)
    ensures !Listing(held) && HeadsRead(held) && held.heads == map[1 := HeadOf(one)]
  {
    var idle := FRESH_READER;
    var loaded := idle.(marks := Some(map[]));
    var listed := loaded.(listed := Some({1}));
    held := listed.(heads := map[1 := HeadOf(one)]);
    AppendStep(HeadsFirst, [], 0, one, map[], idle);
    PublishStep(HeadsFirst, [one], 0, map[], idle);
    ReadSteps([one], idle, loaded, listed, held);
    assert [] + [one] == [one];
    run := [Alone([], 0, map[], idle)];
    run := Extend(HeadsFirst, run, Alone([one], 0, map[], idle));
    run := Extend(HeadsFirst, run, Alone([one], 1, map[], idle));
    run := Extend(HeadsFirst, run, Alone([one], 1, map[], loaded));
    run := Extend(HeadsFirst, run, Alone([one], 1, map[], listed));
    run := Extend(HeadsFirst, run, Alone([one], 1, map[], held));
  }

  lemma Extend(order: ReadOrder, run: seq<World>, v: World) returns (longer: seq<World>)
    requires Run(order, run) && Step(order, run[|run| - 1], v)
    ensures Run(order, longer) && longer[|longer| - 1] == v
  {
    longer := run + [v];
  }

  /** The world of one author, with nothing left to reclaim. */
  function Alone(chain: seq<Op>, published: nat, file: Marks, r: Reader): World {
    World(map[1 := Writer(chain, published, None)], file, r)
  }

  lemma AppendStep(order: ReadOrder, chain: seq<Op>, published: nat, op: Op, file: Marks, r: Reader)
    requires Mints(Writer(chain, published, None), 1, op) && !Listing(r)
    ensures Step(order, Alone(chain, published, file, r), Alone(chain + [op], published, file, r))
  {
    var w, v := Alone(chain, published, file, r), Alone(chain + [op], published, file, r);
    assert v.writers == w.writers[1 := Writer(chain + [op], published, None)];
    assert Append(w, v, 1, op) && WriterStep(w, v, 1);
  }

  lemma PublishStep(order: ReadOrder, chain: seq<Op>, published: nat, file: Marks, r: Reader)
    requires chain != []
    ensures Step(order, Alone(chain, published, file, r), Alone(chain, |chain|, file, r))
  {
    var w, v := Alone(chain, published, file, r), Alone(chain, |chain|, file, r);
    assert v.writers == w.writers[1 := Writer(chain, |chain|, None)];
    assert Publish(w, v, 1) && WriterStep(w, v, 1);
  }

  lemma RememberStep(chain: seq<Op>, r: Reader)
    requires chain != []
    ensures Step(HeadsFirst, Alone(chain, |chain|, map[], r),
            Alone(chain, |chain|, map[1 := HeadOf(chain[|chain| - 1])], r))
  {
    var w, v := Alone(chain, |chain|, map[], r), Alone(chain, |chain|, map[1 := HeadOf(chain[|chain| - 1])], r);
    assert Remembers(w, v, 1, |chain|) && WriterStep(w, v, 1);
  }

  lemma ReadSteps(chain: seq<Op>, idle: Reader, loaded: Reader, listed: Reader, held: Reader)
    requires chain != [] && idle == FRESH_READER && loaded == idle.(marks := Some(map[]))
             && listed == loaded.(listed := Some({1}))
    requires held == listed.(heads := map[1 := HeadOf(chain[|chain| - 1])])
    ensures Step(HeadsFirst, Alone(chain, |chain|, map[], idle), Alone(chain, |chain|, map[], loaded))
    ensures Step(HeadsFirst, Alone(chain, |chain|, map[], loaded), Alone(chain, |chain|, map[], listed))
    ensures Step(HeadsFirst, Alone(chain, |chain|, map[], listed), Alone(chain, |chain|, map[], held))
  {
    var a, b := Alone(chain, |chain|, map[], loaded), Alone(chain, |chain|, map[], listed);
    assert LoadMarks(Alone(chain, |chain|, map[], idle), a);
    assert Publishers(a.writers) == {1};
    assert ListHeads(HeadsFirst, a, b);
    assert GetHead(b, Alone(chain, |chain|, map[], held), 1);
  }

  // ---------------------------------------------------------------- what a listing may return

  lemma InBucket(w: World, x: Op)
    requires Invariant(w)
    ensures x in Bucket(w.writers) <==> x.authorKey in w.writers && x in Objects(w.writers[x.authorKey])
  {
    if x in Bucket(w.writers) {
      var a :| a in w.writers && x in Objects(w.writers[a]);
      assert AuthorInvariant(w, a);
      OwnObjects(a, w.writers[a]);
    }
  }

  lemma StrayIsNew(a: AuthorKey, w: Writer)
    requires GoodWriter(a, w) && w.stray.Some?
    ensures w.stray.value !in w.chain
  {
    forall i | 0 <= i < |w.chain| ensures w.chain[i] != w.stray.value {
      assert LinkAt(a, w.chain, i) && LinkAt(a, w.chain, |w.chain| - 1);
    }
  }

  /** One writer's step: the object it adds or takes away, and nothing else. */
  lemma WriterObjects(w: World, v: World, a: AuthorKey)
    requires Invariant(w) && WriterStep(w, v, a)
    ensures a in w.writers && a in v.writers && v.writers == w.writers[a := v.writers[a]]
    ensures var old_, new_ := Objects(w.writers[a]), Objects(v.writers[a]);
            || (old_ == new_ && v.reader == w.reader)
            || (exists op :: new_ == old_ + {op} && v.reader == Lands(w.reader, op))
            || (exists op :: op in old_ && new_ == old_ - {op} && v.reader == Vanishes(w.reader, op))
  {
    assert AuthorInvariant(w, a);
    var x, y := w.writers[a], v.writers[a];
    if exists op :: Append(w, v, a, op) {
      var op :| Append(w, v, a, op);
      assert Objects(y) == Objects(x) + {op};
    } else if exists op :: AppendFails(w, v, a, op) {
      var op :| AppendFails(w, v, a, op);
      assert Objects(y) == Objects(x) + {op};
    } else if Reclaim(w, v, a) {
      StrayIsNew(a, x);
      assert Objects(y) == Objects(x) - {x.stray.value};
    }
  }

  /** The bucket after a step of `a`: only the objects of `a` can differ. */
  lemma BucketMoves(w: World, v: World, a: AuthorKey, x: Op)
    requires Invariant(w) && Invariant(v) && WriterStep(w, v, a)
    requires a in w.writers && a in v.writers && v.writers == w.writers[a := v.writers[a]]
    ensures x in Objects(w.writers[a]) || x in Objects(v.writers[a]) ==> x.authorKey == a
    ensures x.authorKey == a ==> (x in Bucket(w.writers) <==> x in Objects(w.writers[a]))
    ensures x in Bucket(v.writers) <==>
            if x.authorKey == a then x in Objects(v.writers[a]) else x in Bucket(w.writers)
  {
    InBucket(w, x);
    InBucket(v, x);
    assert AuthorInvariant(w, a) && AuthorInvariant(v, a);
    OwnObjects(a, w.writers[a]);
    OwnObjects(a, v.writers[a]);
  }

  /** The listing must return nothing that is not there now and may return all that is. */
  ghost predicate Spans(w: World) { w.reader.must <= Bucket(w.writers) <= w.reader.may }

  /** A step during a listing: whatever then is not in the bucket need not be returned, and whatever
      then is in it may be. */
  lemma WriterSpans(w: World, v: World, a: AuthorKey, x: Op)
    requires Invariant(w) && Invariant(v) && WriterStep(w, v, a) && Listing(w.reader) && Spans(w)
    ensures x in v.reader.must <==> x in w.reader.must && x in Bucket(v.writers)
    ensures x in v.reader.may <==> x in w.reader.may || x in Bucket(v.writers)
  {
    WriterObjects(w, v, a);
    BucketMoves(w, v, a, x);
    var before, after := Objects(w.writers[a]), Objects(v.writers[a]);
    if before == after && v.reader == w.reader {
    } else if exists op :: after == before + {op} && v.reader == Lands(w.reader, op) {
      var op :| after == before + {op} && v.reader == Lands(w.reader, op);
      assert op in after;
      BucketMoves(w, v, a, op);
    } else {
      var op :| op in before && after == before - {op} && v.reader == Vanishes(w.reader, op);
      BucketMoves(w, v, a, op);
    }
  }

  lemma ListingStep(w: World, v: World, x: Op)
    requires Invariant(w) && Invariant(v) && Step(HeadsFirst, w, v) && Listing(w.reader) && Listing(v.reader)
    requires Spans(w)
    ensures x in v.reader.must <==> x in w.reader.must && x in Bucket(v.writers)
    ensures x in v.reader.may <==> x in w.reader.may || x in Bucket(v.writers)
  {
    if exists a :: WriterStep(w, v, a) {
      var a :| WriterStep(w, v, a);
      WriterSpans(w, v, a, x);
    }
  }

  lemma SpansStep(w: World, v: World)
    requires Invariant(w) && Invariant(v) && Step(HeadsFirst, w, v) && Listing(w.reader) && Listing(v.reader)
    requires Spans(w)
    ensures Spans(v)
  {
    forall x ensures x in v.reader.must ==> x in Bucket(v.writers) { ListingStep(w, v, x); }
    forall x ensures x in Bucket(v.writers) ==> x in v.reader.may { ListingStep(w, v, x); }
  }

  ghost predicate ListsFrom(run: seq<World>, i: nat, j: nat) {
    && i < j < |run| && run[i].reader.begun == None
    && forall k :: i < k <= j ==> run[k].reader.begun.Some? && run[k].reader.seen == None
  }

  lemma RunHolds(run: seq<World>, k: nat)
    requires Run(HeadsFirst, run) && k < |run|
    ensures Invariant(run[k])
  {
    RunKeeps(run[..k + 1]);
  }

  lemma ListingBegins(run: seq<World>, i: nat)
    requires Run(HeadsFirst, run) && ListsFrom(run, i, i + 1)
    ensures run[i + 1].reader.must == run[i + 1].reader.may == Bucket(run[i + 1].writers)
  {
    assert Step(HeadsFirst, run[i], run[i + 1]);
    var w, v := run[i], run[i + 1];
    if exists a :: WriterStep(w, v, a) {
      var a :| WriterStep(w, v, a);
      RunHolds(run, i);
      WriterObjects(w, v, a);
    }
  }

  lemma {:induction false} ListingHolds(run: seq<World>, i: nat, j: nat)
    requires Run(HeadsFirst, run) && ListsFrom(run, i, j)
    ensures Spans(run[j])
    decreases j
  {
    if i == j - 1 {
      ListingBegins(run, i);
    } else {
      assert Step(HeadsFirst, run[j - 1], run[j]);
      ListingHolds(run, i, j - 1);
      RunHolds(run, j - 1);
      RunHolds(run, j);
      SpansStep(run[j - 1], run[j]);
    }
  }

  lemma ListingSpansOn(run: seq<World>, i: nat, j: nat, x: Op)
    requires Run(HeadsFirst, run) && j + 1 < |run| && ListsFrom(run, i, j) && ListsFrom(run, i, j + 1)
    ensures x in run[j + 1].reader.must <==> x in run[j].reader.must && x in Bucket(run[j + 1].writers)
    ensures x in run[j + 1].reader.may <==> x in run[j].reader.may || x in Bucket(run[j + 1].writers)
  {
    ListingHolds(run, i, j);
    RunHolds(run, j);
    RunHolds(run, j + 1);
    ListingStep(run[j], run[j + 1], x);
  }

  /** After step `i`, up to `j`, the object was always there. */
  ghost predicate Throughout(run: seq<World>, i: nat, j: nat, x: Op)
    requires j < |run|
  {
    forall k :: i < k <= j ==> x in Bucket(run[k].writers)
  }

  ghost predicate Sometime(run: seq<World>, i: nat, j: nat, x: Op)
    requires j < |run|
  {
    exists k :: i < k <= j && x in Bucket(run[k].writers)
  }

  lemma SpanGrows(run: seq<World>, i: nat, j: nat, x: Op)
    requires i <= j && j + 1 < |run|
    ensures Throughout(run, i, j + 1, x) <==> Throughout(run, i, j, x) && x in Bucket(run[j + 1].writers)
    ensures Sometime(run, i, j + 1, x) <==> Sometime(run, i, j, x) || x in Bucket(run[j + 1].writers)
  {
  }

  /** In every run, while the op listing that began at step `i` is under way: it must return exactly the
      objects that were there at every moment since, and may return exactly those that were there at some. */
  lemma {:induction false} ListingSpans(run: seq<World>, i: nat, j: nat, x: Op)
    requires Run(HeadsFirst, run) && ListsFrom(run, i, j)
    ensures x in run[j].reader.must <==> Throughout(run, i, j, x)
    ensures x in run[j].reader.may <==> Sometime(run, i, j, x)
    decreases j
  {
    SpanGrows(run, i, j - 1, x);
    if i == j - 1 {
      ListingBegins(run, i);
    } else {
      ListingSpans(run, i, j - 1, x);
      ListingSpansOn(run, i, j - 1, x);
    }
  }
}
