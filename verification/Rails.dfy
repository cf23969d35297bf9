/** Deleting a quarantined object while the bucket is in use: two verified reads, a fresh listing and
    the delete, each at its own moment (`oplog/store.rs`). */
module RemovalRails {
  import opened OpLog
  import opened AuthorChain
  import opened Quarantine
  import opened Inspection

  /** An op object's key ends in the key of the author whose append made it. */
  datatype ObjectKey = ObjectKey(slot: nat, author: AuthorKey)

  type Bucket = map<ObjectKey, Op>

  /** The bucket at successive moments, until the delete. */
  type History = seq<Bucket>

  function Mine(w: Bucket, a: AuthorKey): Bucket { map k | k in w && k.author == a :: w[k] }

  function KeysOf(keys: set<ObjectKey>, a: AuthorKey): set<ObjectKey> { set k | k in keys && k.author == a }

  // ---------------------------------------------------------------- the command

  /** A listing, which may lag and need not show one moment: it has what was there throughout its span,
      and nothing that was not there at some moment of it. */
  ghost predicate Lists(h: History, from: nat, to: nat, keys: set<ObjectKey>) {
    && from <= to < |h|
    && (forall k :: Throughout(h, from, to, k) ==> k in keys)
    && (forall k :: k in keys ==> Sometime(h, from, to, k))
  }

  ghost predicate Throughout(h: History, from: nat, to: nat, k: ObjectKey)
    requires to < |h|
  {
    forall t :: from <= t <= to ==> k in h[t]
  }

  ghost predicate Sometime(h: History, from: nat, to: nat, k: ObjectKey)
    requires to < |h|
  {
    exists t :: from <= t <= to && k in h[t]
  }

  /** One read: the span of its listing, and its end. */
  datatype Span = Span(from: nat, to: nat, end: nat)

  /** A strict read: the keys of one listing, each object fetched at some moment up to the end of the
      read or kept from an earlier read. The candidate's own bytes are fetched anew. */
  ghost predicate Reads(h: History, s: Span, key: ObjectKey, view: Bucket) {
    && Lists(h, s.from, s.to, view.Keys) && s.to <= s.end < |h|
    && forall k :: k in view ==> Fetched(h, if k == key then s.from else 0, s.end, k, view[k])
  }

  ghost predicate Fetched(h: History, from: nat, end: nat, k: ObjectKey, op: Op)
    requires end < |h|
  {
    exists t :: from <= t <= end && k in h[t] && h[t][k] == op
  }

  /** `removable_drop`: the object is a dropped fork loser that no listed op of its author names. */
  ghost predicate Verdict(view: Bucket, key: ObjectKey) {
    key in view && exists kept ::
      && Selects(AuthorOps(view.Values, view[key].authorKey), GENESIS_PREV, kept)
      && Removable(AuthorOps(view.Values, view[key].authorKey), kept, view[key])
  }

  /** When one removal happens: its two reads, and the span of the fresh listing. */
  datatype Moments = Moments(first: Span, second: Span, checkFrom: nat, checkTo: nat)

  ghost predicate Performs(h: History, m: Moments, key: ObjectKey, first: Bucket, second: Bucket,
                           listing: set<ObjectKey>) {
    Reads(h, m.first, key, first) && Reads(h, m.second, key, second) && Lists(h, m.checkFrom, m.checkTo, listing)
  }

  /** `remove_quarantined_op` goes on to delete: both reads give the verdict, on the same op, and the
      author's listing is the one the second verdict was computed from. */
  ghost predicate Allowed(key: ObjectKey, first: Bucket, second: Bucket, listing: set<ObjectKey>) {
    && Verdict(first, key) && Verdict(second, key) && first[key].digest == second[key].digest
    && KeysOf(listing, second[key].authorKey) == KeysOf(second.Keys, second[key].authorKey)
  }

  /** From moment `s` on, the object at `key` is no longer the one with digest `d`. */
  ghost predicate SwappedAt(h: History, s: nat, key: ObjectKey, d: Digest) {
    && (forall t :: 0 <= t < s && t < |h| && key in h[t] ==> h[t][key].digest == d)
    && (forall t :: s <= t < |h| && key in h[t] ==> h[t][key].digest != d)
  }

  /** Over any history, whatever is done to the bucket: bytes swapped between the two reads are refused,
      because the candidate is fetched anew. */
  lemma SwapRefuses(h: History, m: Moments, key: ObjectKey, first: Bucket, second: Bucket,
                    listing: set<ObjectKey>, s: nat, d: Digest)
    requires Performs(h, m, key, first, second, listing)
    requires m.first.end < s <= m.second.from && SwappedAt(h, s, key, d)
    ensures !Allowed(key, first, second, listing)
  {
    if key in first && key in second {
      assert Fetched(h, m.first.from, m.first.end, key, first[key]);
      assert Fetched(h, m.second.from, m.second.end, key, second[key]);
      assert first[key].digest == d && second[key].digest != d;
    }
  }

  /** So is a key of the author that is there, or gone, all through the fresh listing and was not, or
      was, in the second read. */
  lemma MovedListingRefuses(h: History, m: Moments, key: ObjectKey, first: Bucket, second: Bucket,
                            listing: set<ObjectKey>, k: ObjectKey)
    requires Performs(h, m, key, first, second, listing) && key in second && k.author == second[key].authorKey
    requires if k in second then !Sometime(h, m.checkFrom, m.checkTo, k) else Throughout(h, m.checkFrom, m.checkTo, k)
    ensures !Allowed(key, first, second, listing)
  {
    assert k in KeysOf(second.Keys, k.author) <==> k !in KeysOf(listing, k.author);
  }

  // ---------------------------------------------------------------- an honest author

  /** The ops of `a` are at keys of `a`, each at one. */
  ghost predicate OwnKeys(w: Bucket, a: AuthorKey) {
    && (forall k :: k in w ==> (k.author == a <==> w[k].authorKey == a))
    && (forall j, k :: j in w && k in w && w[j].authorKey == a && w[j] == w[k] ==> j == k)
  }

  /** Whatever happens to other objects, those of `a` are only ever added. */
  ghost predicate Appending(h: History, a: AuthorKey) {
    && (forall t :: 0 <= t < |h| ==> OwnKeys(h[t], a))
    && (forall t: nat :: t < |h| - 1 ==> KeepsNext(h, t, a))
  }

  ghost predicate KeepsNext(h: History, t: nat, a: AuthorKey)
    requires t < |h| - 1
  {
    Keeps(h[t], h[t + 1], a)
  }

  ghost predicate Keeps(w: Bucket, v: Bucket, a: AuthorKey) {
    forall k :: k in w && k.author == a ==> k in v && v[k] == w[k]
  }

  lemma {:induction false} KeepsOver(h: History, a: AuthorKey, s: nat, t: nat)
    requires Appending(h, a) && s <= t < |h|
    ensures Keeps(h[s], h[t], a)
    decreases t
  {
    if s < t {
      KeepsOver(h, a, s, t - 1);
      assert KeepsNext(h, t - 1, a);
    }
  }

  /** At any moment that has the object, it is the same. */
  lemma OneObject(h: History, a: AuthorKey, s: nat, t: nat, k: ObjectKey)
    requires Appending(h, a) && s < |h| && t < |h| && k.author == a && k in h[s] && k in h[t]
    ensures h[s][k] == h[t][k]
  {
    if s <= t { KeepsOver(h, a, s, t); } else { KeepsOver(h, a, t, s); }
  }

  lemma FetchedStays(h: History, a: AuthorKey, end: nat, k: ObjectKey, op: Op)
    requires Appending(h, a) && end < |h| && Fetched(h, 0, end, k, op)
    ensures k.author == a <==> op.authorKey == a
    ensures k.author == a ==> k in h[|h| - 1] && h[|h| - 1][k] == op
  {
    var t :| 0 <= t <= end && k in h[t] && h[t][k] == op;
    assert OwnKeys(h[t], a);
    KeepsOver(h, a, t, |h| - 1);
  }

  /** What a read shows of the author was fetched whole and is still there at the end. */
  lemma ViewKeeps(h: History, s: Span, key: ObjectKey, view: Bucket, a: AuthorKey)
    requires Appending(h, a) && Reads(h, s, key, view)
    ensures OwnKeys(view, a) && Keeps(view, h[|h| - 1], a)
  {
    forall k | k in view
      ensures k.author == a <==> view[k].authorKey == a
      ensures k.author == a ==> k in h[|h| - 1] && h[|h| - 1][k] == view[k]
    {
      assert Fetched(h, 0, s.end, k, view[k]);
      FetchedStays(h, a, s.end, k, view[k]);
    }
    SubOwnKeys(view, h[|h| - 1], a);
  }

  lemma SubOwnKeys(view: Bucket, w: Bucket, a: AuthorKey)
    requires Keeps(view, w, a) && OwnKeys(w, a) && forall k :: k in view ==> (k.author == a <==> view[k].authorKey == a)
    ensures OwnKeys(view, a)
  {
    forall j, k | j in view && k in view && view[j].authorKey == a && view[j] == view[k] ensures j == k {
      assert w[j] == view[j] && w[k] == view[k];
    }
  }

  /** A read whose listing does not lag shows the author's part of the bucket at that moment. */
  lemma ReadIsListing(h: History, s: Span, key: ObjectKey, view: Bucket, a: AuthorKey)
    requires Appending(h, a) && Reads(h, s, key, view) && s.from == s.to
    ensures Mine(view, a) == Mine(h[s.from], a) && OwnKeys(view, a)
    ensures AuthorOps(view.Values, a) == AuthorOps(h[s.from].Values, a)
  {
    ViewKeeps(h, s, key, view, a);
    ListsMoment(h, s.from, view.Keys);
    KeepsOver(h, a, s.from, |h| - 1);
    assert OwnKeys(h[s.from], a);
    forall k | k in view && k.author == a ensures view[k] == h[s.from][k] { }
    SameMine(view, h[s.from], a);
  }

  lemma ListsMoment(h: History, t: nat, keys: set<ObjectKey>)
    requires Lists(h, t, t, keys)
    ensures keys == h[t].Keys
  {
    forall k | k in h[t] ensures k in keys { assert Throughout(h, t, t, k); }
    forall k | k in keys ensures k in h[t] { assert Sometime(h, t, t, k); }
  }

  lemma SameMine(w: Bucket, v: Bucket, a: AuthorKey)
    requires w.Keys == v.Keys && OwnKeys(w, a) && OwnKeys(v, a)
    requires forall k :: k in w && k.author == a ==> w[k] == v[k]
    ensures Mine(w, a) == Mine(v, a) && AuthorOps(w.Values, a) == AuthorOps(v.Values, a)
  {
    MineOps(w, a);
    MineOps(v, a);
  }

  lemma MineOps(w: Bucket, a: AuthorKey)
    requires forall k :: k in w ==> (k.author == a <==> w[k].authorKey == a)
    ensures Mine(w, a).Values == AuthorOps(w.Values, a)
  {
    forall op | op in AuthorOps(w.Values, a) ensures op in Mine(w, a).Values {
      var k :| k in w && w[k] == op;
      assert Mine(w, a)[k] == op;
    }
    forall op | op in Mine(w, a).Values ensures op in AuthorOps(w.Values, a) {
      var k :| k in Mine(w, a) && Mine(w, a)[k] == op;
      assert w[k] == op;
    }
  }

  /** No listing lags, and the fresh one follows the second. */
  ghost predicate Prompt(m: Moments) {
    m.first.from == m.first.to && m.second.from == m.second.to <= m.checkFrom == m.checkTo
  }

  /** With an honest author and prompt listings the rails pass if and only if the object is removable in
      the bucket of both reads and no object of the author landed between the second and the fresh one. */
  lemma AllowedIff(h: History, m: Moments, key: ObjectKey, first: Bucket, second: Bucket, listing: set<ObjectKey>)
    requires Performs(h, m, key, first, second, listing) && Appending(h, key.author) && Prompt(m)
    ensures Allowed(key, first, second, listing) <==>
            && Verdict(h[m.first.from], key) && Verdict(h[m.second.from], key)
            && Mine(h[m.checkFrom], key.author) == Mine(h[m.second.from], key.author)
  {
    var a := key.author;
    ReadIsListing(h, m.first, key, first, a);
    ReadIsListing(h, m.second, key, second, a);
    ListsMoment(h, m.checkFrom, listing);
    ListsMoment(h, m.second.from, second.Keys);
    assert OwnKeys(h[m.first.from], a) && OwnKeys(h[m.second.from], a);
    SameVerdict(first, h[m.first.from], key);
    SameVerdict(second, h[m.second.from], key);
    KeepsOver(h, a, m.second.from, m.checkFrom);
    SameKeys(h[m.second.from], h[m.checkFrom], a);
    if key in first && key in second { OneObject(h, a, m.first.from, m.second.from, key); }
    if key in second { assert second[key].authorKey == a; }
  }

  /** Where objects are only added, equal listings mean equal objects. */
  lemma SameKeys(w: Bucket, v: Bucket, a: AuthorKey)
    requires Keeps(w, v, a)
    ensures KeysOf(w.Keys, a) == KeysOf(v.Keys, a) <==> Mine(w, a) == Mine(v, a)
  {
    assert Mine(w, a).Keys == KeysOf(w.Keys, a) && Mine(v, a).Keys == KeysOf(v.Keys, a);
    if KeysOf(w.Keys, a) == KeysOf(v.Keys, a) {
      forall k | k in Mine(w, a) ensures Mine(w, a)[k] == Mine(v, a)[k] { assert k in w && k.author == a; }
    }
  }

  lemma SameVerdict(view: Bucket, w: Bucket, key: ObjectKey)
    requires Mine(view, key.author) == Mine(w, key.author) && OwnKeys(view, key.author) && OwnKeys(w, key.author)
    requires AuthorOps(view.Values, key.author) == AuthorOps(w.Values, key.author)
    ensures Verdict(view, key) <==> Verdict(w, key)
    ensures key in view <==> key in w
    ensures key in view ==> view[key] == w[key]
  {
    assert key in view <==> key in Mine(view, key.author);
    assert key in w <==> key in Mine(w, key.author);
    if key in view { assert Mine(view, key.author)[key] == view[key] && Mine(w, key.author)[key] == w[key]; }
  }

  // ---------------------------------------------------------------- the delete

  /** A path to an op that was rooted before is made of ops that were there before. */
  lemma {:induction false} PathWasThere(less: set<Op>, more: set<Op>, path: seq<Op>, i: nat, depth: Digest -> nat)
    requires less <= more && DigestsIdentify(more) && Acyclic(more, depth) && Linked(more, GENESIS_PREV, path)
    requires i < |path| && path[i] in less && Rooted(less, path[i])
    ensures forall k :: 0 <= k <= i ==> path[k] in less
    decreases i
  {
    if i > 0 {
      PathLinks(more, GENESIS_PREV, path, i);
      PathDeepens(more, GENESIS_PREV, path, depth, i - 1, i);
      RootedByParent(less, path[i]);
      var parent :| parent in less && parent.digest == path[i].prev && Rooted(less, parent);
      PathMember(more, GENESIS_PREV, path, i - 1);
      assert parent == path[i - 1];
      PathWasThere(less, more, path, i - 1, depth);
    }
  }

  lemma {:induction false} PathMember(ops: set<Op>, d: Digest, path: seq<Op>, i: nat)
    requires Linked(ops, d, path) && i < |path|
    ensures path[i] in ops
    decreases |path|
  {
    if i > 0 { PathMember(ops, path[0].digest, path[1..], i - 1); }
  }

  lemma NextNames(ops: set<Op>, path: seq<Op>, i: nat)
    requires Linked(ops, GENESIS_PREV, path) && i < |path| - 1
    ensures Children(ops, path[i].digest) != {}
  {
    PathLinks(ops, GENESIS_PREV, path, i + 1);
    PathMember(ops, GENESIS_PREV, path, i + 1);
    assert path[i + 1] in Children(ops, path[i].digest);
  }

  /** Once dropped, an op that nothing names is not selected again, whatever else is appended. */
  lemma LoserStaysOut(less: set<Op>, more: set<Op>, kept: seq<Op>, now: seq<Op>, x: Op, depth: Digest -> nat)
    requires less <= more && DigestsIdentify(more) && Acyclic(more, depth)
    requires Selects(less, GENESIS_PREV, kept) && Selects(more, GENESIS_PREV, now)
    requires Removable(less, kept, x) && Children(more, x.digest) == {}
    ensures x !in now
  {
    if x in now {
      SelectionIsLinked(more, GENESIS_PREV, now);
      var i :| 0 <= i < |now| && now[i] == x;
      if i < |now| - 1 {
        NextNames(more, now, i);
        assert false;
      }
      PathWasThere(less, more, now, i, depth);
      LossKeepsSelection(more, less, GENESIS_PREV, now);
      SelectionIsUnique(less, GENESIS_PREV, kept, now);
    }
  }

  /** The delete costs the author nothing but the object: the kept branch and every other class stay. */
  ghost predicate Harmless(w: Bucket, key: ObjectKey, a: AuthorKey, kept: seq<Op>) {
    var mine, after := AuthorOps(w.Values, a), AuthorOps((w - {key}).Values, a);
    && Selects(after, GENESIS_PREV, kept)
    && forall o :: o in after ==> ClassOf(after, o) == ClassOf(mine, o)
  }

  lemma WithoutKey(w: Bucket, key: ObjectKey, a: AuthorKey)
    requires OwnKeys(w, a) && key in w && key.author == a
    ensures AuthorOps((w - {key}).Values, a) == AuthorOps(w.Values, a) - {w[key]}
  {
    var less := w - {key};
    forall o | o in AuthorOps(w.Values, a) - {w[key]} ensures o in less.Values {
      var k :| k in w && w[k] == o;
      assert k in less && less[k] == o;
    }
    forall o | o in AuthorOps(less.Values, a) ensures o in AuthorOps(w.Values, a) - {w[key]} {
      var k :| k in less && less[k] == o;
      assert k in w && w[k] == o && k != key;
    }
  }

  /** The residual window, exactly. The rails passed, with listings that may have lagged; appends of any
      authors have gone on until the delete. Then the delete is harmless if and only if no op there names
      the deleted one, and such an op can only have landed after the fresh listing's span began. */
  lemma RemovalIsSafeIff(h: History, m: Moments, key: ObjectKey, first: Bucket, second: Bucket,
                         listing: set<ObjectKey>, kept: seq<Op>, depth: Digest -> nat)
    requires Performs(h, m, key, first, second, listing) && Appending(h, key.author)
    requires Allowed(key, first, second, listing)
    requires var mine := AuthorOps(h[|h| - 1].Values, key.author);
             DigestsIdentify(mine) && Acyclic(mine, depth) && Selects(mine, GENESIS_PREV, kept)
    ensures var w, a := h[|h| - 1], key.author;
            && key in w && w[key] == second[key]
            && (Harmless(w, key, a, kept) <==> forall k :: k in w && w[k].authorKey == a ==> w[k].prev != w[key].digest)
            && (forall k :: k in w && w[k].authorKey == a && w[k].prev == w[key].digest ==> k !in h[m.checkFrom])
  {
    ViewKeeps(h, m.second, key, second, key.author);
    assert OwnKeys(h[|h| - 1], key.author);
    HarmlessIff(second, h[|h| - 1], key, kept, depth);
    LandedLate(h, m, key, second, listing);
  }

  lemma HarmlessIff(listed: Bucket, w: Bucket, key: ObjectKey, kept: seq<Op>, depth: Digest -> nat)
    requires Verdict(listed, key) && OwnKeys(listed, key.author) && OwnKeys(w, key.author)
             && Keeps(listed, w, key.author)
    requires var mine := AuthorOps(w.Values, key.author);
             DigestsIdentify(mine) && Acyclic(mine, depth) && Selects(mine, GENESIS_PREV, kept)
    ensures Harmless(w, key, key.author, kept) <==>
            forall k :: k in w && w[k].authorKey == key.author ==> w[k].prev != w[key].digest
  {
    var a := key.author;
    MoreOps(listed, w, a);
    VerdictIs(listed, key);
    DeleteIsSafeIff(AuthorOps(listed.Values, a), AuthorOps(w.Values, a), w[key], kept, depth);
    WithoutKey(w, key, a);
    NamedIff(w, a, w[key].digest);
  }

  lemma VerdictIs(w: Bucket, key: ObjectKey)
    requires Verdict(w, key) && OwnKeys(w, key.author)
    ensures exists was :: Selects(AuthorOps(w.Values, key.author), GENESIS_PREV, was)
                          && Removable(AuthorOps(w.Values, key.author), was, w[key])
  {
    assert w[key].authorKey == key.author;
  }

  lemma MoreOps(w: Bucket, v: Bucket, a: AuthorKey)
    requires OwnKeys(w, a) && Keeps(w, v, a)
    ensures AuthorOps(w.Values, a) <= AuthorOps(v.Values, a)
  {
    forall op | op in AuthorOps(w.Values, a) ensures op in v.Values {
      var k :| k in w && w[k] == op;
      assert v[k] == op;
    }
  }

  lemma NamedIff(w: Bucket, a: AuthorKey, d: Digest)
    ensures Children(AuthorOps(w.Values, a), d) == {} <==> forall k :: k in w && w[k].authorKey == a ==> w[k].prev != d
  {
    forall k | k in w && w[k].authorKey == a && w[k].prev == d ensures Children(AuthorOps(w.Values, a), d) != {} {
      assert w[k] in Children(AuthorOps(w.Values, a), d);
    }
    forall op | op in Children(AuthorOps(w.Values, a), d)
      ensures exists k :: k in w && w[k].authorKey == a && w[k].prev == d
    {
      var k :| k in w && w[k] == op;
    }
  }

  /** An op that names the candidate was not there when the fresh listing's span began. */
  lemma LandedLate(h: History, m: Moments, key: ObjectKey, second: Bucket, listing: set<ObjectKey>)
    requires Appending(h, key.author) && Reads(h, m.second, key, second) && Verdict(second, key)
    requires Lists(h, m.checkFrom, m.checkTo, listing) && key in h[|h| - 1] && h[|h| - 1][key] == second[key]
    requires KeysOf(listing, second[key].authorKey) == KeysOf(second.Keys, second[key].authorKey)
    ensures var w, a := h[|h| - 1], key.author;
            forall k :: k in w && w[k].authorKey == a && w[k].prev == w[key].digest ==> k !in h[m.checkFrom]
  {
    var w, a := h[|h| - 1], key.author;
    ViewKeeps(h, m.second, key, second, a);
    assert OwnKeys(w, a);
    forall k | k in w && w[k].authorKey == a && k in h[m.checkFrom] ensures w[k].prev != w[key].digest {
      StaysListed(h, m.checkFrom, m.checkTo, listing, k);
      assert k in KeysOf(listing, a);
      assert k in second;
      NamesNone(second, key, k);
    }
  }

  lemma StaysListed(h: History, from: nat, to: nat, listing: set<ObjectKey>, k: ObjectKey)
    requires Appending(h, k.author) && Lists(h, from, to, listing) && k in h[from]
    ensures k in listing
  {
    forall t | from <= t <= to ensures k in h[t] { KeepsOver(h, k.author, from, t); }
    assert Throughout(h, from, to, k);
  }

  lemma NamesNone(listed: Bucket, key: ObjectKey, k: ObjectKey)
    requires Verdict(listed, key) && OwnKeys(listed, key.author) && k in listed && k.author == key.author
    ensures listed[k].prev != listed[key].digest
  {
    NamedIff(listed, key.author, listed[key].digest);
  }

  /** Without any history: deleting an author's object is harmless if and only if its op is off the kept
      branch and, if it is rooted, no op there names it. */
  lemma DeletionIsHarmlessIff(w: Bucket, key: ObjectKey, kept: seq<Op>, depth: Digest -> nat)
    requires OwnKeys(w, key.author) && key in w
    requires var mine := AuthorOps(w.Values, key.author);
             DigestsIdentify(mine) && Acyclic(mine, depth) && Selects(mine, GENESIS_PREV, kept)
    ensures var mine := AuthorOps(w.Values, key.author);
            Harmless(w, key, key.author, kept) <==>
            w[key] !in kept && (Rooted(mine, w[key]) ==> Children(mine, w[key].digest) == {})
  {
    WithoutKey(w, key, key.author);
    LossIsHarmlessIff(AuthorOps(w.Values, key.author), w[key], kept, depth);
  }

  lemma LossIsHarmlessIff(ops: set<Op>, x: Op, kept: seq<Op>, depth: Digest -> nat)
    requires DigestsIdentify(ops) && Acyclic(ops, depth) && Selects(ops, GENESIS_PREV, kept) && x in ops
    ensures (Selects(ops - {x}, GENESIS_PREV, kept)
             && forall o :: o in ops - {x} ==> ClassOf(ops - {x}, o) == ClassOf(ops, o))
            <==> x !in kept && (Rooted(ops, x) ==> Children(ops, x.digest) == {})
  {
    var less := ops - {x};
    SelectionStays(ops, GENESIS_PREV, kept);
    if Selects(less, GENESIS_PREV, kept) { SelectionStays(less, GENESIS_PREV, kept); }
    if x !in kept { LossKeepsSelection(ops, less, GENESIS_PREV, kept); }
    if Rooted(ops, x) { RemovalStrands(ops, x, depth); } else {
      forall o | o in less ensures Rooted(less, o) <==> Rooted(ops, o) { UnrootedLoss(ops, x, o, depth); }
    }
  }

  lemma {:induction false} UnrootedLoss(ops: set<Op>, x: Op, o: Op, depth: Digest -> nat)
    requires Acyclic(ops, depth) && !Rooted(ops, x) && o in ops - {x}
    ensures Rooted(ops - {x}, o) <==> Rooted(ops, o)
    decreases depth(o.digest)
  {
    var less := ops - {x};
    RootedByParent(ops, o);
    RootedByParent(less, o);
    forall p | p in less && p.digest == o.prev ensures Rooted(less, p) <==> Rooted(ops, p) {
      UnrootedLoss(ops, x, p, depth);
    }
  }

  /** Over op sets: what was removable among fewer ops is safe to lose among more if and only if nothing
      names it there. */
  lemma DeleteIsSafeIff(less: set<Op>, more: set<Op>, x: Op, kept: seq<Op>, depth: Digest -> nat)
    requires less <= more && DigestsIdentify(more) && Acyclic(more, depth) && Selects(more, GENESIS_PREV, kept)
    requires exists was :: Selects(less, GENESIS_PREV, was) && Removable(less, was, x)
    ensures (Selects(more - {x}, GENESIS_PREV, kept) && forall o :: o in more - {x} ==>
            ClassOf(more - {x}, o) == ClassOf(more, o))
            <==> Children(more, x.digest) == {}
  {
    var was :| Selects(less, GENESIS_PREV, was) && Removable(less, was, x);
    RootedGrows(less, more, x, depth);
    RemovalStrands(more, x, depth);
    if Children(more, x.digest) == {} {
      LoserStaysOut(less, more, was, kept, x, depth);
      RemovableIsSafe(more, kept, x, depth);
    }
  }

  // ---------------------------------------------------------------- the window is real

  lemma LeafHeight(ops: set<Op>, d: Digest)
    requires Children(ops, d) == {}
    ensures IsHeight(ops, d, 0)
  {
    HeightStep(ops, d, 0);
  }

  /** Two roots without children: the earlier is kept and the later may be deleted. */
  lemma TwinRoots(ops: set<Op>, a: Op, b: Op)
    requires ops == {a, b} && a.prev == GENESIS_PREV && b.prev == GENESIS_PREV && Before(a, b)
    requires GENESIS_PREV != a.digest && GENESIS_PREV != b.digest
    ensures Selects(ops, GENESIS_PREV, [a]) && Removable(ops, [a], b)
  {
    assert Children(ops, a.digest) == {} && Children(ops, b.digest) == {};
    LeafHeight(ops, a.digest);
    LeafHeight(ops, b.digest);
    assert [a][1..] == [] && [b][1..] == [];
    assert Linked(ops, GENESIS_PREV, [b]);
    assert [b][|[b]| - 1] == b;
  }

  function Fork(n: nat, prev: Digest): Op { Op(n, "a", 1, n, 1, Remember, n, "k", n, prev, n) }

  lemma VerdictOnTwin(w: Bucket, key: ObjectKey, a: Op, b: Op)
    requires key in w && w[key] == b && w.Values == {a, b} && a.authorKey == b.authorKey
    requires a.prev == GENESIS_PREV && b.prev == GENESIS_PREV && Before(a, b)
    requires GENESIS_PREV != a.digest && GENESIS_PREV != b.digest
    ensures Verdict(w, key)
  {
    assert AuthorOps(w.Values, b.authorKey) == {a, b};
    TwinRoots({a, b}, a, b);
  }

  lemma TwoObjects(w: Bucket, j: ObjectKey, k: ObjectKey)
    requires w.Keys == {j, k}
    ensures w.Values == {w[j], w[k]}
  {
    assert j in w && k in w;
  }

  /** The rails can pass and a successor land before the delete. */
  lemma WindowExists()
    returns (h: History, m: Moments, key: ObjectKey, first: Bucket, second: Bucket, listing: set<ObjectKey>)
    ensures Performs(h, m, key, first, second, listing) && Prompt(m) && Appending(h, key.author)
    ensures Allowed(key, first, second, listing)
    ensures var w := h[|h| - 1];
            key in w && exists k :: k in w && w[k].authorKey == key.author && w[k].prev == w[key].digest
  {
    var a, b, c := Fork(1, GENESIS_PREV), Fork(2, GENESIS_PREV), Fork(3, 2);
    var ka, kb, kc := ObjectKey(1, 1), ObjectKey(2, 1), ObjectKey(3, 1);
    var w: Bucket := map[ka := a, kb := b];
    TwoObjects(w, ka, kb);
    VerdictOnTwin(w, kb, a, b);
    OneLater(w, kc, c);
    h, m, key := [w, w[kc := c]], Moments(Span(0, 0, 0), Span(0, 0, 0), 0, 0), kb;
    first, second, listing := w, w, w.Keys;
    ReadsAtOnce(h, 0, kb);
    assert w[kc := c][kc].prev == w[kc := c][kb].digest;
  }

  lemma OneLater(w: Bucket, k: ObjectKey, op: Op)
    requires OwnKeys(w, k.author) && k !in w && op !in w.Values && op.authorKey == k.author
    ensures Appending([w, w[k := op]], k.author)
  {
    var h := [w, w[k := op]];
    forall j | j in w ensures w[j] != op { assert w[j] in w.Values; }
    assert OwnKeys(h[1], k.author);
    assert KeepsNext(h, 0, k.author);
  }

  lemma ReadsAtOnce(h: History, t: nat, key: ObjectKey)
    requires t < |h|
    ensures Reads(h, Span(t, t, t), key, h[t]) && Lists(h, t, t, h[t].Keys)
  {
    forall k, from: nat | k in h[t] && from <= t ensures Fetched(h, from, t, k, h[t][k]) { assert k in h[t]; }
    forall k | Throughout(h, t, t, k) ensures k in h[t] { }
    forall k | k in h[t] ensures Sometime(h, t, t, k) { }
  }
}
