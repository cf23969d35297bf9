/** Literal substring search through `LIKE ... ESCAPE '\'` (`import.rs`). */
module LikeEscape {

  /** The case fold of `LIKE`: ASCII letters only. */
  function Fold(c: char): char {
    if 'A' <= c <= 'Z' then (c as nat - 'A' as nat + 'a' as nat) as char else c
  }

  predicate Special(c: char) { c == '%' || c == '_' || c == '\\' }

  function Escaped(q: string): string {
    if q == [] then ""
    else Escaped(q[..|q| - 1]) + if Special(q[|q| - 1]) then ['\\', q[|q| - 1]] else [q[|q| - 1]]
  }

  /** `escape_like`. */
  method EscapeLike(q: string) returns (out: string)
    ensures out == Escaped(q)
  {
    out := "";
    for i := 0 to |q|
      invariant out == Escaped(q[..i])
    {
      assert q[..i + 1][..i] == q[..i];
      var ch := q[i];
      if ch == '%' || ch == '_' || ch == '\\' { out := out + ['\\']; }
      out := out + [ch];
    }
    assert q[..|q|] == q;
  }

  predicate SameChar(a: char, b: char) { Fold(a) == Fold(b) }

  /** Two characters are the same when equal or the two cases of one ASCII letter. */
  lemma SameCharMeans(a: char, b: char)
    ensures SameChar(a, b) <==>
            || a == b
            || ('A' <= a <= 'Z' && b as nat == a as nat + 32)
            || ('A' <= b <= 'Z' && a as nat == b as nat + 32)
  {
  }

  /** `LIKE` with escape `\`: `%` is any run of characters, `_` any one, an escaped character and
      every other stands for itself; a pattern ending in a lone escape matches nothing. */
  ghost predicate Like(p: string, t: string)
    decreases |p|
  {
    if p == [] then t == []
    else if p[0] == '%' then exists k :: 0 <= k <= |t| && Like(p[1..], t[k..])
    else if p[0] == '_' then t != [] && Like(p[1..], t[1..])
    else if p[0] == '\\' then |p| > 1 && t != [] && SameChar(p[1], t[0]) && Like(p[2..], t[1..])
    else t != [] && SameChar(p[0], t[0]) && Like(p[1..], t[1..])
  }

  /** `t` begins with `q`, up to case. */
  predicate Begins(t: string, q: string) {
    |q| <= |t| && forall i :: 0 <= i < |q| ==> SameChar(q[i], t[i])
  }

  ghost predicate Occurs(q: string, t: string) {
    exists k :: 0 <= k <= |t| && Begins(t[k..], q)
  }

  function Piece(c: char): string { if Special(c) then ['\\', c] else [c] }

  lemma {:induction false} EscapedFront(q: string)
    requires q != []
    ensures Escaped(q) == Piece(q[0]) + Escaped(q[1..])
  {
    var n := |q| - 1;
    if n > 0 {
      EscapedFront(q[..n]);
      assert q[..n][1..] == q[1..][..n - 1];
      assert q[1..][n - 1] == q[n];
    }
  }

  lemma PieceMatches(c: char, p: string, t: string)
    ensures Like(Piece(c) + p, t) <==> t != [] && SameChar(c, t[0]) && Like(p, t[1..])
  {
    var whole := Piece(c) + p;
    if Special(c) { assert whole[2..] == p; } else { assert whole[1..] == p; }
  }

  /** An escaped text matches itself and nothing else, and the rest of the pattern the rest. */
  lemma {:induction false} EscapedMatches(q: string, p: string, t: string)
    ensures Like(Escaped(q) + p, t) <==> Begins(t, q) && Like(p, t[|q|..])
    decreases |q|
  {
    if q == [] {
      assert "" + p == p && t[0..] == t;
    } else {
      EscapedFront(q);
      assert Escaped(q) + p == Piece(q[0]) + (Escaped(q[1..]) + p);
      PieceMatches(q[0], Escaped(q[1..]) + p, t);
      if t != [] {
        EscapedMatches(q[1..], p, t[1..]);
        BeginsFront(t, q);
        if |q| <= |t| { assert t[1..][|q| - 1..] == t[|q|..]; }
      }
    }
  }

  lemma BeginsFront(t: string, q: string)
    requires t != [] && q != []
    ensures Begins(t, q) <==> SameChar(q[0], t[0]) && Begins(t[1..], q[1..])
  {
    if Begins(t[1..], q[1..]) && SameChar(q[0], t[0]) {
      forall i | 0 <= i < |q| ensures SameChar(q[i], t[i]) {
        if i > 0 { assert SameChar(q[1..][i - 1], t[1..][i - 1]); }
      }
    }
  }

  lemma TrailingPercent(t: string)
    ensures Like("%", t)
  {
    assert t[|t|..] == [] && "%"[1..] == [];
    assert Like("%"[1..], t[|t|..]);
  }

  /** The query means what the flag promises: the pattern matches a text exactly when the text holds
      the query as a literal substring, whatever characters either contains. */
  lemma QueryIsSubstring(q: string, t: string)
    ensures Like("%" + Escaped(q) + "%", t) <==> Occurs(q, t)
  {
    var p := Escaped(q) + "%";
    var whole := "%" + Escaped(q) + "%";
    assert whole[0] == '%' && whole[1..] == p;
    forall k | 0 <= k <= |t| ensures Like(p, t[k..]) <==> Begins(t[k..], q) {
      EscapedMatches(q, "%", t[k..]);
      if |q| <= |t[k..]| { TrailingPercent(t[k..][|q|..]); }
    }
  }

  /** `q` stands in `t` from `k` on, each letter in either case. */
  ghost predicate StandsAt(q: string, t: string, k: nat) {
    && k + |q| <= |t|
    && forall i :: 0 <= i < |q| ==>
         || t[k + i] == q[i]
         || ('A' <= q[i] <= 'Z' && t[k + i] as nat == q[i] as nat + 32)
         || ('A' <= t[k + i] <= 'Z' && q[i] as nat == t[k + i] as nat + 32)
  }

  /** The same, character by character. */
  lemma QueryIsFound(q: string, t: string)
    ensures Like("%" + Escaped(q) + "%", t) <==> exists k: nat :: StandsAt(q, t, k)
  {
    QueryIsSubstring(q, t);
    forall k: nat | k <= |t| ensures Begins(t[k..], q) <==> StandsAt(q, t, k) { BeginsAt(t, k, q); }
    if k: nat :| StandsAt(q, t, k) { assert Begins(t[k..], q); }
  }

  lemma BeginsAt(t: string, k: nat, q: string)
    requires k <= |t|
    ensures Begins(t[k..], q) <==> StandsAt(q, t, k)
  {
    if k + |q| <= |t| {
      forall i | 0 <= i < |q| ensures t[k..][i] == t[k + i] { SameCharMeans(q[i], t[k + i]); }
      if Begins(t[k..], q) {
        forall i | 0 <= i < |q| ensures SameChar(q[i], t[k + i]) { assert SameChar(q[i], t[k..][i]); }
      }
    }
  }
}
