/** Text the configuration shows its operator: scrubbed type errors and the hint for a mistyped
    organisation pattern (`config.rs`). */
module ConfigText {
  import opened Options
  import opened Texts

  // ---------------------------------------------------------------- searching

  /** The first place `sub` occurs. */
  function Find(s: string, sub: string): (r: Option<nat>)
    ensures r.Some? ==> r.value + |sub| <= |s| && s[r.value..r.value + |sub|] == sub
  {
    if sub <= s then Some(0)
    else if s == [] then None
    else match Find(s[1..], sub) case None => None case Some(k) => Some(k + 1)
  }

  /** The last place `sub` occurs. */
  function RFind(s: string, sub: string): (r: Option<nat>)
    ensures r.Some? ==> r.value + |sub| <= |s|
  {
    if s == [] then (if sub == [] then Some(0) else None)
    else match RFind(s[1..], sub) case Some(k) => Some(k + 1) case None => if sub <= s then Some(0) else None
  }

  function FindChar(s: string, c: char): (r: Option<nat>)
    ensures r.Some? ==> r.value < |s| && s[r.value] == c && c !in s[..r.value]
    ensures r == None <==> c !in s
  {
    if s == [] then None
    else if s[0] == c then Some(0)
    else
      match FindChar(s[1..], c)
      case None => None
      case Some(k) => assert s[..k + 1] == [s[0]] + s[1..][..k]; Some(k + 1)
  }

  // ---------------------------------------------------------------- scrubbing

  function Expected(): string { ", expected " }

  /** What follows one of the two prefixes, scrubbed. */
  function ScrubRest(replacement: string, rest: string): string {
    match RFind(rest, Expected())
    case Some(pos) => replacement + Expected() + rest[pos + |Expected()|..]
    case None => replacement
  }

  function TypePrefix(): string { "invalid type: " }
  function ValuePrefix(): string { "invalid value: " }
  function WrongType(): string { "value has the wrong type" }
  function IsInvalid(): string { "value is invalid" }

  /** `scrub_value_payload`. */
  function Scrub(message: string): string {
    if StartsWith(message, TypePrefix()) then ScrubRest(WrongType(), message[|TypePrefix()|..])
    else if StartsWith(message, ValuePrefix()) then ScrubRest(IsInvalid(), message[|ValuePrefix()|..])
    else message
  }

  lemma {:induction false} RFindSkips(v: string, t: string, sub: string)
    requires RFind(t, sub).Some?
    ensures RFind(v + t, sub) == Some(|v| + RFind(t, sub).value)
  {
    if v == [] {
      assert v + t == t;
    } else {
      RFindSkips(v[1..], t, sub);
      assert (v + t)[1..] == v[1..] + t;
    }
  }

  /** Whatever the document's value was, the scrubbed text is that of the expectation alone. */
  lemma RestIgnoresValue(replacement: string, v: string, e: string)
    ensures ScrubRest(replacement, v + Expected() + e) == ScrubRest(replacement, Expected() + e)
  {
    var t, x := Expected() + e, Expected();
    assert x <= t;
    var k := RFind(t, x).value;
    RFindSkips(v, t, x);
    assert v + x + e == v + t;
    assert (v + t)[|v| + k + |x|..] == t[k + |x|..];
  }

  /** A type error's scrubbed text is the same for every value in it, even one that imitates the
      message's own shape. */
  lemma ScrubIgnoresValue(v: string, w: string, e: string)
    ensures Scrub(TypePrefix() + (v + Expected() + e)) == Scrub(TypePrefix() + (w + Expected() + e))
    ensures Scrub(ValuePrefix() + (v + Expected() + e)) == Scrub(ValuePrefix() + (w + Expected() + e))
  {
    ScrubOf(v + Expected() + e);
    ScrubOf(w + Expected() + e);
    RestIgnoresValue(WrongType(), v, e);
    RestIgnoresValue(WrongType(), w, e);
    RestIgnoresValue(IsInvalid(), v, e);
    RestIgnoresValue(IsInvalid(), w, e);
  }

  lemma ScrubOf(rest: string)
    ensures Scrub(TypePrefix() + rest) == ScrubRest(WrongType(), rest)
    ensures Scrub(ValuePrefix() + rest) == ScrubRest(IsInvalid(), rest)
  {
    var m, n := TypePrefix() + rest, ValuePrefix() + rest;
    assert m[|TypePrefix()|..] == rest && n[|ValuePrefix()|..] == rest;
    assert n[8] == 'v' && TypePrefix()[8] == 't';
  }

  /** And scrubbing twice is scrubbing once. */
  lemma ScrubIsIdempotent(message: string)
    ensures Scrub(Scrub(message)) == Scrub(message)
  {
    if StartsWith(message, TypePrefix()) {
      Untouched(Scrub(message), WrongType());
    } else if StartsWith(message, ValuePrefix()) {
      Untouched(Scrub(message), IsInvalid());
    }
  }

  lemma Untouched(s: string, replacement: string)
    requires replacement <= s && replacement in [WrongType(), IsInvalid()]
    ensures Scrub(s) == s
  {
    assert s[0] == replacement[0] == 'v';
    assert TypePrefix()[0] == 'i' && ValuePrefix()[0] == 'i';
  }

  lemma {:induction false} RFindMatches(s: string, sub: string)
    requires RFind(s, sub).Some?
    ensures var k := RFind(s, sub).value; s[k..k + |sub|] == sub
  {
    if s != [] && RFind(s[1..], sub).Some? {
      RFindMatches(s[1..], sub);
      var k := RFind(s[1..], sub).value;
      assert s[k + 1..k + 1 + |sub|] == s[1..][k..k + |sub|];
    }
  }

  /** The mark before an expectation occurs nowhere in it. */
  ghost predicate NoMark(e: string) { forall a: string, b: string :: a + ", expected " + b != e }

  /** After one mark the next can only begin past it. */
  lemma MarkPast(e: string, k: nat)
    requires k <= |e| - 1 && (", expected " + e)[k + 1..k + 12] == ", expected "
    ensures k >= 10 && e == e[..k - 10] + ", expected " + e[k + 1..]
  {
    var t := ", expected " + e;
    assert t[..11] == ", expected ";
    assert forall i :: 1 <= i < 11 ==> t[i] == t[..11][i] != ',';
    assert t[k + 1] == t[k + 1..k + 12][0] == ',';
    assert t[11..] == e;
    assert e[k - 10..k + 1] == t[k + 1..k + 12];
  }

  lemma LastMark(e: string)
    requires NoMark(e)
    ensures RFind(", expected " + e, Expected()) == Some(0)
  {
    var t := ", expected " + e;
    assert Expected() <= t;
    var found := RFind(t[1..], Expected());
    if found.Some? {
      RFindMatches(t[1..], Expected());
      var k := found.value;
      assert t[1..][k..k + 11] == t[k + 1..k + 12];
      MarkPast(e, k);
    }
  }

  /** What is shown of a type or value error: the plain words and the expectation, never the value. */
  lemma ScrubShows(v: string, e: string)
    requires NoMark(e)
    ensures Scrub("invalid type: " + (v + ", expected " + e)) == "value has the wrong type, expected " + e
    ensures Scrub("invalid value: " + (v + ", expected " + e)) == "value is invalid, expected " + e
  {
    ScrubOf(v + Expected() + e);
    RestIgnoresValue(WrongType(), v, e);
    RestIgnoresValue(IsInvalid(), v, e);
    LastMark(e);
    assert (Expected() + e)[11..] == e;
    assert "value has the wrong type" + ", expected " == "value has the wrong type, expected ";
    assert "value is invalid" + ", expected " == "value is invalid, expected ";
  }

  /** Without an expectation nothing of the value is kept, and any other message stays as it is. */
  lemma ScrubKeeps(message: string)
    ensures NoMark(message) ==> Scrub("invalid type: " + message) == "value has the wrong type"
    ensures NoMark(message) ==> Scrub("invalid value: " + message) == "value is invalid"
    ensures !("invalid type: " <= message) && !("invalid value: " <= message) ==> Scrub(message) == message
  {
    ScrubOf(message);
    if RFind(message, Expected()).Some? {
      RFindMatches(message, Expected());
      var k := RFind(message, Expected()).value;
      assert message == message[..k] + ", expected " + message[k + 11..];
    }
  }

  // ---------------------------------------------------------------- the organisation hint

  function SchemeMark(): string { "://" }

  predicate IsUrl(s: string) { Find(s, SchemeMark()).Some? }

  function AfterScheme(s: string): string {
    match Find(s, SchemeMark()) case None => s case Some(k) => s[k + 3..]
  }

  /** `rsplit('@').next()`. */
  function AfterLastAt(s: string): string
  {
    if '@' !in s then s else AfterLastAt(s[1..])
  }

  function UpTo(s: string, c: char): string {
    match FindChar(s, c) case None => s case Some(k) => s[..k]
  }

  function Past(s: string, c: char): string {
    match FindChar(s, c) case None => "" case Some(k) => s[k + 1..]
  }

  /** A colon before any slash separates host and path. */
  predicate IsScp(a: string) {
    FindChar(a, ':').Some? && (FindChar(a, '/') == None || FindChar(a, ':').value < FindChar(a, '/').value)
  }

  function Host(isUrl: bool, a: string): string {
    if isUrl then UpTo(UpTo(a, '/'), ':')
    else if IsScp(a) then UpTo(a, ':')
    else UpTo(a, '/')
  }

  function Path(isUrl: bool, a: string): string {
    if !isUrl && IsScp(a) then Past(a, ':') else Past(a, '/')
  }

  predicate EndsWith(s: string, suffix: string) { |suffix| <= |s| && s[|s| - |suffix|..] == suffix }

  function Git(): string { ".git" }

  function TrimSlashes(s: string): string {
    if EndsWith(s, "/") then TrimSlashes(s[..|s| - 1]) else s
  }

  function TrimGit(s: string): string {
    if EndsWith(s, Git()) then TrimGit(s[..|s| - 4]) else s
  }

  /** All trailing slashes and `.git` endings off. */
  function Peel(s: string): string {
    if EndsWith(s, "/") then Peel(s[..|s| - 1]) else if EndsWith(s, Git()) then Peel(s[..|s| - 4]) else s
  }

  function Rejoin(host: string, view: string): string { if view == [] then host else host + "/" + view }

  function Hint(pattern: string): string {
    var a := AfterLastAt(AfterScheme(pattern));
    Rejoin(Host(IsUrl(pattern), a), Peel(Path(IsUrl(pattern), a)))
  }

  /** `canonical_org_hint`, with its loop to a fixed point. */
  method CanonicalOrgHint(pattern: string) returns (hint: string)
    ensures hint == Hint(pattern)
  {
    var isUrl := IsUrl(pattern);
    var a := AfterLastAt(AfterScheme(pattern));
    var host, view := Host(isUrl, a), Path(isUrl, a);
    while true
      invariant Peel(view) == Peel(Path(isUrl, a))
      decreases |view|
    {
      var trimmed := TrimGit(TrimSlashes(view));
      TrimsPeel(view);
      if |trimmed| == |view| { break; }
      view := trimmed;
    }
    hint := Rejoin(host, view);
  }

  lemma {:induction false} TrimSlashesPeel(s: string)
    ensures Peel(TrimSlashes(s)) == Peel(s) && |TrimSlashes(s)| <= |s|
    ensures |TrimSlashes(s)| == |s| <==> !EndsWith(s, "/")
  {
    if EndsWith(s, "/") { TrimSlashesPeel(s[..|s| - 1]); }
  }

  lemma {:induction false} TrimGitPeel(s: string)
    ensures Peel(TrimGit(s)) == Peel(s) && |TrimGit(s)| <= |s|
    ensures |TrimGit(s)| == |s| <==> !EndsWith(s, Git())
  {
    if EndsWith(s, Git()) {
      TrimGitPeel(s[..|s| - 4]);
      assert s[|s| - 1] == Git()[3] == 't';
    }
  }

  lemma TrimsPeel(s: string)
    ensures var t := TrimGit(TrimSlashes(s));
            && Peel(t) == Peel(s) && |t| <= |s|
            && (|t| == |s| ==> t == s == Peel(s))
  {
    TrimSlashesPeel(s);
    TrimGitPeel(TrimSlashes(s));
  }

  lemma {:induction false} PeelIsDone(s: string)
    ensures |Peel(s)| <= |s| && Peel(Peel(s)) == Peel(s)
    ensures forall c :: c in Peel(s) ==> c in s
  {
    if EndsWith(s, "/") { PeelIsDone(s[..|s| - 1]); }
    else if EndsWith(s, Git()) { PeelIsDone(s[..|s| - 4]); }
  }

  lemma {:induction false} AfterLastAtIsSuffix(s: string)
    ensures '@' !in AfterLastAt(s) && |AfterLastAt(s)| <= |s|
  {
    if '@' in s { AfterLastAtIsSuffix(s[1..]); }
  }

  // ---- when the hint is its own hint

  /** A host as the hint writes it, and a path with nothing left to peel. */
  ghost predicate Clean(host: string, view: string) {
    && '/' !in host && ':' !in host && '@' !in host
    && '@' !in view && Peel(view) == view
  }

  lemma HostIsClean(isUrl: bool, a: string)
    requires '@' !in a
    ensures '/' !in Host(isUrl, a) && ':' !in Host(isUrl, a) && '@' !in Host(isUrl, a)
    ensures '@' !in Path(isUrl, a)
  {
    if !isUrl && IsScp(a) {
      var k := FindChar(a, ':').value;
      if FindChar(a, '/').Some? {
        var j := FindChar(a, '/').value;
        assert a[..k] == a[..j][..k];
      }
    } else if !isUrl && FindChar(a, ':').Some? {
      var j := FindChar(a, '/').value;
      assert a[..j] == a[..FindChar(a, ':').value][..j];
    }
  }

  lemma HintIsClean(pattern: string) returns (host: string, view: string)
    ensures Clean(host, view) && Hint(pattern) == Rejoin(host, view)
  {
    var a := AfterLastAt(AfterScheme(pattern));
    AfterLastAtIsSuffix(AfterScheme(pattern));
    host, view := Host(IsUrl(pattern), a), Peel(Path(IsUrl(pattern), a));
    HostIsClean(IsUrl(pattern), a);
    PeelIsDone(Path(IsUrl(pattern), a));
  }

  lemma {:induction false} FindsSeparator(a: string, c: char, b: string)
    requires c !in a
    ensures FindChar(a + [c] + b, c) == Some(|a|)
  {
    if a != [] {
      FindsSeparator(a[1..], c, b);
      assert (a + [c] + b)[1..] == a[1..] + [c] + b;
    }
  }

  lemma PastHost(host: string, rest: string, c: char)
    requires c !in host
    ensures FindChar(host + rest, c).Some? ==> FindChar(host + rest, c).value >= |host|
  {
    assert forall k :: 0 <= k < |host| ==> (host + rest)[k] == host[k];
  }

  /** Host and path of a text that starts with a host. */
  lemma BareSplits(host: string, path: string)
    requires '/' !in host && ':' !in host
    ensures Host(false, host + "/" + path) == host && Path(false, host + "/" + path) == path
  {
    var a := host + ['/'] + path;
    FindsSeparator(host, '/', path);
    assert a == host + "/" + path && a[..|host|] == host && a[|host| + 1..] == path;
    PastHost(host, ['/'] + path, ':');
    assert a == host + (['/'] + path);
  }

  lemma HintOfClean(host: string, view: string)
    requires Clean(host, view) && !IsUrl(Rejoin(host, view))
    ensures Hint(Rejoin(host, view)) == Rejoin(host, view)
  {
    var out := Rejoin(host, view);
    assert '@' !in out;
    if view == [] {
      assert FindChar(host, '/') == None && FindChar(host, ':') == None;
      assert Peel("") == "";
    } else {
      BareSplits(host, view);
    }
  }

  lemma HintIsShort(pattern: string)
    ensures |Hint(pattern)| <= |AfterScheme(pattern)|
  {
    var a := AfterLastAt(AfterScheme(pattern));
    AfterLastAtIsSuffix(AfterScheme(pattern));
    SplitIsShort(IsUrl(pattern), a);
    PeelIsDone(Path(IsUrl(pattern), a));
  }

  lemma SplitIsShort(isUrl: bool, a: string)
    ensures |Host(isUrl, a)| <= |a|
    ensures Path(isUrl, a) != [] ==> |Host(isUrl, a)| + 1 + |Path(isUrl, a)| <= |a|
  {
  }

  ghost predicate OccursAt(s: string, sub: string, i: nat) {
    i + |sub| <= |s| && s[i..i + |sub|] == sub
  }

  lemma {:induction false} FindsAny(s: string, sub: string, i: nat)
    requires OccursAt(s, sub, i)
    ensures Find(s, sub).Some?
    decreases |s|
  {
    if i > 0 {
      assert s[1..][i - 1..i - 1 + |sub|] == s[i..i + |sub|];
      FindsAny(s[1..], sub, i - 1);
    } else {
      assert s[..|sub|] == sub;
    }
  }

  /** What holds a scheme mark makes everything around it hold one. */
  lemma UrlWithin(a: string, b: string, c: string)
    requires IsUrl(b)
    ensures IsUrl(a + b + c)
  {
    var k := Find(b, SchemeMark()).value;
    var s := a + b + c;
    assert s[|a| + k..|a| + k + 3] == b[k..k + 3];
    FindsAny(s, SchemeMark(), |a| + k);
  }

  lemma {:induction false} NoColonNoMark(host: string)
    requires ':' !in host
    ensures !IsUrl(host)
  {
    if host != [] {
      assert host[0] != SchemeMark()[0];
      NoColonNoMark(host[1..]);
    }
  }

  /** A mark cannot start in a host without colons, nor at the slash after it. */
  lemma UrlPastHost(host: string, view: string)
    requires ':' !in host
    ensures IsUrl(Rejoin(host, view)) <==> IsUrl(view)
  {
    var out := Rejoin(host, view);
    if view == [] {
      NoColonNoMark(host);
      NoColonNoMark(view);
    } else if IsUrl(view) {
      UrlWithin(host + "/", view, "");
      assert host + "/" + view + "" == out;
    } else if IsUrl(out) {
      var k := Find(out, SchemeMark()).value;
      assert out[k] == SchemeMark()[0] == ':';
      MarkIsPast(host, view, k);
      MarkInView(host, view, k);
    }
  }

  lemma MarkInView(host: string, view: string, k: nat)
    requires k >= |host| + 1 && OccursAt(host + "/" + view, SchemeMark(), k)
    ensures IsUrl(view)
  {
    var i := k - |host| - 1;
    assert view[i..i + 3] == (host + "/" + view)[k..k + 3];
    FindsAny(view, SchemeMark(), i);
  }

  lemma MarkIsPast(host: string, view: string, k: nat)
    requires ':' !in host && k < |host + "/" + view| && (host + "/" + view)[k] == ':'
    ensures k >= |host| + 1
  {
    var out := host + "/" + view;
    assert forall i :: 0 <= i < |host| ==> out[i] == host[i];
    assert out[|host|] == '/';
  }

  lemma {:induction false} AfterLastAtSplits(s: string) returns (front: string)
    ensures s == front + AfterLastAt(s)
  {
    if '@' in s {
      var rest := AfterLastAtSplits(s[1..]);
      front := [s[0]] + rest;
      assert s == [s[0]] + s[1..];
    } else {
      front := "";
    }
  }

  lemma PeelJoin(s: string, n: nat, kept: string, back: string)
    requires n <= |s| && s[..n] == kept + back
    ensures s == kept + (back + s[n..])
  {
    assert s == s[..n] + s[n..];
  }

  lemma {:induction false} PeelSplits(s: string) returns (back: string)
    ensures s == Peel(s) + back
    decreases |s|
  {
    if EndsWith(s, "/") {
      back := PeelSplits(s[..|s| - 1]);
      PeelJoin(s, |s| - 1, Peel(s), back);
      back := back + s[|s| - 1..];
    } else if EndsWith(s, Git()) {
      back := PeelSplits(s[..|s| - 4]);
      PeelJoin(s, |s| - 4, Peel(s), back);
      back := back + s[|s| - 4..];
    } else {
      back := "";
    }
  }

  lemma PathSplits(isUrl: bool, a: string) returns (front: string)
    requires Path(isUrl, a) != []
    ensures a == front + Path(isUrl, a)
  {
    var c := if !isUrl && IsScp(a) then ':' else '/';
    front := a[..FindChar(a, c).value + 1];
  }

  /** The path a hint shows. */
  function HintPath(pattern: string): string {
    Peel(Path(IsUrl(pattern), AfterLastAt(AfterScheme(pattern))))
  }

  /** Without a scheme the shown path is a piece of the pattern. */
  lemma PlainSplits(pattern: string) returns (front: string, back: string)
    requires !IsUrl(pattern) && HintPath(pattern) != []
    ensures pattern == front + HintPath(pattern) + back
  {
    var a := AfterLastAt(pattern);
    var path := Path(false, a);
    var user := AfterLastAtSplits(pattern);
    back := PeelSplits(path);
    var lead := PathSplits(false, a);
    front := user + lead;
    FourPieces(user, lead, Peel(path), back);
  }

  lemma FourPieces(a: string, b: string, c: string, d: string)
    ensures a + (b + (c + d)) == a + b + c + d
  {
  }

  /** Without a scheme mark the shown path has none. */
  lemma PathOfPlain(pattern: string)
    requires !IsUrl(pattern)
    ensures !IsUrl(HintPath(pattern))
  {
    if HintPath(pattern) == [] {
      NoColonNoMark([]);
    } else {
      var front, back := PlainSplits(pattern);
      if IsUrl(HintPath(pattern)) { UrlWithin(front, HintPath(pattern), back); }
    }
  }

  /** A hint holds a scheme mark exactly when the pattern has a scheme and a second mark in the path. */
  lemma HintIsUrlIff(pattern: string)
    ensures IsUrl(Hint(pattern)) <==> IsUrl(pattern) && IsUrl(HintPath(pattern))
  {
    var a := AfterLastAt(AfterScheme(pattern));
    AfterLastAtIsSuffix(AfterScheme(pattern));
    HostIsClean(IsUrl(pattern), a);
    UrlPastHost(Host(IsUrl(pattern), a), HintPath(pattern));
    if !IsUrl(pattern) { PathOfPlain(pattern); }
  }

  lemma HintOfHint(pattern: string)
    ensures Hint(Hint(pattern)) == Hint(pattern) <==> !IsUrl(Hint(pattern))
  {
    var host, view := HintIsClean(pattern);
    if IsUrl(Hint(pattern)) { HintIsShort(Hint(pattern)); } else { HintOfClean(host, view); }
  }

  /** The hint is its own hint exactly when the pattern does not have both a scheme and, in the path
      that is shown, another scheme mark. */
  lemma HintIdempotentIff(pattern: string)
    ensures Hint(Hint(pattern)) == Hint(pattern) <==> !(IsUrl(pattern) && IsUrl(HintPath(pattern)))
  {
    HintOfHint(pattern);
    HintIsUrlIff(pattern);
  }

  /** A pattern whose hint is not its own hint. */
  lemma HintNotIdempotent() returns (pattern: string)
    ensures Hint(Hint(pattern)) != Hint(pattern)
  {
    var path := "x://y";
    pattern := "s" + SchemeMark() + ("" + ("h" + "" + "/" + (path + Trailing([]))));
    assert path[4] == 'y' && path[4..] == "y" && path[1..4] == SchemeMark();
    assert !EndsWith(path, "/") && !EndsWith(path, Git()) by { assert path[|path| - 4..][3] == 'y' && Git()[3] == 't'; }
    HintOfUrl("s", "", "h", "", path, []);
    FindsAny(path, SchemeMark(), 1);
    UrlPastHost("h", path);
    HintOfHint(pattern);
  }

  // ---- what the hint recovers

  /** Slashes and `.git` endings in any number and order. */
  datatype Ending = Slash | DotGit

  function EndingText(e: Ending): string { if e == Slash then "/" else Git() }

  lemma EndingTexts()
    ensures EndingText(Slash) == "/" && EndingText(DotGit) == ".git"
  {
  }

  function Trailing(es: seq<Ending>): string {
    if es == [] then "" else Trailing(es[..|es| - 1]) + EndingText(es[|es| - 1])
  }

  lemma PeelSlash(s: string)
    ensures Peel(s + "/") == Peel(s)
  {
    var t := s + "/";
    assert t[|t| - 1..] == "/" && t[..|t| - 1] == s;
  }

  lemma PeelGit(s: string)
    ensures Peel(s + Git()) == Peel(s)
  {
    var t := s + Git();
    assert t[|t| - 4..] == Git() && t[..|t| - 4] == s;
    assert t[|t| - 1] == Git()[3] == 't';
    assert t[|t| - 1..] == ['t'];
  }

  lemma PeelEnding(s: string, e: Ending)
    ensures Peel(s + EndingText(e)) == Peel(s)
  {
    if e == Slash { PeelSlash(s); } else { PeelGit(s); }
  }

  lemma Assoc(a: string, b: string, c: string)
    ensures a + (b + c) == a + b + c
  {
  }

  lemma {:induction false} PeelDropsTrailing(path: string, es: seq<Ending>)
    ensures Peel(path + Trailing(es)) == Peel(path)
    decreases |es|
  {
    if es == [] {
      assert path + "" == path;
    } else {
      var front, last := es[..|es| - 1], es[|es| - 1];
      PeelDropsTrailing(path, front);
      PeelEnding(path + Trailing(front), last);
      Assoc(path, Trailing(front), EndingText(last));
    }
  }

  lemma {:induction false} TrailingHasNoAt(es: seq<Ending>)
    ensures '@' !in Trailing(es)
    decreases |es|
  {
    if es != [] { TrailingHasNoAt(es[..|es| - 1]); }
  }

  /** `user@` or nothing. */
  ghost predicate Userinfo(u: string) { u == [] || EndsWith(u, "@") }

  /** `:port` or nothing. */
  ghost predicate Port(p: string) { (p == [] || p[0] == ':') && '/' !in p && '@' !in p }

  /** A host, and a path such as `org/repo` with nothing to peel and no marks of other shapes. */
  ghost predicate CleanTokens(host: string, path: string) {
    Clean(host, path) && path != []
  }

  lemma {:induction false} AfterUserinfo(u: string, x: string)
    requires Userinfo(u) && '@' !in x
    ensures AfterLastAt(u + x) == x
    decreases |u|
  {
    if u == [] {
      assert u + x == x;
    } else {
      assert u[|u| - 1] == '@' && (u + x)[|u| - 1] == '@';
      assert (u + x)[1..] == u[1..] + x;
      if |u| > 1 { assert u[1..][|u| - 2..] == u[|u| - 1..]; }
      AfterUserinfo(u[1..], x);
    }
  }

  lemma {:induction false} SchemeFound(scheme: string, rest: string)
    requires ':' !in scheme
    ensures Find(scheme + SchemeMark() + rest, SchemeMark()) == Some(|scheme|)
  {
    var s := scheme + SchemeMark() + rest;
    if scheme == [] {
      assert SchemeMark() <= s;
    } else {
      SchemeFound(scheme[1..], rest);
      assert s[1..] == scheme[1..] + SchemeMark() + rest;
      assert s[0] != SchemeMark()[0];
    }
  }

  lemma UrlSplits(host: string, port: string, path: string)
    requires '/' !in host && ':' !in host && Port(port)
    ensures Host(true, host + port + "/" + path) == host && Path(true, host + port + "/" + path) == path
  {
    var a := host + port + ['/'] + path;
    FindsSeparator(host + port, '/', path);
    assert a == host + port + "/" + path && a[..|host + port|] == host + port && a[|host + port| + 1..] == path;
    if port == [] {
      assert host + port == host;
    } else {
      FindsSeparator(host, ':', port[1..]);
      assert host + port == host + [':'] + port[1..];
      assert (host + port)[..|host|] == host;
    }
  }

  /** From a URL, with or without user and port, and with any endings. */
  lemma HintOfUrl(scheme: string, user: string, host: string, port: string, path: string, es: seq<Ending>)
    requires ':' !in scheme && Userinfo(user) && Port(port) && CleanTokens(host, path)
    ensures Hint(scheme + "://" + (user + (host + port + "/" + (path + Trailing(es))))) == host + "/" + path
  {
    var tail := Trailing(es);
    PeelDropsTrailing(path, es);
    TrailingHasNoAt(es);
    var rest := host + port + "/" + (path + tail);
    var pattern := scheme + SchemeMark() + (user + rest);
    SchemeFound(scheme, user + rest);
    assert pattern[|scheme| + 3..] == user + rest;
    AfterUserinfo(user, rest);
    UrlSplits(host, port, path + tail);
  }

  lemma ScpSplits(host: string, path: string)
    requires '/' !in host && ':' !in host
    ensures Host(false, host + ":" + path) == host && Path(false, host + ":" + path) == path
  {
    var a := host + [':'] + path;
    FindsSeparator(host, ':', path);
    PastHost(host, [':'] + path, '/');
    assert a == host + ([':'] + path);
    assert a[|host|] == ':';
    assert a == host + ":" + path && a[..|host|] == host && a[|host| + 1..] == path;
  }

  /** From `[user@]host:org/repo`. */
  lemma HintOfScp(user: string, host: string, path: string, es: seq<Ending>)
    requires Userinfo(user) && CleanTokens(host, path)
    requires !IsUrl(user + (host + ":" + (path + Trailing(es))))
    ensures Hint(user + (host + ":" + (path + Trailing(es)))) == host + "/" + path
  {
    PeelDropsTrailing(path, es);
    TrailingHasNoAt(es);
    AfterUserinfo(user, host + ":" + (path + Trailing(es)));
    ScpSplits(host, path + Trailing(es));
  }

  /** And from `host/org/repo` itself. */
  lemma HintOfBare(user: string, host: string, path: string, es: seq<Ending>)
    requires Userinfo(user) && CleanTokens(host, path)
    requires !IsUrl(user + (host + "/" + (path + Trailing(es))))
    ensures Hint(user + (host + "/" + (path + Trailing(es)))) == host + "/" + path
  {
    PeelDropsTrailing(path, es);
    TrailingHasNoAt(es);
    AfterUserinfo(user, host + "/" + (path + Trailing(es)));
    BareSplits(host, path + Trailing(es));
  }
}
