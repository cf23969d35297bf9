/** Object keys: where a note's versions live in the bucket (`objkey.rs`, with `NoteId` and `Scope`
    of `domain.rs`). Text is its bytes, one `char` each. */
module ObjectKeys {
  import opened Options
  import opened Texts
  import opened Ulids

  type UlidValue = v: nat | v < 0x1_0000_0000_0000_0000_0000_0000_0000_0000

  datatype RepoScope = Global | Repo(name: string)
  datatype Scope = Scope(team: string, repo: RepoScope)
  datatype Note = Note(scope: Scope, id: UlidValue, version: UlidValue)

  const GLOBAL_SEGMENT := "global"
  const MAX_COMPONENT_LEN := 256

  predicate Allowed(c: char) {
    ('A' <= c <= 'Z') || ('a' <= c <= 'z') || ('0' <= c <= '9') || c == '-' || c == '_'
  }

  /** `validate_component`. */
  predicate ValidComponent(s: string) {
    s != "" && |s| <= MAX_COMPONENT_LEN && forall i :: 0 <= i < |s| ==> Allowed(s[i])
  }

  /** `validate_namespace`, the configuration's check of a team name. */
  predicate ValidNamespace(s: string) {
    !(s == "" || |s| > 256 || exists i :: 0 <= i < |s| && !Allowed(s[i]))
  }

  function RepoSegment(r: RepoScope): string {
    if r == Global then GLOBAL_SEGMENT else r.name
  }

  predicate RepoAllowed(r: RepoScope) {
    r == Global || (r.name != GLOBAL_SEGMENT && !StartsWith(r.name, "_") && ValidComponent(r.name))
  }

  function IdText(id: UlidValue): string { "mem_" + Encode(id) }

  function VersionText(v: UlidValue): string { "ver_" + Encode(v) }

  /** `{team}/{repo}/{id}/`. */
  function PrefixOf(scope: Scope, id: UlidValue): string {
    scope.team + "/" + RepoSegment(scope.repo) + "/" + IdText(id) + "/"
  }

  /** `object_key`. */
  function ObjectKey(n: Note): Option<string> {
    if !ValidComponent(n.scope.team) || !RepoAllowed(n.scope.repo) then None
    else Some(PrefixOf(n.scope, n.id) + VersionText(n.version))
  }

  function ParseAfter(prefix: string, s: string): (r: Option<UlidValue>)
  {
    if !StartsWith(s, prefix) then None
    else if |s| - |prefix| != ULID_LEN || exists i :: |prefix| <= i < |s| && DigitOf(s[i]) == None then None
    else FoldInRange(s[|prefix|..]); Some(Fold(Spelled(s[|prefix|..])))
  }

  lemma FoldInRange(text: string)
    requires Readable(text)
    ensures Fold(Spelled(text)) < TWO_128
  {
    SpelledAt(text);
    FoldWraps(Spelled(text));
  }

  /** `parse_object_key`. */
  function ParseObjectKey(key: string): Option<Note> {
    var parts := Split(key, '/');
    if |parts| != 4 || !ValidComponent(parts[0]) then None
    else if parts[1] != GLOBAL_SEGMENT && !ValidComponent(parts[1]) then None
    else
      var id, version := ParseAfter("mem_", parts[2]), ParseAfter("ver_", parts[3]);
      if id == None || version == None then None
      else Some(Note(Scope(parts[0], if parts[1] == GLOBAL_SEGMENT then Global else Repo(parts[1])), id.value,
        version.value))
  }

  /** `note_blob_prefix`. */
  function NoteBlobPrefix(key: string): Option<string> {
    var n := ParseObjectKey(key);
    if n == None then None else Some(PrefixOf(n.value.scope, n.value.id))
  }

  // ---------------------------------------------------------------- segments

  lemma ComponentHasNoSlash(s: string)
    requires ValidComponent(s)
    ensures '/' !in s
  {
    assert !Allowed('/');
  }

  lemma EncodedIsClean(v: UlidValue)
    ensures |Encode(v)| == ULID_LEN && Readable(Encode(v)) && Parse(Encode(v)) == Ok(v)
    ensures forall i :: 0 <= i < ULID_LEN ==> Allowed(Encode(v)[i])
  {
    ToDigitsShape(v, Length());
    PrintedReads(ToDigits(v, Length()));
    PrintThenParse(v);
    forall i | 0 <= i < ULID_LEN ensures Allowed(Encode(v)[i]) { PrintAt(ToDigits(v, Length()), i); }
  }

  lemma SegmentReads(prefix: string, v: UlidValue)
    requires '/' !in prefix
    ensures '/' !in prefix + Encode(v) && ParseAfter(prefix, prefix + Encode(v)) == Some(v)
  {
    EncodedIsClean(v);
    var s := prefix + Encode(v);
    assert s[|prefix|..] == Encode(v);
    forall i | |prefix| <= i < |s| ensures DigitOf(s[i]) != None { assert s[i] == Encode(v)[i - |prefix|]; }
  }

  lemma ThreeSegments(a: string, b: string, c: string, rest: string)
    requires '/' !in a && '/' !in b && '/' !in c
    ensures Split(a + "/" + b + "/" + c + "/" + rest, '/') == [a, b, c] + Split(rest, '/')
  {
    assert a + "/" + b + "/" + c + "/" + rest == a + ['/'] + (b + ['/'] + (c + ['/'] + rest));
    SplitAt(a, b + ['/'] + (c + ['/'] + rest), '/');
    SplitAt(b, c + ['/'] + rest, '/');
    SplitAt(c, rest, '/');
    assert [a] + ([b] + ([c] + Split(rest, '/'))) == [a, b, c] + Split(rest, '/');
  }

  lemma NoSlashes(n: Note)
    requires ObjectKey(n).Some?
    ensures '/' !in n.scope.team && '/' !in RepoSegment(n.scope.repo) && '/' !in IdText(n.id)
            && '/' !in VersionText(n.version)
  {
    ComponentHasNoSlash(n.scope.team);
    if n.scope.repo.Repo? { ComponentHasNoSlash(n.scope.repo.name); }
    SegmentReads("mem_", n.id);
    SegmentReads("ver_", n.version);
  }

  lemma KeySplits(n: Note)
    requires ObjectKey(n).Some?
    ensures Split(ObjectKey(n).value, '/') ==
            [n.scope.team, RepoSegment(n.scope.repo), IdText(n.id), VersionText(n.version)]
  {
    NoSlashes(n);
    ThreeSegments(n.scope.team, RepoSegment(n.scope.repo), IdText(n.id), VersionText(n.version));
    SplitNone(VersionText(n.version), '/');
  }

  // ---------------------------------------------------------------- what keys promise

  /** Parsing is a left inverse of minting. */
  lemma MintThenParse(n: Note)
    requires ObjectKey(n).Some?
    ensures ParseObjectKey(ObjectKey(n).value) == Some(n)
  {
    KeySplits(n);
    SegmentReads("mem_", n.id);
    SegmentReads("ver_", n.version);
  }

  /** So two notes never share a key. */
  lemma KeysAreInjective(m: Note, n: Note)
    requires ObjectKey(m).Some? && ObjectKey(n).Some?
    ensures ObjectKey(m) == ObjectKey(n) <==> m == n
  {
    MintThenParse(m);
    MintThenParse(n);
  }

  /** A key fits the store's limit, and stays out of the internal namespaces. */
  lemma KeysAreSafe(n: Note)
    requires ObjectKey(n).Some?
    ensures |ObjectKey(n).value| < 1024
    ensures |Split(ObjectKey(n).value, '/')| == 4 && Split(ObjectKey(n).value, '/')[1] != ""
            && Split(ObjectKey(n).value, '/')[1][0] != '_'
    ensures forall i :: 0 <= i < 4 ==> ValidComponent(Split(ObjectKey(n).value, '/')[i])
  {
    KeySplits(n);
    EncodedIsClean(n.id);
    EncodedIsClean(n.version);
    TaggedIsValid("mem_", n.id);
    TaggedIsValid("ver_", n.version);
    var repo := RepoSegment(n.scope.repo);
    assert repo[..1] == [repo[0]];
    if n.scope.repo == Global { assert forall i :: 0 <= i < 6 ==> Allowed(GLOBAL_SEGMENT[i]); }
  }

  lemma TaggedIsValid(prefix: string, v: UlidValue)
    requires |prefix| == 4 && forall i :: 0 <= i < 4 ==> Allowed(prefix[i])
    ensures ValidComponent(prefix + Encode(v))
  {
    EncodedIsClean(v);
    var s := prefix + Encode(v);
    forall i | 0 <= i < |s| ensures Allowed(s[i]) { if i >= 4 { assert s[i] == Encode(v)[i - 4]; } }
  }

  lemma PrefixesAgree(m: Note, n: Note)
    requires ObjectKey(m).Some? && ObjectKey(n).Some?
    requires StartsWith(ObjectKey(n).value, PrefixOf(m.scope, m.id))
    ensures m.scope == n.scope && m.id == n.id
  {
    var p, key := PrefixOf(m.scope, m.id), ObjectKey(n).value;
    NoSlashes(m);
    ThreeSegments(m.scope.team, RepoSegment(m.scope.repo), IdText(m.id), key[|p|..]);
    assert key == p + key[|p|..];
    KeySplits(n);
    SameSegments(m, n, Split(key, '/'), Split(key[|p|..], '/'));
  }

  lemma SameSegments(m: Note, n: Note, parts: seq<string>, rest: seq<string>)
    requires RepoAllowed(m.scope.repo) && RepoAllowed(n.scope.repo)
    requires parts == [n.scope.team, RepoSegment(n.scope.repo), IdText(n.id), VersionText(n.version)]
    requires parts == [m.scope.team, RepoSegment(m.scope.repo), IdText(m.id)] + rest
    ensures m.scope == n.scope && m.id == n.id
  {
    assert parts[0] == m.scope.team && parts[1] == RepoSegment(m.scope.repo) && parts[2] == IdText(m.id);
    SegmentReads("mem_", m.id);
    SegmentReads("mem_", n.id);
  }

  /** A key lies under another's note prefix exactly when both are versions of one note. */
  lemma PrefixNamesTheNote(m: Note, n: Note)
    requires ObjectKey(m).Some? && ObjectKey(n).Some?
    ensures NoteBlobPrefix(ObjectKey(m).value) == Some(PrefixOf(m.scope, m.id))
    ensures StartsWith(ObjectKey(n).value, PrefixOf(m.scope, m.id)) <==> m.scope == n.scope && m.id == n.id
  {
    MintThenParse(m);
    if StartsWith(ObjectKey(n).value, PrefixOf(m.scope, m.id)) { PrefixesAgree(m, n); }
  }

  /** The configuration accepts exactly the teams under which keys can be minted. */
  lemma ConfigAgrees(team: string, id: UlidValue, version: UlidValue)
    ensures ValidNamespace(team) <==> ObjectKey(Note(Scope(team, Global), id, version)).Some?
  {
  }

  /** The key a parsed key stands for: its ids in canonical form. */
  lemma ParseThenMint(key: string)
    requires ParseObjectKey(key).Some?
    ensures var n, parts := ParseObjectKey(key).value, Split(key, '/');
            && |parts| == 4
            && (ObjectKey(n) == None <==> StartsWith(parts[1], "_"))
            && (ObjectKey(n).Some? ==>
                  |parts[2]| == 30 && |parts[3]| == 30 && Readable(parts[2][4..]) && Readable(parts[3][4..])
                  && Split(ObjectKey(n).value, '/') ==
                     [parts[0], parts[1], "mem_" + Canonical(parts[2][4..]), "ver_" + Canonical(parts[3][4..])])
  {
    var n, parts := ParseObjectKey(key).value, Split(key, '/');
    TailReads("mem_", parts[2]);
    TailReads("ver_", parts[3]);
    MintsUnless(n, parts[1]);
    if ObjectKey(n).Some? { KeySplits(n); }
  }

  /** Minting refuses only the underscore repositories of what parsing accepts. */
  lemma MintsUnless(n: Note, segment: string)
    requires ValidComponent(n.scope.team) && (segment == GLOBAL_SEGMENT || ValidComponent(segment))
    requires n.scope.repo == if segment == GLOBAL_SEGMENT then Global else Repo(segment)
    ensures ObjectKey(n) == None <==> StartsWith(segment, "_")
    ensures RepoSegment(n.scope.repo) == segment
  {
    assert GLOBAL_SEGMENT[0] == 'g' && "_"[0] == '_';
  }

  lemma TailReads(prefix: string, s: string)
    requires |prefix| == 4 && ParseAfter(prefix, s).Some?
    ensures |s| == 30 && Readable(s[4..]) && Encode(ParseAfter(prefix, s).value) == Canonical(s[4..])
  {
    var text := s[4..];
    forall i | 0 <= i < |text| ensures DigitOf(text[i]).Some? { assert text[i] == s[i + 4]; }
    assert Parse(text) == Ok(ParseAfter(prefix, s).value);
    ParseThenPrint(text);
  }

  /** The failing family: every key with a valid repository that begins with an underscore is parsed,
      and none is ever minted. */
  lemma UnderscoreKeysParse(team: string, repo: string, id: UlidValue, version: UlidValue)
    requires ValidComponent(team) && ValidComponent(repo) && repo[0] == '_'
    ensures var n := Note(Scope(team, Repo(repo)), id, version);
            ParseObjectKey(team + "/" + repo + "/" + IdText(id) + "/" + VersionText(version)) == Some(n)
              && ObjectKey(n) == None
  {
    ComponentHasNoSlash(team);
    ComponentHasNoSlash(repo);
    SegmentReads("mem_", id);
    SegmentReads("ver_", version);
    ThreeSegments(team, repo, IdText(id), VersionText(version));
    SplitNone(VersionText(version), '/');
    assert GLOBAL_SEGMENT[0] == 'g' && repo[..1] == "_";
  }

  /** One such repository. */
  lemma UnderscoreRepoExists() returns (repo: string)
    ensures ValidComponent(repo) && repo[0] == '_'
  {
    repo := "_x";
    assert Allowed(repo[0]) && Allowed(repo[1]);
  }

  // ---------------------------------------------------------------- keys, character by character

  /** The characters of a segment. */
  lemma AllowedAlphabet(c: char)
    ensures Allowed(c) <==> c in "ABCDEFGHIJKLMNOPQRSTUVWXYZ" + "abcdefghijklmnopqrstuvwxyz" + "0123456789" + "-_"
  {
    UpperLetters(c);
    LowerLetters(c);
    Digits10(c);
    assert c in "-_" <==> c == '-' || c == '_' by { assert "-_"[0] == '-' && "-_"[1] == '_'; }
  }

  lemma UpperLetters(c: char)
    ensures 'A' <= c <= 'Z' <==> c in "ABCDEFGHIJKLMNOPQRSTUVWXYZ"
  {
    var row := "ABCDEFGHIJKLMNOPQRSTUVWXYZ";
    assert |row| == 26 && forall i :: 0 <= i < 26 ==> row[i] as nat == 'A' as nat + i;
    if 'A' <= c <= 'Z' { assert row[c as nat - 'A' as nat] == c; }
  }

  lemma LowerLetters(c: char)
    ensures 'a' <= c <= 'z' <==> c in "abcdefghijklmnopqrstuvwxyz"
  {
    var row := "abcdefghijklmnopqrstuvwxyz";
    assert |row| == 26 && forall i :: 0 <= i < 26 ==> row[i] as nat == 'a' as nat + i;
    if 'a' <= c <= 'z' { assert row[c as nat - 'a' as nat] == c; }
  }

  lemma Digits10(c: char)
    ensures '0' <= c <= '9' <==> c in "0123456789"
  {
    var row := "0123456789";
    assert |row| == 10 && forall i :: 0 <= i < 10 ==> row[i] as nat == '0' as nat + i;
    if '0' <= c <= '9' { assert row[c as nat - '0' as nat] == c; }
  }

  /** A segment is one to 256 of those characters. */
  predicate IsSegment(s: string) {
    && 1 <= |s| <= 256
    && forall i :: 0 <= i < |s| ==>
         s[i] in "ABCDEFGHIJKLMNOPQRSTUVWXYZ" + "abcdefghijklmnopqrstuvwxyz" + "0123456789" + "-_"
  }

  lemma SegmentsAreValid(s: string)
    ensures ValidComponent(s) <==> IsSegment(s)
    ensures ValidNamespace(s) <==> IsSegment(s)
  {
    forall i | 0 <= i < |s|
      ensures Allowed(s[i]) <==>
              s[i] in "ABCDEFGHIJKLMNOPQRSTUVWXYZ" + "abcdefghijklmnopqrstuvwxyz" + "0123456789" + "-_"
    {
      AllowedAlphabet(s[i]);
    }
  }

  /** Minting is refused exactly when team or repository is no segment or the repository is named
      `global` or begins with an underscore. */
  lemma MintedIff(n: Note)
    ensures ObjectKey(n).Some? <==>
            && IsSegment(n.scope.team)
            && (n.scope.repo.Repo? ==>
                && IsSegment(n.scope.repo.name) && n.scope.repo.name != "global" && n.scope.repo.name[0] != '_')
  {
    SegmentsAreValid(n.scope.team);
    if n.scope.repo.Repo? { RepoAllowedIff(n.scope.repo.name); }
  }

  lemma RepoAllowedIff(name: string)
    ensures RepoAllowed(Repo(name)) <==> IsSegment(name) && name != "global" && name[0] != '_'
  {
    SegmentsAreValid(name);
    if name != "" { assert name[..1] == [name[0]]; }
  }

  /** What is minted: team, repository or `global`, id and version, in four segments. */
  lemma MintedKey(n: Note)
    requires ObjectKey(n).Some?
    ensures ObjectKey(n).value ==
            n.scope.team + "/" + (if n.scope.repo.Global? then "global" else n.scope.repo.name)
              + "/" + ("mem_" + Encode(n.id)) + "/" + ("ver_" + Encode(n.version))
  {
  }

  /** 26 characters of the id alphabet, in either case: no I, L, O or U. */
  predicate IsIdText(s: string) {
    && |s| == 26
    && forall i :: 0 <= i < 26 ==>
         s[i] in "0123456789" + "ABCDEFGHJKMNPQRSTVWXYZ" + "abcdefghjkmnpqrstvwxyz"
  }

  lemma DigitsRead(c: char)
    ensures DigitOf(c).Some? <==> c in "0123456789" + "ABCDEFGHJKMNPQRSTVWXYZ" + "abcdefghjkmnpqrstvwxyz"
  {
    UpperDigits(c);
    LowerDigits(c);
    Digits10(c);
  }

  lemma UpperDigits(c: char)
    ensures c in "ABCDEFGHJKMNPQRSTVWXYZ" <==> DigitOf(c).Some? && 'A' <= c <= 'Z'
  {
    var row := "ABCDEFGHJKMNPQRSTVWXYZ";
    assert forall n :: 10 <= n < 32 ==> row[n - 10] == Alphabet(n) by {
      forall n | 10 <= n < 32 ensures row[n - 10] == Alphabet(n) { AlphabetIsTable(n); }
    }
    if DigitOf(c).Some? && 'A' <= c <= 'Z' { assert row[DigitOf(c).value - 10] == c; }
    if c in row {
      var i :| 0 <= i < |row| && row[i] == c;
      AlphabetRises(i + 10, i + 10);
    }
  }

  lemma LowerRow(n: nat)
    requires 10 <= n < 32
    ensures "abcdefghjkmnpqrstvwxyz"[n - 10] == Lower(Alphabet(n))
  {
  }

  lemma LowerDigits(c: char)
    ensures c in "abcdefghjkmnpqrstvwxyz" <==> DigitOf(c).Some? && 'a' <= c <= 'z'
  {
    var row := "abcdefghjkmnpqrstvwxyz";
    if DigitOf(c).Some? && 'a' <= c <= 'z' {
      LowerRow(DigitOf(c).value);
      assert row[DigitOf(c).value - 10] == c;
    }
    if c in row {
      var i :| 0 <= i < |row| && row[i] == c;
      LowerRow(i + 10);
      AlphabetRises(i + 10, i + 10);
    }
  }

  lemma IdTextReads(s: string)
    ensures IsIdText(s) <==> |s| == ULID_LEN && Readable(s)
  {
    forall i | 0 <= i < |s|
      ensures DigitOf(s[i]).Some? <==> s[i] in "0123456789" + "ABCDEFGHJKMNPQRSTVWXYZ" + "abcdefghjkmnpqrstvwxyz"
    {
      DigitsRead(s[i]);
    }
  }

  /** Four segments make a key, the last two tagged ids. */
  ghost predicate IsKeyOf(key: string, team: string, repo: string, id: string, version: string) {
    && IsSegment(team) && IsSegment(repo) && IsIdText(id) && IsIdText(version)
    && key == team + "/" + repo + "/" + ("mem_" + id) + "/" + ("ver_" + version)
  }

  /** What parses: exactly the keys of four segments, the last two a tag and an id in either case. */
  lemma ParsedIff(key: string)
    ensures ParseObjectKey(key).Some? <==>
            exists team, repo, id, version :: IsKeyOf(key, team, repo, id, version)
  {
    if team, repo, id, version :| IsKeyOf(key, team, repo, id, version) { KeyParses(key, team, repo, id, version); }
    if ParseObjectKey(key).Some? {
      var parts := Split(key, '/');
      ParsedIsKey(key, parts);
    }
  }

  lemma ParsedIsKey(key: string, parts: seq<string>)
    requires ParseObjectKey(key).Some? && parts == Split(key, '/')
    ensures |parts| == 4 && |parts[2]| == 30 && |parts[3]| == 30
    ensures IsKeyOf(key, parts[0], parts[1], parts[2][4..], parts[3][4..])
  {
    ParsedPieces(key, parts);
    Rejoined(key, parts);
    TagAndId("mem_", parts[2]);
    TagAndId("ver_", parts[3]);
  }

  lemma ParsedPieces(key: string, parts: seq<string>)
    requires ParseObjectKey(key).Some? && parts == Split(key, '/')
    ensures |parts| == 4 && IsSegment(parts[0]) && IsSegment(parts[1])
    ensures ParseAfter("mem_", parts[2]).Some? && ParseAfter("ver_", parts[3]).Some?
  {
    SegmentsAreValid(parts[0]);
    SegmentsAreValid(parts[1]);
    GlobalIsSegment();
  }

  lemma TagAndId(tag: string, part: string)
    requires |tag| == 4 && ParseAfter(tag, part).Some?
    ensures |part| == 30 && part == tag + part[4..] && IsIdText(part[4..])
  {
    TailReads(tag, part);
    IdTextReads(part[4..]);
  }

  lemma GlobalIsSegment()
    ensures IsSegment("global")
  {
    SegmentsAreValid("global");
  }

  lemma ReadableTail(prefix: string, text: string)
    requires |prefix| == 4 && '/' !in prefix && IsIdText(text)
    ensures '/' !in prefix + text && ParseAfter(prefix, prefix + text).Some?
    ensures Parse(text) == Ok(ParseAfter(prefix, prefix + text).value)
  {
    var s := prefix + text;
    IdTextReads(text);
    assert s[4..] == text;
    forall i | 4 <= i < |s| ensures DigitOf(s[i]).Some? && s[i] != '/' { assert s[i] == text[i - 4]; }
  }

  /** And as what: a repository segment `global` is the team-wide scope. */
  lemma KeyParses(key: string, team: string, repo: string, id: string, version: string)
    requires IsKeyOf(key, team, repo, id, version)
    ensures ParseObjectKey(key).Some?
    ensures ParseObjectKey(key).value.scope == Scope(team, if repo == "global" then Global else Repo(repo))
    ensures Parse(id) == Ok(ParseObjectKey(key).value.id) && Parse(version) == Ok(ParseObjectKey(key).value.version)
  {
    SegmentsAreValid(team);
    SegmentsAreValid(repo);
    ComponentHasNoSlash(team);
    ComponentHasNoSlash(repo);
    ReadableTail("mem_", id);
    ReadableTail("ver_", version);
    ThreeSegments(team, repo, "mem_" + id, "ver_" + version);
    SplitNone("ver_" + version, '/');
    assert Split(key, '/') == [team, repo, "mem_" + id, "ver_" + version];
  }

  /** The pieces put together again. */
  lemma Rejoined(key: string, parts: seq<string>)
    requires parts == Split(key, '/') && |parts| == 4
    ensures key == parts[0] + "/" + parts[1] + "/" + parts[2] + "/" + parts[3]
  {
    SplitRejoins(key, '/');
    assert parts[1..][1..] == parts[2..] && parts[2..][1..] == parts[3..] && parts[3..][1..] == [];
    assert Rejoin(parts, '/') == parts[0] + ['/'] + Rejoin(parts[1..], '/');
    assert Rejoin(parts[1..], '/') == parts[1] + ['/'] + Rejoin(parts[2..], '/');
    assert Rejoin(parts[2..], '/') == parts[2] + ['/'] + Rejoin(parts[3..], '/');
    assert Rejoin(parts[3..], '/') == parts[3];
  }
}
