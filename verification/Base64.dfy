/** Canonical base64 (`base64.rs`, section 4 of RFC 4648 with the padding bits of section 3.5). Text
    is its bytes, one `char` each. */
module Base64 {

  type Byte = b: int | 0 <= b < 256

  datatype DecodeError = Length | InvalidChar | NonCanonical

  datatype Result<T> = Ok(value: T) | Err(error: DecodeError)

  /** The 64-character table, read off its runs; `AlphabetIsTable` has the table itself. */
  function Alphabet(n: nat): char
    requires n < 64
  {
    if n < 26 then (n + 'A' as nat) as char
    else if n < 52 then (n - 26 + 'a' as nat) as char
    else if n < 62 then (n - 52 + '0' as nat) as char
    else if n == 62 then '+' else '/'
  }

  /** `sextet`: the character of the low six bits. */
  function Sextet(bits: nat): char { Alphabet(bits % 64) }

  /** `value`. */
  function Value(c: char): Result<nat> {
    if 'A' <= c <= 'Z' then Ok(c as nat - 'A' as nat)
    else if 'a' <= c <= 'z' then Ok(c as nat - 'a' as nat + 26)
    else if '0' <= c <= '9' then Ok(c as nat - '0' as nat + 52)
    else if c == '+' then Ok(62)
    else if c == '/' then Ok(63)
    else Err(InvalidChar)
  }

  // ---------------------------------------------------------------- one group

  /** The four characters of one to three bytes. */
  function EncodeChunk(chunk: seq<Byte>): (quad: string)
    requires 1 <= |chunk| <= 3
    ensures |quad| == 4
  {
    var b0: nat := chunk[0];
    var b1: nat := if |chunk| > 1 then chunk[1] else 0;
    var b2: nat := if |chunk| > 2 then chunk[2] else 0;
    var group := b0 * 65536 + b1 * 256 + b2;
    [Sextet(group / 262_144), Sextet(group / 4096),
     if |chunk| > 1 then Sextet(group / 64) else '=',
     if |chunk| > 2 then Sextet(group) else '=']
  }

  /** Trailing `=` characters. */
  function Padding(quad: string): (n: nat)
    ensures n <= |quad|
    ensures forall i :: |quad| - n <= i < |quad| ==> quad[i] == '='
    ensures n < |quad| ==> quad[|quad| - 1 - n] != '='
  {
    if quad == [] || quad[|quad| - 1] != '=' then 0 else 1 + Padding(quad[..|quad| - 1])
  }

  /** The values of `cs`, six bits each, most significant first. */
  function Group(cs: string): Result<nat> {
    if cs == [] then Ok(0)
    else
      match Group(cs[..|cs| - 1])
      case Err(e) => Err(e)
      case Ok(high) =>
        match Value(cs[|cs| - 1])
        case Err(e) => Err(e)
        case Ok(v) => Ok(high * 64 + v)
  }

  /** The group shifted left by six bits for each missing character. */
  function Shifted(high: nat, padding: nat): nat {
    if padding == 0 then high else if padding == 1 then high * 64 else high * 4096
  }

  /** The big-endian bytes of a 24-bit group. */
  function BytesOf(group: nat): seq<Byte> {
    [group / 65536 % 256, group / 256 % 256, group % 256]
  }

  function DecodeQuad(quad: string, isLast: bool): Result<seq<Byte>>
    requires |quad| == 4
  {
    var padding := Padding(quad);
    if padding > 2 || (padding > 0 && !isLast) then Err(NonCanonical)
    else
      match Group(quad[..4 - padding])
      case Err(e) => Err(e)
      case Ok(high) =>
        Keep(high, padding)
  }

  /** The bytes a padded group stands for, if the bits padding marks unused are zero. */
  function Keep(high: nat, padding: nat): Result<seq<Byte>>
    requires padding <= 2
  {
    var bytes := BytesOf(Shifted(high, padding));
    if exists i :: 3 - padding <= i < 3 && bytes[i] != 0 then Err(NonCanonical)
    else Ok(bytes[..3 - padding])
  }

  // ---------------------------------------------------------------- whole texts

  function Encode(bytes: seq<Byte>): string {
    if bytes == [] then ""
    else if |bytes| <= 3 then EncodeChunk(bytes)
    else EncodeChunk(bytes[..3]) + Encode(bytes[3..])
  }

  function DecodeQuads(raw: string): Result<seq<Byte>>
    requires |raw| % 4 == 0
  {
    if raw == [] then Ok([])
    else
      match DecodeQuad(raw[..4], |raw| == 4)
      case Err(e) => Err(e)
      case Ok(head) =>
        Prepend(head, DecodeQuads(raw[4..]))
  }

  function Decode(raw: string): Result<seq<Byte>> {
    if |raw| % 4 != 0 then Err(Length) else DecodeQuads(raw)
  }

  function Min(a: nat, b: nat): nat { if a < b then a else b }

  lemma EncodeUnfolds(bytes: seq<Byte>)
    requires bytes != []
    ensures var n := Min(3, |bytes|); Encode(bytes) == EncodeChunk(bytes[..n]) + Encode(bytes[n..])
  {
    if |bytes| <= 3 {
      assert bytes[..|bytes|] == bytes && bytes[|bytes|..] == [];
      assert EncodeChunk(bytes) + "" == EncodeChunk(bytes);
    }
  }

  /** Four characters for every three bytes begun. */
  lemma {:induction false} EncodedLength(bytes: seq<Byte>)
    ensures |Encode(bytes)| == (|bytes| + 2) / 3 * 4
  {
    if bytes != [] {
      var n := Min(3, |bytes|);
      EncodeUnfolds(bytes);
      EncodedLength(bytes[n..]);
      Thirds(|bytes|);
    }
  }

  lemma Thirds(n: nat)
    ensures n >= 3 ==> (n + 2) / 3 == 1 + (n - 3 + 2) / 3
    ensures 0 < n < 3 ==> (n + 2) / 3 == 1
  {
  }

  /** `encode`, chunk by chunk. */
  method EncodeLoop(bytes: seq<Byte>) returns (out: string)
    ensures out == Encode(bytes)
  {
    out := "";
    var i := 0;
    while i < |bytes|
      invariant 0 <= i <= |bytes|
      invariant Encode(bytes) == out + Encode(bytes[i..])
    {
      var n := Min(3, |bytes| - i);
      EncodeUnfolds(bytes[i..]);
      assert bytes[i..][..n] == bytes[i..i + n] && bytes[i..][n..] == bytes[i + n..];
      out := out + EncodeChunk(bytes[i..i + n]);
      i := i + n;
    }
  }

  function Prepend(out: seq<Byte>, r: Result<seq<Byte>>): Result<seq<Byte>> {
    match r case Err(e) => Err(e) case Ok(rest) => Ok(out + rest)
  }

  /** The inner loop of `decode`: the group, character by character. */
  method GroupLoop(digits: string) returns (result: Result<nat>)
    ensures result == Group(digits)
  {
    var group := 0;
    for k := 0 to |digits|
      invariant Group(digits[..k]) == Ok(group)
    {
      assert digits[..k + 1][..k] == digits[..k];
      var v := Value(digits[k]);
      if v.Err? {
        GroupFails(digits, k);
        return Err(v.error);
      }
      group := group * 64 + v.value;
    }
    assert digits[..|digits|] == digits;
    result := Ok(group);
  }

  method DecodeQuadLoop(quad: string, isLast: bool) returns (result: Result<seq<Byte>>)
    requires |quad| == 4
    ensures result == DecodeQuad(quad, isLast)
  {
    var padding := Padding(quad);
    if padding > 2 || (padding > 0 && !isLast) { return Err(NonCanonical); }
    var group := GroupLoop(quad[..4 - padding]);
    if group.Err? { return Err(group.error); }
    result := Keep(group.value, padding);
  }

  lemma PrependNothing(r: Result<seq<Byte>>)
    ensures Prepend([], r) == r
  {
    if r.Ok? { assert [] + r.value == r.value; }
  }

  lemma PrependMore(out: seq<Byte>, head: seq<Byte>, r: Result<seq<Byte>>)
    ensures Prepend(out, Prepend(head, r)) == Prepend(out + head, r)
  {
    if r.Ok? { assert out + (head + r.value) == out + head + r.value; }
  }

  /** `decode`, quad by quad. */
  method DecodeLoop(raw: string) returns (result: Result<seq<Byte>>)
    ensures result == Decode(raw)
  {
    if |raw| % 4 != 0 { return Err(Length); }
    var out: seq<Byte> := [];
    var rest := raw;
    PrependNothing(DecodeQuads(raw));
    while rest != []
      invariant |rest| % 4 == 0 && Remains(raw, out, rest)
      decreases |rest|
    {
      var part := DecodeQuadLoop(rest[..4], |rest| == 4);
      DecodeStep(raw, out, rest, part);
      if part.Err? { return part; }
      out, rest := out + part.value, rest[4..];
    }
    DecodeEnds(raw, out);
    result := Ok(out);
  }

  /** What is left to decode of `raw`. */
  ghost predicate Remains(raw: string, out: seq<Byte>, rest: string)
  {
    |rest| % 4 == 0 && Decode(raw) == Prepend(out, DecodeQuads(rest))
  }

  lemma DecodeStep(raw: string, out: seq<Byte>, rest: string, part: Result<seq<Byte>>)
    requires rest != [] && Remains(raw, out, rest) && part == DecodeQuad(rest[..4], |rest| == 4)
    ensures if part.Err? then Decode(raw) == part else Remains(raw, out + part.value, rest[4..])
  {
    if part.Ok? { PrependMore(out, part.value, DecodeQuads(rest[4..])); }
  }

  lemma DecodeEnds(raw: string, out: seq<Byte>)
    requires Remains(raw, out, [])
    ensures Decode(raw) == Ok(out)
  {
    assert out + [] == out;
  }

  /** The first character outside the alphabet decides the error. */
  lemma {:induction false} GroupFails(cs: string, k: nat)
    requires k < |cs| && Group(cs[..k]).Ok? && Value(cs[k]).Err?
    ensures Group(cs) == Err(Value(cs[k]).error)
    decreases |cs|
  {
    var n := |cs| - 1;
    if k < n {
      assert cs[..n][..k] == cs[..k];
      GroupFails(cs[..n], k);
    }
  }

  // ---------------------------------------------------------------- the alphabet

  lemma AlphabetIsTable(n: nat)
    requires n < 64
    ensures ("ABCDEFGHIJKLMNOPQRSTUVWXYZ" + "abcdefghijklmnopqrstuvwxyz" + "0123456789" + "+/")[n] == Alphabet(n)
  {
    if n < 26 { assert "ABCDEFGHIJKLMNOPQRSTUVWXYZ"[n] == Alphabet(n); }
    else if n < 52 { assert "abcdefghijklmnopqrstuvwxyz"[n - 26] == Alphabet(n); }
    else if n < 62 { assert "0123456789"[n - 52] == Alphabet(n); }
    else { assert "+/"[n - 62] == Alphabet(n); }
  }

  lemma SextetThenValue(n: nat)
    requires n < 64
    ensures Value(Alphabet(n)) == Ok(n) && Alphabet(n) != '='
  {
  }

  lemma ValueThenSextet(c: char)
    requires Value(c).Ok?
    ensures Value(c).value < 64 && Alphabet(Value(c).value) == c
  {
    SextetThenValue(Value(c).value);
  }

  // ---------------------------------------------------------------- one group, both ways

  lemma Octets(b0: nat, b1: nat, b2: nat)
    requires b0 < 256 && b1 < 256 && b2 < 256
    ensures BytesOf(b0 * 65536 + b1 * 256 + b2) == [b0, b1, b2]
  {
    var g := b0 * 65536 + b1 * 256 + b2;
    assert g / 65536 == b0;
    assert g / 256 == b0 * 256 + b1;
  }

  lemma Group4(a: char, b: char, c: char, d: char)
    ensures Value(a).Ok? && Value(b).Ok? ==> Group([a, b]) == Ok(Value(a).value * 64 + Value(b).value)
    ensures Value(a).Ok? && Value(b).Ok? && Value(c).Ok? ==>
            Group([a, b, c]) == Ok((Value(a).value * 64 + Value(b).value) * 64 + Value(c).value)
    ensures Value(a).Ok? && Value(b).Ok? && Value(c).Ok? && Value(d).Ok? ==>
              Group([a, b, c, d]) ==
                Ok(((Value(a).value * 64 + Value(b).value) * 64 + Value(c).value) * 64 + Value(d).value)
    ensures Group([a, b]).Ok? ==> Value(a).Ok? && Value(b).Ok?
    ensures Group([a, b, c]).Ok? ==> Value(a).Ok? && Value(b).Ok? && Value(c).Ok?
    ensures Group([a, b, c, d]).Ok? ==> Value(a).Ok? && Value(b).Ok? && Value(c).Ok? && Value(d).Ok?
  {
    assert [a][..0] == [] && [a, b][..1] == [a] && [a, b, c][..2] == [a, b] && [a, b, c, d][..3] == [a, b, c];
    assert Group([]) == Ok(0);
    assert Group([a]) == if Value(a).Ok? then Ok(Value(a).value) else Err(Value(a).error);
  }

  lemma {:induction false} PaddingIs(quad: string, n: nat)
    requires n < |quad| && (forall i :: |quad| - n <= i < |quad| ==> quad[i] == '=') && quad[|quad| - 1 - n] != '='
    ensures Padding(quad) == n
  {
  }

  /** The digits of a group of four values. */
  lemma Values(v0: nat, v1: nat, v2: nat, v3: nat)
    requires v0 < 64 && v1 < 64 && v2 < 64 && v3 < 64
    ensures var g := ((v0 * 64 + v1) * 64 + v2) * 64 + v3;
            g < 16_777_216 && g / 262_144 == v0 && g / 4096 % 64 == v1 && g / 64 % 64 == v2 && g % 64 == v3
  {
    var g := ((v0 * 64 + v1) * 64 + v2) * 64 + v3;
    assert g / 64 == (v0 * 64 + v1) * 64 + v2;
    assert g / 4096 == v0 * 64 + v1;
    assert g / 262_144 == v0;
  }

  lemma Decompose(g: nat)
    requires g < 16_777_216
    ensures g == (g / 65536) * 65536 + (g / 256 % 256) * 256 + g % 256 && g / 65536 < 256
    ensures BytesOf(g) == [g / 65536, g / 256 % 256, g % 256]
  {
    assert g / 256 == g / 65536 * 256 + g / 256 % 256;
  }

  lemma SextetReads(bits: nat)
    ensures Value(Sextet(bits)) == Ok(bits % 64) && Sextet(bits) != '='
  {
    SextetThenValue(bits % 64);
  }

  /** The first two, three or four characters of a group read as its high bits. */
  lemma GroupReads(g: nat)
    requires g < 16_777_216
    ensures Group([Sextet(g / 262_144), Sextet(g / 4096)]) == Ok(g / 4096)
    ensures Group([Sextet(g / 262_144), Sextet(g / 4096), Sextet(g / 64)]) == Ok(g / 64)
    ensures Group([Sextet(g / 262_144), Sextet(g / 4096), Sextet(g / 64), Sextet(g)]) == Ok(g)
  {
    SextetReads(g / 262_144);
    SextetReads(g / 4096);
    SextetReads(g / 64);
    SextetReads(g);
    HighBits(g);
    Group4(Sextet(g / 262_144), Sextet(g / 4096), Sextet(g / 64), Sextet(g));
  }

  lemma HighBits(g: nat)
    requires g < 16_777_216
    ensures g / 262_144 % 64 == g / 262_144
    ensures g / 262_144 * 64 + g / 4096 % 64 == g / 4096
    ensures g / 4096 * 64 + g / 64 % 64 == g / 64
    ensures g / 64 * 64 + g % 64 == g
  {
  }

  /** Padding back what was shifted out of a group with no low bits. */
  lemma KeepReads(b0: nat, b1: nat, b2: nat)
    requires b0 < 256 && b1 < 256 && b2 < 256
    ensures var g := b0 * 65536 + b1 * 256 + b2;
            && Keep(g, 0) == Ok([b0, b1, b2])
            && (b2 == 0 ==> Keep(g / 64, 1) == Ok([b0, b1]))
            && (b1 == 0 && b2 == 0 ==> Keep(g / 4096, 2) == Ok([b0]))
  {
    var g := b0 * 65536 + b1 * 256 + b2;
    Octets(b0, b1, b2);
    var t := BytesOf(g);
    assert t == [b0, b1, b2] && t[..3] == t && t[..2] == [b0, b1] && t[..1] == [b0];
    if b2 == 0 { assert g / 64 * 64 == g; }
    if b1 == 0 && b2 == 0 { assert g / 4096 * 4096 == g; }
  }

  lemma ReadQuad(quad: string, n: nat, high: nat, isLast: bool)
    requires |quad| == 4 && 2 <= n <= 4 && (n < 4 ==> isLast)
    requires quad[n - 1] != '=' && forall i :: n <= i < 4 ==> quad[i] == '='
    requires Group(quad[..n]) == Ok(high)
    ensures DecodeQuad(quad, isLast) == Keep(high, 4 - n)
  {
    PaddingIs(quad, 4 - n);
  }

  /** The characters of a group whose low bits stand for padding. */
  function QuadOf(g: nat, p: nat): string {
    [Sextet(g / 262_144), Sextet(g / 4096), if p > 1 then '=' else Sextet(g / 64), if p > 0 then '=' else Sextet(g)]
  }

  lemma QuadReads(g: nat, p: nat, isLast: bool)
    requires g < 16_777_216 && p <= 2 && (p > 0 ==> isLast)
    ensures DecodeQuad(QuadOf(g, p), isLast) == Keep(if p == 0 then g else if p == 1 then g / 64 else g / 4096, p)
  {
    var quad := QuadOf(g, p);
    GroupReads(g);
    SextetReads(g / 4096);
    SextetReads(g / 64);
    SextetReads(g);
    assert quad[..4 - p] == if p == 0 then [Sextet(g / 262_144), Sextet(g / 4096), Sextet(g / 64), Sextet(g)]
                            else if p == 1 then [Sextet(g / 262_144), Sextet(g / 4096), Sextet(g / 64)]
                            else [Sextet(g / 262_144), Sextet(g / 4096)];
    ReadQuad(quad, 4 - p, if p == 0 then g else if p == 1 then g / 64 else g / 4096, isLast);
  }

  lemma ChunkThenQuad(chunk: seq<Byte>, isLast: bool)
    requires 1 <= |chunk| <= 3 && (|chunk| < 3 ==> isLast)
    ensures DecodeQuad(EncodeChunk(chunk), isLast) == Ok(chunk)
  {
    var b0: nat, b1: nat, b2: nat := chunk[0], if |chunk| > 1 then chunk[1] else 0, if |chunk| > 2 then chunk[2] else 0;
    var g, p := b0 * 65536 + b1 * 256 + b2, 3 - |chunk|;
    assert EncodeChunk(chunk) == QuadOf(g, p);
    QuadReads(g, p, isLast);
    KeepReads(b0, b1, b2);
    assert chunk == if p == 0 then [b0, b1, b2] else if p == 1 then [b0, b1] else [b0];
  }

  /** A value and the character that has it. */
  lemma CharOf(c: char, bits: nat)
    requires Value(c).Ok? && Value(c).value == bits % 64
    ensures c == Sextet(bits)
  {
    ValueThenSextet(c);
  }

  /** What an accepted group of four values says of its characters; missing ones count zero. */
  lemma GroupBack(a: char, b: char, c: char, d: char, v2: nat, v3: nat)
    requires Value(a).Ok? && Value(b).Ok?
    requires (Value(c) == Ok(v2) || v2 == 0) && (Value(d) == Ok(v3) || v3 == 0)
    ensures var g := ((Value(a).value * 64 + Value(b).value) * 64 + v2) * 64 + v3;
            && g < 16_777_216
            && a == Sextet(g / 262_144) && b == Sextet(g / 4096)
            && (Value(c) == Ok(v2) ==> c == Sextet(g / 64))
            && (Value(d) == Ok(v3) ==> d == Sextet(g))
  {
    var g := ((Value(a).value * 64 + Value(b).value) * 64 + v2) * 64 + v3;
    ValueThenSextet(a);
    ValueThenSextet(b);
    if Value(c) == Ok(v2) { ValueThenSextet(c); }
    if Value(d) == Ok(v3) { ValueThenSextet(d); }
    Values(Value(a).value, Value(b).value, v2, v3);
    CharOf(a, g / 262_144);
    CharOf(b, g / 4096);
    if Value(c) == Ok(v2) { CharOf(c, g / 64); }
    if Value(d) == Ok(v3) { CharOf(d, g); }
  }

  lemma FullQuad(quad: string)
    requires |quad| == 4 && Group(quad).Ok?
    ensures var g := Group(quad).value; g < 16_777_216 && QuadOf(g, 0) == quad
  {
    assert quad == [quad[0], quad[1], quad[2], quad[3]];
    Group4(quad[0], quad[1], quad[2], quad[3]);
    GroupBack(quad[0], quad[1], quad[2], quad[3], Value(quad[2]).value, Value(quad[3]).value);
  }

  lemma ThreeOfQuad(quad: string)
    requires |quad| == 4 && Group(quad[..3]).Ok? && quad[3] == '='
    ensures var g := Group(quad[..3]).value * 64; g < 16_777_216 && QuadOf(g, 1) == quad
  {
    assert quad[..3] == [quad[0], quad[1], quad[2]];
    Group4(quad[0], quad[1], quad[2], quad[3]);
    GroupBack(quad[0], quad[1], quad[2], quad[3], Value(quad[2]).value, 0);
  }

  lemma TwoOfQuad(quad: string)
    requires |quad| == 4 && Group(quad[..2]).Ok? && quad[2] == '=' && quad[3] == '='
    ensures var g := Group(quad[..2]).value * 4096; g < 16_777_216 && QuadOf(g, 2) == quad
  {
    assert quad[..2] == [quad[0], quad[1]];
    Group4(quad[0], quad[1], quad[2], quad[3]);
    GroupBack(quad[0], quad[1], quad[2], quad[3], 0, 0);
  }

  lemma PaddedQuad(quad: string, p: nat)
    requires |quad| == 4 && p <= 2 && p == Padding(quad) && Group(quad[..4 - p]).Ok?
    ensures var g := Shifted(Group(quad[..4 - p]).value, p); g < 16_777_216 && QuadOf(g, p) == quad
  {
    if p == 0 {
      assert quad[..4] == quad;
      FullQuad(quad);
    } else if p == 1 {
      ThreeOfQuad(quad);
    } else {
      TwoOfQuad(quad);
    }
  }

  lemma QuadThenChunk(quad: string, isLast: bool)
    requires |quad| == 4 && DecodeQuad(quad, isLast).Ok?
    ensures var bytes := DecodeQuad(quad, isLast).value;
            1 <= |bytes| <= 3 && (|bytes| < 3 ==> isLast) && EncodeChunk(bytes) == quad
  {
    var p := Padding(quad);
    PaddedQuad(quad, p);
    EncodesBack(Shifted(Group(quad[..4 - p]).value, p), p);
  }

  lemma EncodesBack(g: nat, p: nat)
    requires g < 16_777_216 && p <= 2
    requires forall i :: 3 - p <= i < 3 ==> BytesOf(g)[i] == 0
    ensures EncodeChunk(BytesOf(g)[..3 - p]) == QuadOf(g, p)
  {
    Decompose(g);
    assert p > 0 ==> BytesOf(g)[2] == 0;
    assert p > 1 ==> BytesOf(g)[1] == 0;
  }

  // ---------------------------------------------------------------- the bijection

  lemma DecodeJoin(raw: string, head: seq<Byte>, tail: seq<Byte>)
    requires raw != [] && |raw| % 4 == 0
    requires DecodeQuad(raw[..4], |raw| == 4) == Ok(head) && DecodeQuads(raw[4..]) == Ok(tail)
    ensures Decode(raw) == Ok(head + tail)
  {
  }

  /** The shape of an encoding: its first quad, and the encoding of the rest. */
  lemma EncodeShape(bytes: seq<Byte>, raw: string, n: nat)
    requires bytes != [] && raw == Encode(bytes) && n == Min(3, |bytes|)
    ensures |raw| >= 4 && |raw| % 4 == 0 && |raw[4..]| % 4 == 0
    ensures raw[..4] == EncodeChunk(bytes[..n]) && raw[4..] == Encode(bytes[n..])
    ensures n < 3 ==> |raw| == 4
  {
    EncodeUnfolds(bytes);
    Concatenation(raw, EncodeChunk(bytes[..n]), Encode(bytes[n..]));
    EncodedInQuads(bytes);
    EncodedInQuads(bytes[n..]);
    if n < 3 { assert bytes[n..] == []; }
  }

  lemma {:induction false} EncodedInQuads(bytes: seq<Byte>)
    ensures |Encode(bytes)| % 4 == 0
  {
    if bytes != [] {
      EncodeUnfolds(bytes);
      EncodedInQuads(bytes[Min(3, |bytes|)..]);
    }
  }

  lemma Concatenation(raw: string, head: string, rest: string)
    requires raw == head + rest && |head| == 4
    ensures raw != [] && raw[..4] == head && raw[4..] == rest
  {
  }

  lemma Rejoin(bytes: seq<Byte>, raw: string, n: nat)
    requires |raw| >= 4 && |raw| % 4 == 0 && |raw[4..]| % 4 == 0
    requires 1 <= n <= 3 && n <= |bytes| && (n < 3 ==> |raw| == 4)
    requires raw[..4] == EncodeChunk(bytes[..n]) && DecodeQuads(raw[4..]) == Ok(bytes[n..])
    ensures Decode(raw) == Ok(bytes)
  {
    ChunkThenQuad(bytes[..n], |raw| == 4);
    DecodeJoin(raw, bytes[..n], bytes[n..]);
    assert bytes[..n] + bytes[n..] == bytes;
  }

  lemma {:induction false} EncodeThenDecode(bytes: seq<Byte>)
    ensures Decode(Encode(bytes)) == Ok(bytes)
  {
    if bytes != [] {
      var n, raw := Min(3, |bytes|), Encode(bytes);
      EncodeShape(bytes, raw, n);
      EncodeThenDecode(bytes[n..]);
      Rejoin(bytes, raw, n);
    }
  }

  /** What decoding a non-empty text did. */
  lemma DecodeParts(raw: string)
    requires raw != [] && Decode(raw).Ok?
    ensures |raw| >= 4 && |raw| % 4 == 0 && |raw[4..]| % 4 == 0
    ensures DecodeQuad(raw[..4], |raw| == 4).Ok? && DecodeQuads(raw[4..]).Ok?
            && Decode(raw[4..]) == DecodeQuads(raw[4..])
    ensures Decode(raw).value == DecodeQuad(raw[..4], |raw| == 4).value + DecodeQuads(raw[4..]).value
  {
  }

  lemma EncodeJoin(raw: string, head: seq<Byte>, tail: seq<Byte>)
    requires |raw| >= 4 && 1 <= |head| <= 3 && (|head| < 3 ==> |raw| == 4)
    requires EncodeChunk(head) == raw[..4] && Encode(tail) == raw[4..]
    ensures Encode(head + tail) == raw
  {
    assert raw == raw[..4] + raw[4..];
    EncodedLength(tail);
    if |raw| == 4 {
      assert tail == [] && head + tail == head;
    } else {
      assert (head + tail)[..3] == head && (head + tail)[3..] == tail;
      EncodeUnfolds(head + tail);
    }
  }

  lemma {:induction false} DecodeThenEncode(raw: string)
    requires Decode(raw).Ok?
    ensures Encode(Decode(raw).value) == raw
  {
    if raw != [] {
      DecodeParts(raw);
      QuadThenChunk(raw[..4], |raw| == 4);
      DecodeThenEncode(raw[4..]);
      EncodeJoin(raw, DecodeQuad(raw[..4], |raw| == 4).value, DecodeQuads(raw[4..]).value);
    }
  }

  /** Decoding accepts exactly the encoder's outputs, each as the bytes it came from. */
  lemma DecodeIsExact(raw: string, bytes: seq<Byte>)
    ensures Decode(raw) == Ok(bytes) <==> raw == Encode(bytes)
  {
    EncodeThenDecode(bytes);
    if Decode(raw).Ok? { DecodeThenEncode(raw); }
  }
}
