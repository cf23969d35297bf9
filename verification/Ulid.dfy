/** 128-bit sortable ids in Crockford base32 (`ulid.rs`). Text is its bytes, one `char` each. */
module Ulids {
  import opened Options

  datatype DecodeError = InvalidLength | InvalidChar

  datatype Parsed = Ok(value: nat) | Err(error: DecodeError)

  const ULID_LEN := 26

  /** `ULID_LEN` as a value to compute with. */
  function Length(): nat { ULID_LEN }

  const TWO_128 := 0x1_0000_0000_0000_0000_0000_0000_0000_0000
  const TWO_125 := 0x2000_0000_0000_0000_0000_0000_0000_0000
  const TWO_80 := 0x1_0000_0000_0000_0000_0000
  const TWO_48 := 0x1_0000_0000_0000
  const NO_VALUE := 255

  /** The 32 characters: digits, then the letters without I, L, O and U. `AlphabetIsTable` has the
      table itself. */
  function Alphabet(n: nat): char
    requires n < 32
  {
    if n < 10 then (n + '0' as nat) as char
    else if n < 18 then (n - 10 + 'A' as nat) as char
    else if n < 20 then (n - 18 + 'J' as nat) as char
    else if n < 22 then (n - 20 + 'M' as nat) as char
    else if n < 27 then (n - 22 + 'P' as nat) as char
    else (n - 27 + 'V' as nat) as char
  }

  lemma AlphabetIsTable(n: nat)
    requires n < 32
    ensures ("0123456789" + "ABCDEFGHJKMNPQRSTVWXYZ")[n] == Alphabet(n)
  {
    if n < 10 { assert "0123456789"[n] == Alphabet(n); }
    else { assert "ABCDEFGHJKMNPQRSTVWXYZ"[n - 10] == Alphabet(n); }
  }

  function Lower(c: char): char {
    if 'A' <= c <= 'Z' then (c as nat - 'A' as nat + 'a' as nat) as char else c
  }

  function Upper(c: char): char {
    if 'a' <= c <= 'z' then (c as nat - 'a' as nat + 'A' as nat) as char else c
  }

  /** The digit a byte stands for, in either case. */
  function DigitOf(c: char): (d: Option<nat>)
    ensures d.Some? ==> d.value < 32 && Alphabet(d.value) == Upper(c)
    ensures d == None ==> forall n: nat :: n < 32 ==> Alphabet(n) != Upper(c)
  {
    var u := Upper(c);
    if '0' <= u <= '9' then Some(u as nat - '0' as nat)
    else if 'A' <= u <= 'H' then Some(u as nat - 'A' as nat + 10)
    else if 'J' <= u <= 'K' then Some(u as nat - 'J' as nat + 18)
    else if 'M' <= u <= 'N' then Some(u as nat - 'M' as nat + 20)
    else if 'P' <= u <= 'T' then Some(u as nat - 'P' as nat + 22)
    else if 'V' <= u <= 'Z' then Some(u as nat - 'V' as nat + 27)
    else None
  }

  lemma AlphabetRises(m: nat, n: nat)
    requires m < 32 && n < 32
    ensures Alphabet(m) < Alphabet(n) <==> m < n
    ensures Upper(Alphabet(n)) == Alphabet(n) && DigitOf(Alphabet(n)) == Some(n)
            && DigitOf(Lower(Alphabet(n))) == Some(n)
  {
  }

  /** `build_lookup`: the table holds each byte's digit, and no value for every other byte. */
  method BuildLookup() returns (lookup: seq<nat>)
    ensures |lookup| == 256
    ensures forall b :: 0 <= b < 256 ==> lookup[b] == match DigitOf(b as char) case Some(d) => d case None => NO_VALUE
  {
    var table := new nat[256](_ => NO_VALUE);
    var i := 0;
    while i < 32
      invariant 0 <= i <= 32
      invariant forall b :: 0 <= b < 256 ==> table[b] == Below(b as char, i)
    {
      AlphabetRises(i, i);
      var upper := Alphabet(i);
      table[upper as nat] := i;
      table[Lower(upper) as nat] := i;
      forall b | 0 <= b < 256 ensures table[b] == Below(b as char, i + 1) { EitherCase(b as char, i); }
      i := i + 1;
    }
    lookup := table[..];
  }

  /** The table entry once the first `i` characters are in. */
  function Below(c: char, i: nat): nat {
    match DigitOf(c) case Some(d) => if d < i then d else NO_VALUE case None => NO_VALUE
  }

  lemma EitherCase(c: char, i: nat)
    requires i < 32
    ensures DigitOf(c) == Some(i) <==> c == Alphabet(i) || c == Lower(Alphabet(i))
  {
  }

  // ---------------------------------------------------------------- base 32

  type Digits = seq<nat>

  ghost predicate Base32(ds: Digits) { forall i :: 0 <= i < |ds| ==> ds[i] < 32 }

  function FromDigits(ds: Digits): nat {
    if ds == [] then 0 else 32 * FromDigits(ds[..|ds| - 1]) + ds[|ds| - 1]
  }

  function ToDigits(v: nat, n: nat): Digits {
    if n == 0 then [] else ToDigits(v / 32, n - 1) + [v % 32]
  }

  function Pow32(n: nat): nat { if n == 0 then 1 else 32 * Pow32(n - 1) }

  lemma {:induction false} ToDigitsShape(v: nat, n: nat)
    ensures |ToDigits(v, n)| == n && Base32(ToDigits(v, n))
  {
    if n > 0 { ToDigitsShape(v / 32, n - 1); }
  }

  lemma {:induction false} FromThenTo(ds: Digits)
    requires Base32(ds)
    ensures ToDigits(FromDigits(ds), |ds|) == ds
  {
    if ds != [] {
      var n := |ds| - 1;
      FromThenTo(ds[..n]);
      Shift32(FromDigits(ds[..n]), ds[n]);
      assert ds == ds[..n] + [ds[n]];
    }
  }

  lemma Shift32(v: nat, d: nat)
    requires d < 32
    ensures (32 * v + d) / 32 == v && (32 * v + d) % 32 == d
  {
  }

  lemma {:induction false} ToThenFrom(v: nat, n: nat)
    requires v < Pow32(n)
    ensures FromDigits(ToDigits(v, n)) == v
  {
    if n > 0 {
      ToThenFrom(v / 32, n - 1);
      ToDigitsShape(v / 32, n - 1);
      var ds := ToDigits(v, n);
      assert ds[..n - 1] == ToDigits(v / 32, n - 1) && ds[n - 1] == v % 32;
    }
  }

  /** `a` is below `b` at `k`, the first place where they differ. */
  ghost predicate LessAt(a: Digits, b: Digits, k: nat) {
    k < |a| && k < |b| && a[k] < b[k] && forall i :: 0 <= i < k ==> a[i] == b[i]
  }

  lemma LessAtPop(a: Digits, b: Digits, k: nat)
    requires |a| == |b| > 0
    ensures LessAt(a, b, k) <==>
            if k == |a| - 1 then a[..|a| - 1] == b[..|a| - 1] && a[k] < b[k] else LessAt(a[..|a| - 1], b[..|a| - 1], k)
  {
    var n := |a| - 1;
    var x, y := a[..n], b[..n];
    assert forall i :: 0 <= i < n ==> x[i] == a[i] && y[i] == b[i];
  }

  lemma ValuesEqual(a: Digits, b: Digits)
    requires Base32(a) && Base32(b) && |a| == |b|
    ensures FromDigits(a) == FromDigits(b) <==> a == b
  {
    FromThenTo(a);
    FromThenTo(b);
  }

  /** Digit strings of one length sort as the numbers they stand for. */
  lemma {:induction false} DigitsSort(a: Digits, b: Digits)
    requires Base32(a) && Base32(b) && |a| == |b|
    ensures FromDigits(a) < FromDigits(b) <==> exists k: nat :: LessAt(a, b, k)
  {
    if a != [] {
      var n := |a| - 1;
      var x, y := a[..n], b[..n];
      DigitsSort(x, y);
      ValuesEqual(x, y);
      if FromDigits(x) < FromDigits(y) {
        var k: nat :| LessAt(x, y, k);
        LessAtPop(a, b, k);
      } else if x == y && a[n] < b[n] {
        LessAtPop(a, b, n);
      } else {
        forall k: nat ensures !LessAt(a, b, k) { LessAtPop(a, b, k); }
      }
    }
  }

  // ---------------------------------------------------------------- printing and parsing

  function Print(ds: Digits): string
    requires Base32(ds)
  {
    if ds == [] then "" else Print(ds[..|ds| - 1]) + [Alphabet(ds[|ds| - 1])]
  }

  /** `encode`. */
  function Encode(v: nat): string {
    ToDigitsShape(v, Length()); Print(ToDigits(v, Length()))
  }

  /** The loop of `encode`: an array filled from the end. */
  method EncodeLoop(v: nat) returns (text: string)
    ensures text == Encode(v)
  {
    var out := new char[ULID_LEN](_ => '0');
    var value, i := v, Length();
    ToDigitsShape(v, Length());
    ghost var done: Digits := [];
    assert ToDigits(v, Length()) == ToDigits(v, Length()) + done;
    while i > 0
      invariant 0 <= i <= ULID_LEN && |done| == ULID_LEN - i && Base32(done)
      invariant ToDigits(v, Length()) == ToDigits(value, i) + done
      invariant forall k :: i <= k < ULID_LEN ==> out[k] == Alphabet(done[k - i])
    {
      DigitMoves(value, i, done);
      i := i - 1;
      out[i] := Alphabet(value % 32);
      done := [value % 32] + done;
      value := value / 32;
    }
    assert ToDigits(v, Length()) == done;
    PrintIs(done, out[..]);
    text := out[..];
  }

  lemma DigitMoves(value: nat, i: nat, done: Digits)
    requires i > 0
    ensures ToDigits(value, i) + done == ToDigits(value / 32, i - 1) + ([value % 32] + done)
  {
  }

  lemma {:induction false} PrintIs(ds: Digits, text: string)
    requires Base32(ds) && |text| == |ds| && forall i :: 0 <= i < |ds| ==> text[i] == Alphabet(ds[i])
    ensures Print(ds) == text
  {
    if ds != [] {
      var n := |ds| - 1;
      PrintIs(ds[..n], text[..n]);
      assert text == text[..n] + [text[n]];
    }
  }

  lemma {:induction false} PrintAt(ds: Digits, i: nat)
    requires Base32(ds) && i < |ds|
    ensures |Print(ds)| == |ds| && Print(ds)[i] == Alphabet(ds[i])
  {
    var n := |ds| - 1;
    if n > 0 { PrintAt(ds[..n], if i < n then i else 0); }
  }

  ghost predicate Readable(text: string) { forall i :: 0 <= i < |text| ==> DigitOf(text[i]).Some? }

  /** The digits a readable text spells. */
  function Spelled(text: string): Digits
    requires Readable(text)
  {
    if text == [] then [] else Spelled(text[..|text| - 1]) + [DigitOf(text[|text| - 1]).value]
  }

  lemma {:induction false} SpelledAt(text: string)
    requires Readable(text)
    ensures |Spelled(text)| == |text| && Base32(Spelled(text))
    ensures forall i :: 0 <= i < |text| ==> Spelled(text)[i] == DigitOf(text[i]).value
  {
    if text != [] { SpelledAt(text[..|text| - 1]); }
  }

  /** The 128-bit accumulator: a left shift drops what leaves the top. */
  function Fold(ds: Digits): nat {
    if ds == [] then 0 else Fold(ds[..|ds| - 1]) * 32 % TWO_128 + ds[|ds| - 1]
  }

  /** Every character is a byte. */
  ghost predicate IsBytes(text: string) { forall i :: 0 <= i < |text| ==> text[i] as nat < 256 }

  /** `from_str`, reading each byte's digit from the lookup table. */
  method FromStr(text: string) returns (r: Parsed)
    requires IsBytes(text)
    ensures r == Parse(text)
  {
    if |text| != ULID_LEN { return Err(InvalidLength); }
    var lookup := BuildLookup();
    var value := 0;
    for i := 0 to |text|
      invariant Readable(text[..i]) && value == Fold(Spelled(text[..i]))
    {
      assert text[..i + 1][..i] == text[..i];
      var digit := lookup[text[i] as nat];
      assert digit == match DigitOf(text[i]) case Some(d) => d case None => NO_VALUE;
      if digit == NO_VALUE { return Err(InvalidChar); }
      assert Readable(text[..i + 1]);
      assert Spelled(text[..i + 1]) == Spelled(text[..i]) + [digit];
      FoldPush(Spelled(text[..i]), digit);
      value := value * 32 % TWO_128 + digit;
    }
    assert text[..|text|] == text;
    r := Ok(value);
  }

  lemma FoldPush(ds: Digits, d: nat)
    ensures Fold(ds + [d]) == Fold(ds) * 32 % TWO_128 + d
  {
    assert (ds + [d])[..|ds|] == ds;
  }

  /** What parsing answers. */
  ghost function Parse(text: string): Parsed {
    if |text| != ULID_LEN then Err(InvalidLength)
    else if !Readable(text) then Err(InvalidChar)
    else Ok(Fold(Spelled(text)))
  }

  lemma FoldStep(h: nat, d: nat)
    requires d < 32
    ensures h % TWO_128 * 32 % TWO_128 + d == (32 * h + d) % TWO_128
  {
    var q, r := h / TWO_128, h % TWO_128;
    var p, s := r * 32 / TWO_128, r * 32 % TWO_128;
    ShiftDrops(r, p, s);
    Remainder(32 * h + d, 32 * q + p, s + d);
  }

  /** What is left of a left shift ends in five zero bits. */
  lemma ShiftDrops(r: nat, p: nat, s: nat)
    requires r < TWO_128 && r * 32 == TWO_128 * p + s && s < TWO_128
    ensures s % 32 == 0 && s + 31 < TWO_128
  {
    assert s == 32 * (r - TWO_128 / 32 * p);
  }

  lemma Remainder(a: nat, q: nat, r: nat)
    requires a == TWO_128 * q + r && r < TWO_128
    ensures a % TWO_128 == r
  {
  }

  lemma {:induction false} FoldWraps(ds: Digits)
    requires Base32(ds)
    ensures Fold(ds) == FromDigits(ds) % TWO_128
  {
    if ds != [] {
      var n := |ds| - 1;
      FoldWraps(ds[..n]);
      FoldStep(FromDigits(ds[..n]), ds[n]);
    }
  }

  lemma Pow32Known()
    ensures Pow32(25) == TWO_125 && Pow32(26) == 32 * TWO_125
  {
    assert Pow32(1) == 32;
    assert Pow32(2) == 1024;
    assert Pow32(3) == 32768;
    assert Pow32(4) == 1048576;
    assert Pow32(5) == 33554432;
    assert Pow32(6) == 1073741824;
    assert Pow32(7) == 34359738368;
    assert Pow32(8) == 1099511627776;
    assert Pow32(9) == 35184372088832;
    assert Pow32(10) == 1125899906842624;
    assert Pow32(11) == 36028797018963968;
    assert Pow32(12) == 1152921504606846976;
    assert Pow32(13) == 36893488147419103232;
    assert Pow32(14) == 1180591620717411303424;
    assert Pow32(15) == 37778931862957161709568;
    assert Pow32(16) == 1208925819614629174706176;
    assert Pow32(17) == 38685626227668133590597632;
    assert Pow32(18) == 1237940039285380274899124224;
    assert Pow32(19) == 39614081257132168796771975168;
    assert Pow32(20) == 1267650600228229401496703205376;
    assert Pow32(21) == 40564819207303340847894502572032;
    assert Pow32(22) == 1298074214633706907132624082305024;
    assert Pow32(23) == 41538374868278621028243970633760768;
    assert Pow32(24) == 1329227995784915872903807060280344576;
    assert Pow32(25) == 42535295865117307932921825928971026432;
  }

  lemma PowersAt(n: nat)
    ensures n == 25 ==> Pow32(n) == TWO_125
    ensures n == 26 ==> Pow32(n) == 32 * TWO_125
  {
    Pow32Known();
  }

  lemma {:induction false} LeadingDigit(ds: Digits)
    requires ds != [] && Base32(ds)
    ensures FromDigits(ds) == ds[0] * Pow32(|ds| - 1) + FromDigits(ds[1..])
    ensures FromDigits(ds[1..]) < Pow32(|ds| - 1)
  {
    var n := |ds| - 1;
    if n > 0 {
      var front := ds[..n];
      LeadingDigit(front);
      var p, rest := Pow32(n - 1), ds[1..];
      assert rest[..n - 1] == front[1..] && rest[n - 1] == ds[n];
      assert FromDigits(rest) == 32 * FromDigits(front[1..]) + ds[n];
      TimesOut(ds[0], p, FromDigits(front[1..]), ds[n]);
    } else {
      assert ds[1..] == [];
      assert ds[..0] == [];
    }
  }

  lemma TimesOut(d: nat, p: nat, f: nat, last: nat)
    ensures 32 * (d * p + f) + last == d * (32 * p) + (32 * f + last)
  {
    assert 32 * (d * p) == d * (32 * p);
  }

  // ---------------------------------------------------------------- what holds of every id

  /** Parsing undoes printing, for every 128-bit value. */
  lemma PrintThenParse(v: nat)
    requires v < TWO_128
    ensures Parse(Encode(v)) == Ok(v)
  {
    EncodedDigits(v);
    ParsePrinted(ToDigits(v, Length()), v);
  }

  lemma ParsePrinted(ds: Digits, v: nat)
    requires Base32(ds) && |ds| == ULID_LEN && FromDigits(ds) == v < TWO_128
    ensures Parse(Print(ds)) == Ok(v)
  {
    PrintedReads(ds);
    FoldSmall(ds, v);
  }

  lemma FoldSmall(ds: Digits, v: nat)
    requires Base32(ds) && FromDigits(ds) == v < TWO_128
    ensures Fold(ds) == v
  {
    FoldWraps(ds);
  }

  lemma EncodedDigits(v: nat)
    requires v < TWO_128
    ensures |ToDigits(v, Length())| == ULID_LEN && Base32(ToDigits(v, Length()))
            && FromDigits(ToDigits(v, Length())) == v
  {
    PowersAt(Length());
    ToDigitsShape(v, Length());
    ToThenFrom(v, Length());
  }

  lemma PrintedReads(ds: Digits)
    requires Base32(ds)
    ensures |Print(ds)| == |ds| && Readable(Print(ds)) && Spelled(Print(ds)) == ds
  {
    var text := Print(ds);
    if ds != [] { PrintAt(ds, 0); }
    forall i | 0 <= i < |ds| ensures |text| == |ds| && DigitOf(text[i]) == Some(ds[i]) {
      PrintAt(ds, i);
      AlphabetRises(ds[i], ds[i]);
    }
    SpelledAt(text);
    assert Spelled(text) == ds;
  }

  ghost predicate TextLess(s: string, t: string) {
    exists k :: 0 <= k < |s| && k < |t| && s[k] < t[k] && s[..k] == t[..k]
  }

  lemma PrintedOrder(a: Digits, b: Digits, k: nat)
    requires Base32(a) && Base32(b) && |a| == |b| && k < |a|
    ensures |Print(a)| == |a| && |Print(b)| == |b|
    ensures LessAt(a, b, k) <==> Print(a)[k] < Print(b)[k] && Print(a)[..k] == Print(b)[..k]
  {
    PrintAt(a, k);
    PrintAt(b, k);
    AlphabetRises(a[k], b[k]);
    forall i | 0 <= i < |a| ensures Print(a)[i] == Print(b)[i] <==> a[i] == b[i] {
      PrintAt(a, i);
      PrintAt(b, i);
      AlphabetRises(a[i], b[i]);
      AlphabetRises(b[i], a[i]);
    }
    if Print(a)[..k] == Print(b)[..k] {
      forall i | 0 <= i < k ensures a[i] == b[i] { assert Print(a)[..k][i] == Print(b)[..k][i]; }
    }
  }

  /** Ids sort as text exactly as they sort as numbers. */
  lemma TextOrderIsNumeric(v: nat, w: nat)
    requires v < TWO_128 && w < TWO_128
    ensures TextLess(Encode(v), Encode(w)) <==> v < w
  {
    var a, b := ToDigits(v, Length()), ToDigits(w, Length());
    EncodedDigits(v);
    EncodedDigits(w);
    DigitsSort(a, b);
    PrintAt(a, 0);
    PrintAt(b, 0);
    if v < w {
      var k: nat :| LessAt(a, b, k);
      PrintedOrder(a, b, k);
    }
    if TextLess(Encode(v), Encode(w)) {
      var k :| 0 <= k < |Encode(v)| && k < |Encode(w)| && Encode(v)[k] < Encode(w)[k]
        && Encode(v)[..k] == Encode(w)[..k];
      PrintedOrder(a, b, k);
    }
  }

  /** The text a readable text of full length is an alias of: upper case, leading digit modulo 8. */
  function Canonical(text: string): (r: string)
    requires Readable(text) && |text| == ULID_LEN
    ensures |r| == ULID_LEN
  {
    [Alphabet(DigitOf(text[0]).value % 8)] + seq(ULID_LEN - 1, i requires 0 <= i < ULID_LEN - 1 => Upper(text[i + 1]))
  }

  lemma WrapLeading(ds: Digits)
    requires Base32(ds) && |ds| == ULID_LEN
    ensures FromDigits(ds) % TWO_128 == FromDigits([ds[0] % 8] + ds[1..])
  {
    var es := [ds[0] % 8] + ds[1..];
    assert es[1..] == ds[1..];
    LeadingOf26(ds);
    LeadingOf26(es);
    Wrapped(FromDigits(ds), FromDigits(es), ds[0], FromDigits(ds[1..]));
  }

  lemma Wrapped(x: nat, y: nat, d: nat, rest: nat)
    requires d < 32 && rest < TWO_125 && x == d * TWO_125 + rest && y == d % 8 * TWO_125 + rest
    ensures x % TWO_128 == y
  {
    Wrap(d, rest);
  }

  lemma LeadingOf26(ds: Digits)
    requires Base32(ds) && |ds| == ULID_LEN
    ensures FromDigits(ds) == ds[0] * TWO_125 + FromDigits(ds[1..]) && FromDigits(ds[1..]) < TWO_125
  {
    PowersAt(|ds| - 1);
    LeadingDigit(ds);
  }

  lemma Wrap(d: nat, rest: nat)
    requires d < 32 && rest < TWO_125
    ensures (d * TWO_125 + rest) % TWO_128 == d % 8 * TWO_125 + rest
  {
    assert d * TWO_125 + rest == TWO_128 * (d / 8) + (d % 8 * TWO_125 + rest);
  }

  lemma CanonicalAt(text: string, i: nat)
    requires Readable(text) && |text| == ULID_LEN && i < ULID_LEN
    ensures Canonical(text)[i] == Alphabet(if i == 0 then DigitOf(text[0]).value % 8 else DigitOf(text[i]).value)
  {
  }

  /** The digits of the canonical form. */
  lemma CanonicalPrints(text: string, ds: Digits)
    requires Readable(text) && |text| == ULID_LEN && ds == Spelled(text)
    ensures |ds| == ULID_LEN && Base32(ds) && Base32([ds[0] % 8] + ds[1..])
    ensures Print([ds[0] % 8] + ds[1..]) == Canonical(text)
  {
    SpelledAt(text);
    var es := [ds[0] % 8] + ds[1..];
    forall i: nat | i < ULID_LEN ensures es[i] < 32 && Canonical(text)[i] == Alphabet(es[i]) {
      CanonicalAt(text, i);
      assert es[i] == if i == 0 then ds[0] % 8 else ds[i];
    }
    PrintIs(es, Canonical(text));
  }

  /** Printing what an accepted text parses to gives its canonical form. */
  lemma ParseThenPrint(text: string)
    requires Parse(text).Ok?
    ensures Parse(text).value < TWO_128 && Encode(Parse(text).value) == Canonical(text)
  {
    var ds := Spelled(text);
    CanonicalPrints(text, ds);
    FoldWraps(ds);
    WrapLeading(ds);
    FromThenTo([ds[0] % 8] + ds[1..]);
  }

  /** Exactly which accepted texts share a value. */
  lemma AliasesAre(s: string, t: string)
    requires Parse(s).Ok? && Parse(t).Ok?
    ensures Parse(s) == Parse(t) <==> Canonical(s) == Canonical(t)
  {
    ParseThenPrint(s);
    ParseThenPrint(t);
    PrintThenParse(Parse(s).value);
    PrintThenParse(Parse(t).value);
  }

  // ---------------------------------------------------------------- the two parts

  /** `from_parts`: overflow bits of either part are dropped. */
  function FromParts(timestampMs: nat, random: nat): nat {
    timestampMs % TWO_48 * TWO_80 + random % TWO_80
  }

  function TimestampMs(v: nat): nat { v / TWO_80 }

  function Random(v: nat): nat { v % TWO_80 }

  /** The parts of an id, and the id of its parts. */
  lemma PartsRoundTrip(timestampMs: nat, random: nat, v: nat)
    requires v < TWO_128
    ensures FromParts(timestampMs, random) < TWO_128
    ensures TimestampMs(FromParts(timestampMs, random)) == timestampMs % TWO_48
    ensures Random(FromParts(timestampMs, random)) == random % TWO_80
    ensures FromParts(TimestampMs(v), Random(v)) == v
  {
    var t, r := timestampMs % TWO_48, random % TWO_80;
    assert (t * TWO_80 + r) / TWO_80 == t && (t * TWO_80 + r) % TWO_80 == r;
    assert v / TWO_80 < TWO_48;
  }

  /** An id minted at an earlier millisecond sorts first, as a number and as text. */
  lemma EarlierSortsFirst(v: nat, w: nat)
    requires v < TWO_128 && w < TWO_128 && TimestampMs(v) < TimestampMs(w)
    ensures v < w && TextLess(Encode(v), Encode(w))
  {
    TextOrderIsNumeric(v, w);
  }
}
