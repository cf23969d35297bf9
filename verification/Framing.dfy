/** Length-prefix framing (`framing.rs`) and the byte strings that are signed over it
    (`oplog/op.rs`, `oplog/head.rs`). A byte is a `char` below 256. */
module Framing {
  import opened Ulids
  import opened ObjectKeys

  type Bytes = string

  const U64_MAX := 0xFFFF_FFFF_FFFF_FFFF

  /** `n` in `width` little-endian bytes. */
  function Le(n: nat, width: nat): Bytes {
    if width == 0 then "" else [(n % 256) as char] + Le(n / 256, width - 1)
  }

  function FromLe(s: Bytes): nat {
    if s == [] then 0 else s[0] as nat + 256 * FromLe(s[1..])
  }

  function Pow256(width: nat): nat { if width == 0 then 1 else 256 * Pow256(width - 1) }

  lemma {:induction false} LeReads(n: nat, width: nat)
    requires n < Pow256(width)
    ensures |Le(n, width)| == width && FromLe(Le(n, width)) == n
  {
    if width > 0 {
      LeReads(n / 256, width - 1);
      assert Le(n, width)[1..] == Le(n / 256, width - 1);
    }
  }

  function Width(): nat { 8 }

  /** A `u64` in its eight bytes. */
  function LengthPrefix(n: nat): Bytes { Le(n, Width()) }

  lemma PrefixReads(n: nat)
    requires n <= U64_MAX
    ensures |LengthPrefix(n)| == 8 && FromLe(LengthPrefix(n)) == n
  {
    assert Pow256(4) == 0x1_0000_0000 by {
      assert Pow256(1) == 256;
      assert Pow256(2) == 65536;
      assert Pow256(3) == 16_777_216;
    }
    assert Pow256(8) == U64_MAX + 1 by {
      assert Pow256(5) == 256 * Pow256(4);
      assert Pow256(6) == 256 * Pow256(5);
      assert Pow256(7) == 256 * Pow256(6);
    }
    LeReads(n, Width());
  }

  /** One field: eight bytes of length, then the bytes. Lengths saturate, but no slice is that long. */
  function Frame(field: Bytes): Bytes {
    LengthPrefix(if |field| <= U64_MAX then |field| else U64_MAX) + field
  }

  /** Eight bytes are read as digits in base 256, the least first. */
  lemma LittleEndian(s: Bytes)
    requires |s| == 8
    ensures FromLe(s) == s[0] as nat + 0x100 * s[1] as nat + 0x1_0000 * s[2] as nat + 0x100_0000 * s[3] as nat
      + 0x1_0000_0000 * (s[4] as nat + 0x100 * s[5] as nat + 0x1_0000 * s[6] as nat + 0x100_0000 * s[7] as nat)
  {
    FourBytes(s);
    FourBytes(s[4..]);
    assert s[4..][4..] == [];
  }

  lemma FourBytes(s: Bytes)
    requires |s| >= 4
    ensures FromLe(s) == s[0] as nat + 0x100 * s[1] as nat + 0x1_0000 * s[2] as nat + 0x100_0000 * s[3] as nat
      + 0x1_0000_0000 * FromLe(s[4..])
  {
    assert s[1..][1..] == s[2..] && s[2..][1..] == s[3..] && s[3..][1..] == s[4..];
  }

  lemma {:induction false} LeIsBytes(n: nat, width: nat)
    ensures forall i :: 0 <= i < |Le(n, width)| ==> Le(n, width)[i] as nat < 256
  {
    if width > 0 { LeIsBytes(n / 256, width - 1); }
  }

  /** A field's frame is its length in those eight bytes and then the field, untouched. */
  lemma FrameIs(field: Bytes)
    requires |field| <= 0xFFFF_FFFF_FFFF_FFFF
    ensures |Frame(field)| == 8 + |field| && Frame(field)[8..] == field
    ensures FromLe(Frame(field)[..8]) == |field| && forall i :: 0 <= i < 8 ==> Frame(field)[i] as nat < 256
  {
    PrefixReads(|field|);
    LeIsBytes(|field|, Width());
    assert Frame(field)[..8] == LengthPrefix(|field|);
  }

  predicate Sized(field: Bytes) { |field| <= U64_MAX }

  function Framed(fields: seq<Bytes>): Bytes {
    if fields == [] then "" else Frame(fields[0]) + Framed(fields[1..])
  }

  class Buffer {
    var bytes: Bytes

    constructor ()
      ensures bytes == ""
    {
      bytes := "";
    }

    /** `push_framed`. */
    method PushFramed(field: Bytes)
      modifies this
      ensures bytes == old(bytes) + Frame(field)
    {
      var len := if |field| <= U64_MAX then |field| else U64_MAX;
      bytes := bytes + LengthPrefix(len);
      bytes := bytes + field;
    }
  }

  /** What reads back off a buffer: whole fields, until one is cut short. */
  function Parse(buf: Bytes): seq<Bytes>
    decreases |buf|
  {
    if |buf| < 8 then []
    else
      var len, rest := FromLe(buf[..8]), buf[8..];
      if |rest| < len then [] else [rest[..len]] + Parse(rest[len..])
  }

  /** `parse_framed`. */
  method ParseFramed(buf: Bytes) returns (out: seq<Bytes>)
    ensures out == Parse(buf)
  {
    out := [];
    var left := buf;
    while |left| >= 8
      invariant Parse(buf) == out + Parse(left)
      decreases |left|
    {
      var len, rest := FromLe(left[..8]), left[8..];
      if |rest| < len { break; }
      out := out + [rest[..len]];
      left := rest[len..];
    }
  }

  /** A framed field is read off whatever follows it. */
  lemma FrameReads(field: Bytes, rest: Bytes)
    requires Sized(field)
    ensures Parse(Frame(field) + rest) == [field] + Parse(rest)
  {
    PrefixReads(|field|);
    var buf := Frame(field) + rest;
    assert buf[..8] == LengthPrefix(|field|) && buf[8..] == field + rest;
    assert (field + rest)[..|field|] == field && (field + rest)[|field|..] == rest;
  }

  lemma {:induction false} FramedReads(fields: seq<Bytes>, rest: Bytes)
    requires forall f :: f in fields ==> Sized(f)
    ensures Parse(Framed(fields) + rest) == fields + Parse(rest)
  {
    if fields == [] {
      assert "" + rest == rest && [] + Parse(rest) == Parse(rest);
    } else {
      FramedReads(fields[1..], rest);
      FrameReads(fields[0], Framed(fields[1..]) + rest);
      FramedSteps(fields, rest);
    }
  }

  lemma Assoc<T>(a: seq<T>, b: seq<T>, c: seq<T>)
    ensures a + (b + c) == a + b + c
  {
  }

  lemma FramedSteps(fields: seq<Bytes>, rest: Bytes)
    requires fields != []
    ensures Framed(fields) + rest == Frame(fields[0]) + (Framed(fields[1..]) + rest)
    ensures [fields[0]] + (fields[1..] + Parse(rest)) == fields + Parse(rest)
  {
    Assoc(Frame(fields[0]), Framed(fields[1..]), rest);
    Assoc([fields[0]], fields[1..], Parse(rest));
    assert [fields[0]] + fields[1..] == fields;
  }

  /** Reading undoes writing. */
  lemma FramingRoundTrips(fields: seq<Bytes>)
    requires forall f :: f in fields ==> Sized(f)
    ensures Parse(Framed(fields)) == fields
  {
    FramedReads(fields, "");
    assert Framed(fields) + "" == Framed(fields);
    assert fields + [] == fields;
  }

  ghost predicate AllSized(fields: seq<Bytes>) { forall f :: f in fields ==> Sized(f) }

  lemma PrefixReadsBack(fs: seq<Bytes>, gs: seq<Bytes>)
    requires AllSized(fs) && AllSized(gs) && Framed(fs) <= Framed(gs)
    ensures fs <= gs
  {
    var rest := Framed(gs)[|Framed(fs)|..];
    assert Framed(gs) == Framed(fs) + rest;
    FramedReads(fs, rest);
    FramingRoundTrips(gs);
  }

  lemma PrefixFrames(fs: seq<Bytes>, gs: seq<Bytes>)
    requires fs <= gs
    ensures Framed(fs) <= Framed(gs)
  {
    assert gs == fs + gs[|fs|..];
    FramedAppend(fs, gs[|fs|..]);
  }

  /** If one list's bytes begin another's, the list begins the other; so framing is one to one, and
      no framing can be extended into another. */
  lemma FramingIsPrefixFaithful(fs: seq<Bytes>, gs: seq<Bytes>)
    requires AllSized(fs) && AllSized(gs)
    ensures Framed(fs) <= Framed(gs) <==> fs <= gs
    ensures Framed(fs) == Framed(gs) <==> fs == gs
  {
    if Framed(fs) <= Framed(gs) { PrefixReadsBack(fs, gs); }
    if fs <= gs { PrefixFrames(fs, gs); }
    if Framed(fs) == Framed(gs) { PrefixReadsBack(gs, fs); }
  }

  lemma {:induction false} FramedAppend(fs: seq<Bytes>, gs: seq<Bytes>)
    ensures Framed(fs + gs) == Framed(fs) + Framed(gs)
  {
    if fs == [] {
      assert fs + gs == gs;
    } else {
      FramedAppend(fs[1..], gs);
      assert (fs + gs)[1..] == fs[1..] + gs && (fs + gs)[0] == fs[0];
      assert Framed(fs + gs) == Frame(fs[0]) + Framed(fs[1..] + gs);
      assert Frame(fs[0]) + (Framed(fs[1..]) + Framed(gs)) == Frame(fs[0]) + Framed(fs[1..]) + Framed(gs);
    }
  }

  // ---------------------------------------------------------------- signed bytes

  datatype Rel = Related | Supersedes | Contradicts | Refines | Duplicates

  datatype Kind =
    | Remember | Edit | Forget | Redact | Reinforce
    | Link(to: UlidValue)
    | Relate(to: UlidValue, rel: Rel)

  type U64 = n: nat | n <= 0xFFFF_FFFF_FFFF_FFFF

  /** The signed fields of an op; keys and hashes are 32 bytes. */
  datatype SignedOp = SignedOp(
    opId: UlidValue, author: Bytes, authorKey: Bytes, lamport: U64, keyEpoch: U64,
    kind: Kind, noteId: UlidValue, objectKey: Bytes, cid: Bytes, prev: Bytes)

  datatype SignedHead = SignedHead(team: Bytes, author: Bytes, authorKey: Bytes, lamport: U64, tip: Bytes)

  predicate OpShaped(op: SignedOp) {
    Sized(op.author) && Sized(op.objectKey) && |op.authorKey| == 32 && |op.cid| == 32 && |op.prev| == 32
  }

  predicate HeadShaped(h: SignedHead) {
    Sized(h.team) && Sized(h.author) && |h.authorKey| == 32 && |h.tip| == 32
  }

  function RelTag(r: Rel): nat {
    match r case Related => 0 case Supersedes => 1 case Contradicts => 2 case Refines => 3 case Duplicates => 4
  }

  function KindTag(k: Kind): nat {
    match k
    case Remember => 0
    case Edit => 1
    case Forget => 2
    case Link(_) => 3
    case Redact => 4
    case Relate(_, _) => 5
    case Reinforce => 6
  }

  /** `push_op_kind`: a tag, then what the kind carries. */
  function KindBytes(k: Kind): Bytes {
    [KindTag(k) as char] +
    match k
    case Link(to) => Frame(IdText(to))
    case Relate(to, rel) => Frame(IdText(to)) + [RelTag(rel) as char]
    case _ => ""
  }

  function OpDomain(): Bytes { "hippius-memory-op/v2" }
  function HeadDomain(): Bytes { "hippius-memory-head/v1" }

  /** `Op::signing_bytes`. */
  function OpBytes(op: SignedOp): Bytes {
    OpDomain() + (Frame(Encode(op.opId)) + (Frame(op.author) + (op.authorKey +
      (LengthPrefix(op.lamport) + (LengthPrefix(op.keyEpoch) +
      (KindBytes(op.kind) + (Frame(IdText(op.noteId)) + (Frame(op.objectKey) + (op.cid + op.prev)))))))))
  }

  /** `HeadPointer::signing_bytes`. */
  function HeadBytes(h: SignedHead): Bytes {
    HeadDomain() + (Frame(h.team) + (Frame(h.author) + (h.authorKey + (LengthPrefix(h.lamport) + h.tip))))
  }

  /** The tag bytes on the wire, which signed ops depend on. */
  lemma KindsOnTheWire(to: UlidValue)
    ensures KindBytes(Remember) == [0 as char] && KindBytes(Edit) == [1 as char] && KindBytes(Forget) == [2 as char]
    ensures KindBytes(Redact) == [4 as char] && KindBytes(Reinforce) == [6 as char]
    ensures |KindBytes(Link(to))| == 39 && KindBytes(Link(to))[0] == 3 as char
    ensures KindBytes(Link(to))[9..] == "mem_" + Encode(to)
    ensures forall rel :: |KindBytes(Relate(to, rel))| == 40 && KindBytes(Relate(to, rel))[0] == 5 as char
    ensures forall rel :: KindBytes(Relate(to, rel))[9..39] == "mem_" + Encode(to)
    ensures forall i | 0 <= i < 5 ::
      KindBytes(Relate(to, [Related, Supersedes, Contradicts, Refines, Duplicates][i]))[39] as nat == i
  {
    EncodedIsClean(to);
    FrameIs(IdText(to));
    var f := Frame(IdText(to));
    assert KindBytes(Link(to)) == [3 as char] + f;
    assert KindBytes(Link(to))[9..] == f[8..];
    forall rel ensures KindBytes(Relate(to, rel))[0] == 5 as char && |KindBytes(Relate(to, rel))| == 40
      && KindBytes(Relate(to, rel))[9..39] == "mem_" + Encode(to)
      && KindBytes(Relate(to, rel))[39] == RelTag(rel) as char
    {
      assert KindBytes(Relate(to, rel)) == [5 as char] + f + [RelTag(rel) as char];
    }
  }

  lemma PeelFixed(x: Bytes, s: Bytes, y: Bytes, t: Bytes)
    requires |x| == |y| && x + s == y + t
    ensures x == y && s == t
  {
    assert (x + s)[..|x|] == x && (y + t)[..|y|] == y;
    assert (x + s)[|x|..] == s && (y + t)[|y|..] == t;
  }

  lemma PeelU64(m: U64, s: Bytes, n: U64, t: Bytes)
    requires LengthPrefix(m) + s == LengthPrefix(n) + t
    ensures m == n && s == t
  {
    PrefixReads(m);
    PrefixReads(n);
    PeelFixed(LengthPrefix(m), s, LengthPrefix(n), t);
  }

  lemma PeelFrame(x: Bytes, s: Bytes, y: Bytes, t: Bytes)
    requires Sized(x) && Sized(y) && Frame(x) + s == Frame(y) + t
    ensures x == y && s == t
  {
    assert Frame(x) + s == LengthPrefix(|x|) + (x + s) && Frame(y) + t == LengthPrefix(|y|) + (y + t);
    PeelU64(|x|, x + s, |y|, y + t);
    PeelFixed(x, s, y, t);
  }

  lemma IdTextInjective(a: UlidValue, b: UlidValue)
    ensures Sized(IdText(a)) && Sized(Encode(a))
    ensures IdText(a) == IdText(b) ==> a == b
    ensures Encode(a) == Encode(b) ==> a == b
  {
    EncodedIsClean(a);
    EncodedIsClean(b);
    if IdText(a) == IdText(b) { PeelFixed("mem_", Encode(a), "mem_", Encode(b)); }
  }

  lemma PeelId(a: UlidValue, s: Bytes, b: UlidValue, t: Bytes)
    requires Frame(IdText(a)) + s == Frame(IdText(b)) + t
    ensures a == b && s == t
  {
    IdTextInjective(a, b);
    IdTextInjective(b, a);
    PeelFrame(IdText(a), s, IdText(b), t);
  }

  lemma PeelLink(a: Kind, s: Bytes, b: Kind, t: Bytes)
    requires a.Link? && b.Link? && KindBytes(a) + s == KindBytes(b) + t
    ensures a == b && s == t
  {
    var tag := [3 as char];
    Assoc(tag, Frame(IdText(a.to)), s);
    Assoc(tag, Frame(IdText(b.to)), t);
    PeelFixed(tag, Frame(IdText(a.to)) + s, tag, Frame(IdText(b.to)) + t);
    PeelId(a.to, s, b.to, t);
  }

  lemma PeelRelate(a: Kind, s: Bytes, b: Kind, t: Bytes)
    requires a.Relate? && b.Relate? && KindBytes(a) + s == KindBytes(b) + t
    ensures a == b && s == t
  {
    var tag, x, y := [5 as char], [RelTag(a.rel) as char], [RelTag(b.rel) as char];
    Assoc(tag, Frame(IdText(a.to)) + x, s);
    Assoc(tag, Frame(IdText(b.to)) + y, t);
    PeelFixed(tag, Frame(IdText(a.to)) + x + s, tag, Frame(IdText(b.to)) + y + t);
    Assoc(Frame(IdText(a.to)), x, s);
    Assoc(Frame(IdText(b.to)), y, t);
    PeelId(a.to, x + s, b.to, y + t);
    PeelFixed(x, s, y, t);
    assert x[0] == y[0];
  }

  lemma SameTag(a: Kind, s: Bytes, b: Kind, t: Bytes)
    requires KindBytes(a) + s == KindBytes(b) + t
    ensures KindTag(a) == KindTag(b)
  {
    assert (KindBytes(a) + s)[0] == KindTag(a) as char && (KindBytes(b) + t)[0] == KindTag(b) as char;
  }

  /** The kind's bytes end where they end, whatever follows. */
  lemma PeelKind(a: Kind, s: Bytes, b: Kind, t: Bytes)
    requires KindBytes(a) + s == KindBytes(b) + t
    ensures a == b && s == t
  {
    SameTag(a, s, b, t);
    if a.Link? { PeelLink(a, s, b, t); }
    else if a.Relate? { PeelRelate(a, s, b, t); }
    else { PeelFixed(KindBytes(a), s, KindBytes(b), t); }
  }

  /** What follows the kind in an op's bytes. */
  function OpTail(op: SignedOp): Bytes {
    Frame(IdText(op.noteId)) + (Frame(op.objectKey) + (op.cid + op.prev))
  }

  function OpMiddle(op: SignedOp): Bytes {
    LengthPrefix(op.lamport) + (LengthPrefix(op.keyEpoch) + (KindBytes(op.kind) + OpTail(op)))
  }

  lemma TailInjective(a: SignedOp, b: SignedOp)
    requires OpShaped(a) && OpShaped(b) && OpTail(a) == OpTail(b)
    ensures a.noteId == b.noteId && a.objectKey == b.objectKey && a.cid == b.cid && a.prev == b.prev
  {
    PeelId(a.noteId, Frame(a.objectKey) + (a.cid + a.prev), b.noteId, Frame(b.objectKey) + (b.cid + b.prev));
    PeelFrame(a.objectKey, a.cid + a.prev, b.objectKey, b.cid + b.prev);
    PeelFixed(a.cid, a.prev, b.cid, b.prev);
  }

  lemma MiddleInjective(a: SignedOp, b: SignedOp)
    requires OpMiddle(a) == OpMiddle(b)
    ensures a.lamport == b.lamport && a.keyEpoch == b.keyEpoch && a.kind == b.kind && OpTail(a) == OpTail(b)
  {
    PeelU64(a.lamport, LengthPrefix(a.keyEpoch) + (KindBytes(a.kind) + OpTail(a)), b.lamport,
      LengthPrefix(b.keyEpoch) + (KindBytes(b.kind) + OpTail(b)));
    PeelU64(a.keyEpoch, KindBytes(a.kind) + OpTail(a), b.keyEpoch, KindBytes(b.kind) + OpTail(b));
    PeelKind(a.kind, OpTail(a), b.kind, OpTail(b));
  }

  /** A signature is over one op: no two ops, whatever their fields hold, have the same signed bytes. */
  lemma OpBytesInjective(a: SignedOp, b: SignedOp)
    requires OpShaped(a) && OpShaped(b)
    ensures OpBytes(a) == OpBytes(b) <==> a == b
  {
    if OpBytes(a) == OpBytes(b) {
      IdTextInjective(a.opId, b.opId);
      IdTextInjective(b.opId, a.opId);
      PeelFixed(OpDomain(), Frame(Encode(a.opId)) + (Frame(a.author) + (a.authorKey + OpMiddle(a))),
                OpDomain(), Frame(Encode(b.opId)) + (Frame(b.author) + (b.authorKey + OpMiddle(b))));
      PeelFrame(Encode(a.opId), Frame(a.author) + (a.authorKey + OpMiddle(a)), Encode(b.opId),
        Frame(b.author) + (b.authorKey + OpMiddle(b)));
      PeelFrame(a.author, a.authorKey + OpMiddle(a), b.author, b.authorKey + OpMiddle(b));
      PeelFixed(a.authorKey, OpMiddle(a), b.authorKey, OpMiddle(b));
      MiddleInjective(a, b);
      TailInjective(a, b);
    }
  }

  lemma Cut(x: Bytes, s: Bytes)
    ensures (x + s)[..|x|] == x && (x + s)[|x|..] == s
  {
  }

  /** Where an op's fields stand in what is signed: the domain, the op id, the author and its key, the
      two numbers, the kind, the note, its object, the content id and the link. */
  lemma OpLayout(op: SignedOp) returns (numbers: Bytes)
    requires OpShaped(op)
    ensures OpBytes(op) == "hippius-memory-op/v2" + Framed([Encode(op.opId), op.author]) + op.authorKey
      + (numbers + (KindBytes(op.kind) + (Framed(["mem_" + Encode(op.noteId), op.objectKey]) + (op.cid + op.prev))))
    ensures |numbers| == 16 && FromLe(numbers[..8]) == op.lamport && FromLe(numbers[8..]) == op.keyEpoch
    ensures |OpBytes(op)| == 220 + |op.author| + |KindBytes(op.kind)| + |op.objectKey|
  {
    EncodedIsClean(op.opId);
    EncodedIsClean(op.noteId);
    FrameIs(op.author);
    FrameIs(op.objectKey);
    PrefixReads(op.lamport);
    PrefixReads(op.keyEpoch);
    numbers := LengthPrefix(op.lamport) + LengthPrefix(op.keyEpoch);
    Cut(LengthPrefix(op.lamport), LengthPrefix(op.keyEpoch));
    MiddleIs(op);
    FramedPair(Encode(op.opId), op.author);
    Regroup(OpDomain(), Frame(Encode(op.opId)), Frame(op.author), op.authorKey, OpMiddle(op));
  }

  lemma MiddleIs(op: SignedOp)
    ensures OpMiddle(op) == LengthPrefix(op.lamport) + LengthPrefix(op.keyEpoch)
      + (KindBytes(op.kind) + (Framed([IdText(op.noteId), op.objectKey]) + (op.cid + op.prev)))
  {
    FramedPair(IdText(op.noteId), op.objectKey);
    Assoc(Frame(IdText(op.noteId)), Frame(op.objectKey), op.cid + op.prev);
    Assoc(LengthPrefix(op.lamport), LengthPrefix(op.keyEpoch), KindBytes(op.kind) + OpTail(op));
  }

  lemma FramedPair(a: Bytes, b: Bytes)
    ensures Framed([a, b]) == Frame(a) + Frame(b)
  {
    assert [a, b][1..] == [b] && [b][1..] == [];
    assert Framed([b]) == Frame(b);
  }

  lemma Regroup(a: Bytes, b: Bytes, c: Bytes, d: Bytes, e: Bytes)
    ensures a + (b + (c + (d + e))) == a + (b + c) + d + e
  {
    Assoc(b, c, d + e);
    Assoc(a, b + c, d + e);
    Assoc(a + (b + c), d, e);
  }

  /** And a head's. */
  lemma HeadLayout(h: SignedHead) returns (rest: Bytes)
    requires HeadShaped(h)
    ensures HeadBytes(h) == "hippius-memory-head/v1" + Framed([h.team, h.author]) + h.authorKey + rest
    ensures |rest| == 40 && FromLe(rest[..8]) == h.lamport && rest[8..] == h.tip
    ensures |HeadBytes(h)| == 110 + |h.team| + |h.author|
  {
    FrameIs(h.team);
    FrameIs(h.author);
    PrefixReads(h.lamport);
    rest := LengthPrefix(h.lamport) + h.tip;
    Cut(LengthPrefix(h.lamport), h.tip);
    FramedPair(h.team, h.author);
    Regroup(HeadDomain(), Frame(h.team), Frame(h.author), h.authorKey, rest);
  }

  lemma HeadBytesInjective(a: SignedHead, b: SignedHead)
    requires HeadShaped(a) && HeadShaped(b)
    ensures HeadBytes(a) == HeadBytes(b) <==> a == b
  {
    if HeadBytes(a) == HeadBytes(b) {
      var x, y := LengthPrefix(a.lamport) + a.tip, LengthPrefix(b.lamport) + b.tip;
      PeelFixed(HeadDomain(), Frame(a.team) + (Frame(a.author) + (a.authorKey + x)), HeadDomain(),
        Frame(b.team) + (Frame(b.author) + (b.authorKey + y)));
      PeelFrame(a.team, Frame(a.author) + (a.authorKey + x), b.team, Frame(b.author) + (b.authorKey + y));
      PeelFrame(a.author, a.authorKey + x, b.author, b.authorKey + y);
      PeelFixed(a.authorKey, x, b.authorKey, y);
      PeelU64(a.lamport, a.tip, b.lamport, b.tip);
    }
  }

  /** The tags of the signed types, after their common start. */
  function Tag(i: nat): Bytes
    requires i < 7
  {
    match i
    case 0 => "op/v2" case 1 => "head/v1" case 2 => "manifest/v1" case 3 => "manifest/v2"
    case 4 => "memberkey-v1" case 5 => "teamkey-wrap-sign/v2" case _ => "anchor-record/v1"
  }

  /** A message of one signed type is never one of another: the tags alone keep them apart. */
  lemma SignedTypesApart(i: nat, j: nat, s: Bytes, t: Bytes)
    requires i < 7 && j < 7 && i != j
    ensures "hippius-memory-" + Tag(i) + s != "hippius-memory-" + Tag(j) + t
  {
    var start := "hippius-memory-";
    assert start + Tag(i) + s == start + (Tag(i) + s) && start + Tag(j) + t == start + (Tag(j) + t);
    TagsApart(i, j, s, t);
    if start + (Tag(i) + s) == start + (Tag(j) + t) { PeelFixed(start, Tag(i) + s, start, Tag(j) + t); }
  }

  lemma TagsApart(i: nat, j: nat, s: Bytes, t: Bytes)
    requires i < 7 && j < 7 && i != j
    ensures Tag(i) + s != Tag(j) + t
  {
    var x, y := Tag(i) + s, Tag(j) + t;
    assert x[0] == Tag(i)[0] && y[0] == Tag(j)[0] && x[1] == Tag(i)[1] && y[1] == Tag(j)[1];
    if i in {2, 3} && j in {2, 3} { assert x[10] == Tag(i)[10] && y[10] == Tag(j)[10]; }
  }

  /** In particular no head verifies as an op. */
  lemma OpIsNoHead(op: SignedOp, h: SignedHead)
    ensures OpBytes(op) != HeadBytes(h)
  {
    var s := Frame(Encode(op.opId)) + (Frame(op.author) + (op.authorKey + OpMiddle(op)));
    var t := Frame(h.team) + (Frame(h.author) + (h.authorKey + (LengthPrefix(h.lamport) + h.tip)));
    DomainsApart(s, t);
  }

  lemma DomainsApart(s: Bytes, t: Bytes)
    ensures OpDomain() + s != HeadDomain() + t
  {
    assert (OpDomain() + s)[15] == 'o' && (HeadDomain() + t)[15] == 'h';
  }
}
