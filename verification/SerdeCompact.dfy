/** Embedding vectors as packed little-endian words in base64 (`serde_compact.rs`). A float is its
    32-bit pattern. */
module SerdeCompact {
  import opened Options
  import opened Base64

  type Word = w: int | 0 <= w < 0x1_0000_0000

  /** A JSON value as the field may hold it. */
  datatype Wire = Null | Text(text: string) | Array(numbers: seq<Word>)

  datatype Read = Read(floats: Option<seq<Word>>) | BadBase64(error: DecodeError) | Ragged

  function LittleEndian(w: Word): seq<Byte> {
    [w % 256, w / 256 % 256, w / 65536 % 256, w / 16_777_216]
  }

  function FromLittleEndian(b: seq<Byte>): nat
    requires |b| == 4
  {
    var b0: nat, b1: nat, b2: nat, b3: nat := b[0], b[1], b[2], b[3];
    b0 + 256 * b1 + 65536 * b2 + 16_777_216 * b3
  }

  function Pack(words: seq<Word>): seq<Byte> {
    if words == [] then [] else LittleEndian(words[0]) + Pack(words[1..])
  }

  function Unpack(bytes: seq<Byte>): seq<Word>
    requires |bytes| % 4 == 0
  {
    if bytes == [] then [] else FromBytesInRange(bytes[..4]); [FromLittleEndian(bytes[..4])] + Unpack(bytes[4..])
  }

  lemma FromBytesInRange(b: seq<Byte>)
    requires |b| == 4
    ensures FromLittleEndian(b) < 0x1_0000_0000
  {
  }

  function Serialize(floats: Option<seq<Word>>): Wire {
    if floats == None then Null else Text(Encode(Pack(floats.value)))
  }

  function Deserialize(wire: Wire): Read {
    match wire
    case Null => Read(None)
    case Array(numbers) => Read(Some(numbers))
    case Text(text) =>
      match Decode(text)
      case Err(e) => BadBase64(e)
      case Ok(bytes) => if |bytes| % 4 != 0 then Ragged else Read(Some(Unpack(bytes)))
  }

  lemma WordThenBytes(w: Word)
    ensures FromLittleEndian(LittleEndian(w)) == w
  {
    var x: nat := w;
    assert x / 256 == x / 65536 * 256 + x / 256 % 256;
    assert x / 65536 == x / 16_777_216 * 256 + x / 65536 % 256;
  }

  lemma BytesThenWord(b: seq<Byte>)
    requires |b| == 4
    ensures FromLittleEndian(b) < 0x1_0000_0000 && LittleEndian(FromLittleEndian(b)) == b
  {
    var b0: nat, b1: nat, b2: nat, b3: nat := b[0], b[1], b[2], b[3];
    var w: nat := FromLittleEndian(b);
    assert w / 256 == b1 + 256 * b2 + 65536 * b3;
    assert w / 65536 == b2 + 256 * b3;
    assert w / 16_777_216 == b3;
  }

  lemma {:induction false} PackThenUnpack(words: seq<Word>)
    ensures |Pack(words)| % 4 == 0 && Unpack(Pack(words)) == words
  {
    if words != [] {
      PackThenUnpack(words[1..]);
      WordThenBytes(words[0]);
      var bytes := Pack(words);
      assert bytes[..4] == LittleEndian(words[0]) && bytes[4..] == Pack(words[1..]);
      assert words == [words[0]] + words[1..];
    }
  }

  lemma {:induction false} UnpackThenPack(bytes: seq<Byte>)
    requires |bytes| % 4 == 0
    ensures Pack(Unpack(bytes)) == bytes
  {
    if bytes != [] {
      BytesThenWord(bytes[..4]);
      UnpackThenPack(bytes[4..]);
      var words := Unpack(bytes);
      assert words[1..] == Unpack(bytes[4..]);
      assert bytes == bytes[..4] + bytes[4..];
    }
  }

  /** Any list of bit patterns, or none, survives the file. */
  lemma SerializeThenDeserialize(floats: Option<seq<Word>>)
    ensures Deserialize(Serialize(floats)) == Read(floats)
  {
    if floats.Some? {
      PackThenUnpack(floats.value);
      EncodeThenDecode(Pack(floats.value));
    }
  }

  /** A text is read as a list exactly when it is what that list is written as. */
  lemma TextIsCanonical(text: string, words: seq<Word>)
    ensures Deserialize(Text(text)) == Read(Some(words)) <==> Text(text) == Serialize(Some(words))
  {
    SerializeThenDeserialize(Some(words));
    if Decode(text).Ok? {
      DecodeThenEncode(text);
      if |Decode(text).value| % 4 == 0 { UnpackThenPack(Decode(text).value); }
    }
  }
}
