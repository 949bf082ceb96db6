/** The TTLV wire layout the encoder writes: one frame per element, made of
    the marker byte 0x42, the low 16 bits of the tag (signed, `>h`), the type
    byte, the 4-byte big-endian length field and the value bytes. */
module Wire {
  import opened Bytes

  /** A value after every name has been resolved to a number, in the shape
      the encoder lays it out. */
  datatype WireValue =
    | WStructure(children: seq<WireElem>)
    /** A `bytes` object given as a structure's value: copied verbatim, unpadded. */
    | WRawStructure(raw: seq<byte>)
    | WInteger(i: int)
    | WLongInteger(i: int)
    /** Laid out as a signed 64-bit field, like a long integer. */
    | WBigInteger(i: int)
    | WEnumeration(e: int)
    | WBoolean(b: bool)
    | WTextString(text: seq<byte>)
    | WByteString(data: seq<byte>)
    | WDateTime(t: int)
    | WInterval(i: int)
    | WDateTimeExtended(t: int)

  /** `tag` is the low 16 bits of the tag number; `typ` the type number. */
  datatype WireElem = WireElem(tag: int, typ: int, value: WireValue)

  const MARKER: byte := 0x42

  /** The eleven type names the codec handles. */
  const TYPE_NAMES: seq<string> := [
    "STRUCTURE", "INTEGER", "LONG_INTEGER", "BIG_INTEGER", "ENUMERATION", "BOOLEAN",
    "TEXT_STRING", "BYTE_STRING", "DATE_TIME", "INTERVAL", "DATE_TIME_EXTENDED"]

  /** The type name a value is written under. */
  function TypeNameOf(v: WireValue): (r: string)
    ensures r in TYPE_NAMES
  {
    match v
    case WStructure(_) => "STRUCTURE"
    case WRawStructure(_) => "STRUCTURE"
    case WInteger(_) => "INTEGER"
    case WLongInteger(_) => "LONG_INTEGER"
    case WBigInteger(_) => "BIG_INTEGER"
    case WEnumeration(_) => "ENUMERATION"
    case WBoolean(_) => "BOOLEAN"
    case WTextString(_) => "TEXT_STRING"
    case WByteString(_) => "BYTE_STRING"
    case WDateTime(_) => "DATE_TIME"
    case WInterval(_) => "INTERVAL"
    case WDateTimeExtended(_) => "DATE_TIME_EXTENDED"
  }

  // ---------------------------------------------------------------------
  // Sizes, computed without laying out any byte

  /** The length field the encoder writes for a value. */
  function LengthField(v: WireValue): (n: nat)
    ensures v.WInteger? || v.WEnumeration? || v.WInterval? ==> n == 4
    ensures v.WLongInteger? || v.WBigInteger? || v.WBoolean? || v.WDateTime? || v.WDateTimeExtended? ==> n == 8
  {
    match v
    case WStructure(cs) => FramesSize(cs)
    case WRawStructure(b) => |b|
    case WTextString(t) => |t|
    case WByteString(t) => |t|
    case WInteger(_) => 4
    case WEnumeration(_) => 4
    case WInterval(_) => 4
    case _ => 8
  }

  /** The number of value bytes that follow the 8-byte header. */
  function ValueSize(v: WireValue): nat
  {
    match v
    case WStructure(cs) => FramesSize(cs)
    case WRawStructure(b) => |b|
    case WTextString(t) => |t| + PadLength(|t|)
    case WByteString(t) => |t| + PadLength(|t|)
    case _ => 8
  }

  /** The size of an element's whole frame. */
  function FrameSize(e: WireElem): (n: nat)
    ensures n >= 8
  {
    8 + ValueSize(e.value)
  }

  function FramesSize(cs: seq<WireElem>): (n: nat)
    ensures cs != [] ==> n >= 8
  {
    if cs == [] then 0 else FramesSize(cs[..|cs| - 1]) + FrameSize(cs[|cs| - 1])
  }

  /** No structure anywhere in the element was given as pre-encoded bytes. */
  predicate NoRaw(e: WireElem) {
    match e.value
    case WRawStructure(_) => false
    case WStructure(cs) => forall c | c in cs :: NoRaw(c)
    case _ => true
  }

  // ---------------------------------------------------------------------
  // Which trees can be laid out

  /** Every field fits the `struct` format it is packed with: tag in `>h`
      (the encoder masks it to 16 bits, so it is non-negative), type in `>B`,
      length in `>I`, integers and intervals in `>i`, long and big integers
      in `>q`, enumerations in `>I`, date-times in `>Q`. */
  predicate ValidElem(e: WireElem) {
    && 0 <= e.tag < 0x8000
    && 0 <= e.typ < 256
    && LengthField(e.value) < Pow256(4)
    && ValidValue(e.value)
  }

  predicate ValidValue(v: WireValue) {
    match v
    case WStructure(cs) => forall c | c in cs :: ValidElem(c)
    case WInteger(i) => InSigned(i, 4)
    case WInterval(i) => InSigned(i, 4)
    case WLongInteger(i) => InSigned(i, 8)
    case WBigInteger(i) => InSigned(i, 8)
    case WEnumeration(e) => InUnsigned(e, 4)
    case WDateTime(t) => InUnsigned(t, 8)
    case WDateTimeExtended(t) => InUnsigned(t, 8)
    case _ => true
  }

  // ---------------------------------------------------------------------
  // Byte layout

  /** The value bytes, padding included. */
  function ValueBytes(v: WireValue): (r: seq<byte>)
    requires ValidValue(v)
  {
    match v
    case WStructure(cs) => Frames(cs)
    case WRawStructure(b) => b
    case WInteger(i) => SignedBigEndian(i, 4) + Zeros(4)
    case WInterval(i) => SignedBigEndian(i, 4) + Zeros(4)
    case WLongInteger(i) => SignedBigEndian(i, 8)
    case WBigInteger(i) => SignedBigEndian(i, 8)
    case WEnumeration(e) => BigEndian(e, 4) + Zeros(4)
    case WBoolean(b) => BigEndian(if b then 1 else 0, 8)
    case WTextString(t) => Padded(t)
    case WByteString(t) => Padded(t)
    case WDateTime(t) => BigEndian(t, 8)
    case WDateTimeExtended(t) => BigEndian(t, 8)
  }

  /** The 8-byte header: marker, tag, type, length. */
  function Header(e: WireElem): (r: seq<byte>)
    requires ValidElem(e)
    ensures |r| == 8
  {
    [MARKER] + SignedBigEndian(e.tag, 2) + [e.typ as byte] + BigEndian(LengthField(e.value), 4)
  }

  function Frame(e: WireElem): (r: seq<byte>)
    requires ValidElem(e)
  {
    Header(e) + ValueBytes(e.value)
  }

  /** Frames laid out one after another, as the encoder's buffer grows. */
  function Frames(cs: seq<WireElem>): (r: seq<byte>)
    requires forall c | c in cs :: ValidElem(c)
  {
    if cs == [] then [] else Frames(cs[..|cs| - 1]) + Frame(cs[|cs| - 1])
  }

  // ---------------------------------------------------------------------
  // Properties of the layout

  /** The bytes laid out for an element are exactly as many as the size
      model says. */
  lemma {:induction false} FrameLength(e: WireElem)
    requires ValidElem(e)
    ensures |Frame(e)| == FrameSize(e)
    ensures |ValueBytes(e.value)| == ValueSize(e.value)
    decreases e, 1
  {
    if e.value.WStructure? {
      FramesLength(e.value.children);
    }
  }

  lemma {:induction false} FramesLength(cs: seq<WireElem>)
    requires forall c | c in cs :: ValidElem(c)
    ensures |Frames(cs)| == FramesSize(cs)
    decreases cs, 0
  {
    if cs != [] {
      hide ValidElem;
      var init := cs[..|cs| - 1];
      forall c | c in init
        ensures ValidElem(c)
      {
        assert c in cs;
      }
      assert cs[|cs| - 1] in cs;
      FramesLength(init);
      FrameLength(cs[|cs| - 1]);
    }
  }

  /** Frames keep 8-byte alignment unless a pre-encoded structure breaks it. */
  lemma {:induction false} FrameAligned(e: WireElem)
    requires NoRaw(e)
    ensures FrameSize(e) % 8 == 0
    decreases e, 1
  {
    if e.value.WStructure? {
      FramesAligned(e.value.children);
    }
  }

  lemma {:induction false} FramesAligned(cs: seq<WireElem>)
    requires forall c | c in cs :: NoRaw(c)
    ensures FramesSize(cs) % 8 == 0
    decreases cs, 0
  {
    if cs != [] {
      hide NoRaw;
      var init := cs[..|cs| - 1];
      forall c | c in init
        ensures NoRaw(c)
      {
        assert c in cs;
      }
      assert cs[|cs| - 1] in cs;
      FramesAligned(init);
      FrameAligned(cs[|cs| - 1]);
      AlignedSum(FramesSize(init), FrameSize(cs[|cs| - 1]));
    }
  }

  lemma AlignedSum(a: nat, b: nat)
    requires a % 8 == 0 && b % 8 == 0
    ensures (a + b) % 8 == 0
  {
    assert a + b == 8 * (a / 8 + b / 8);
  }

  /** A structure's length field counts its children's frames, headers and
      padding included; every other length field counts the value bytes
      before padding. */
  lemma StructureLength(e: WireElem)
    requires ValidElem(e) && e.value.WStructure?
    requires forall c | c in e.value.children :: ValidElem(c)
    ensures LengthField(e.value) == |Frames(e.value.children)|
    ensures |Frame(e)| == 8 + LengthField(e.value)
  {
    FrameLength(e);
  }

  /** Appending one more frame extends the laid-out bytes by exactly that frame. */
  lemma FramesAppend(cs: seq<WireElem>, c: WireElem)
    requires forall x | x in cs :: ValidElem(x)
    requires ValidElem(c)
    ensures Frames(cs + [c]) == Frames(cs) + Frame(c)
  {
    assert (cs + [c])[..|cs|] == cs;
  }
}
