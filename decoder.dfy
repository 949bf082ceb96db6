/** The TTLV decoder (`DecodeTTLV` in decode_ttlv.py): a cursor over a byte
    buffer that prints one line `{indent}{TAG}:{TYPE}({size}):{value}` per
    element, keeping a stack (`nest`) of the offsets where open structures
    end and the bytes of the last `ATTRIBUTE_NAME` text it read.

    The pure functions below describe one piece of the decoder each, as a
    map from cursor to cursor; the class `DecodeTtlv` holds the same state
    in fields and its methods are proved to follow those functions. */
module Decoder {
  import opened Wrappers
  import opened Bytes
  import opened Strings
  import opened Registry
  import opened PyValue
  import opened Wire

  /** The exception that ends a decoding. */
  datatype DecodeError =
    /** `struct.error`: `unpack_from` needs more bytes than remain. */
    | Truncated
    /** The first byte of a header is not 0x42 ("bad tag"). */
    | BadMarker
    /** `KeyError`: the type name (or `None`) is not a key of `type_map`. */
    | UnknownType
    /** The type read is `DEFAULT` ("default value found"). */
    | DefaultType
    /** `AttributeError`: the enumeration class does not exist, or the tag
        name is `None` and cannot be split. */
    | NoEnumClass
    /** `UnicodeDecodeError`: the remembered attribute name is not UTF-8. */
    | NotUtf8

  /** What the decoder takes from outside: the enumeration catalog and
      `time.ctime`. */
  datatype Env = Env(catalog: Catalog, ctime: int -> string)

  /** The decoder's state: the read offset, the end offsets of the open
      structures (innermost last), the last attribute name read and the
      lines printed so far. */
  datatype Cursor = Cursor(offset: nat, nest: seq<nat>, attributeName: seq<byte>, output: seq<string>)

  /** A step's result together with the state it leaves, which on an error
      keeps whatever the step had already changed. */
  datatype Outcome<T> = Outcome(cursor: Cursor, result: Result<T, DecodeError>)

  /** The keys of `type_map`: the eleven type names and `DEFAULT`. */
  predicate Dispatched(typeName: string) {
    typeName in TYPE_NAMES || typeName == "DEFAULT"
  }

  // ---------------------------------------------------------------------
  // Enumeration names (_get_enum_name, _get_enum_name_attr)

  /** `_get_enum_name(tag, val)`: the name of the first member of the class
      named after `tag` (in CamelCase) whose value is `val`; `Ok(None)` when
      there is none. */
  function EnumName(cat: Catalog, tag: Option<string>, v: int): (r: Result<Option<string>, DecodeError>)
    ensures r.Err? <==> tag.None? || ClassName(tag.value) !in cat
    ensures r.Err? ==> r.error == NoEnumClass
    ensures r.Ok? && r.value.Some? ==> exists i :: 0 <= i < |cat[ClassName(tag.value)]| && cat[ClassName(tag.value)][i] == (r.value.value, v)
  {
    match tag
    case None => Err(NoEnumClass)
    case Some(t) => if ClassName(t) in cat then Ok(LookupValue(cat[ClassName(t)], v)) else Err(NoEnumClass)
  }

  /** `_get_enum_name_attr(tag, val)`: the same lookup in the class the
      remembered attribute name gives once its spaces are removed; there is
      no fallback class. */
  function EnumNameAttr(cat: Catalog, attr: seq<byte>, v: int): (r: Result<Option<string>, DecodeError>)
    ensures Utf8Decode(attr).None? ==> r == Err(NotUtf8)
    ensures Utf8Decode(attr).Some? ==>
              var cls := Remove(Utf8Decode(attr).value, ' ');
              (r.Ok? <==> cls in cat) && (r.Ok? ==> r.value == LookupValue(cat[cls], v))
  {
    match Utf8Decode(attr)
    case None => Err(NotUtf8)
    case Some(text) =>
      var cls := Remove(text, ' ');
      if cls in cat then Ok(LookupValue(cat[cls], v)) else Err(NoEnumClass)
  }

  /** How `format` prints a name that may be `None`. */
  function NameText(name: Option<string>): string {
    match name
    case Some(s) => s
    case None => "None"
  }

  /** The tag number `(0x42 << 16) | lo` for the signed 16-bit field `lo`:
      the 0x42 marker above a non-negative field, and the field itself when
      it is negative (its sign bits already cover the marker's). */
  function TagNumber(lo: int): (r: int)
    requires InSigned(lo, 2)
    ensures 0 <= lo ==> r / 0x1_0000 == 0x42 && r % 0x1_0000 == lo
    ensures lo < 0 ==> r == lo
  {
    if lo < 0 then lo else 0x42_0000 + lo
  }

  // ---------------------------------------------------------------------
  // The header (_decode_tag, _decode_type, _decode_size)

  /** `_decode_tag`: the marker byte and the signed 16-bit tag, named through
      the `Tags` class; three bytes consumed. */
  function TagStep(env: Env, buf: seq<byte>, c: Cursor): (r: Outcome<Option<string>>)
    ensures r.result.Ok? ==> r.cursor == c.(offset := c.offset + 3)
    ensures r.result.Err? ==> r.cursor == c
    ensures c.offset + 3 > |buf| ==> r.result == Err(Truncated)
    ensures c.offset + 3 <= |buf| && buf[c.offset] != MARKER ==> r.result == Err(BadMarker)
  {
    if c.offset + 3 > |buf| then Outcome(c, Err(Truncated))
    else if buf[c.offset] != MARKER then Outcome(c, Err(BadMarker))
    else
      var lo := FromSignedBigEndian(buf[c.offset + 1 .. c.offset + 3]);
      match EnumName(env.catalog, Some("Tags"), TagNumber(lo))
      case Err(e) => Outcome(c, Err(e))
      case Ok(name) => Outcome(c.(offset := c.offset + 3), Ok(name))
  }

  /** `_decode_type`: one byte, named through the `Types` class. */
  function TypeStep(env: Env, buf: seq<byte>, c: Cursor): (r: Outcome<Option<string>>)
    ensures r.result.Ok? ==> r.cursor == c.(offset := c.offset + 1)
    ensures r.result.Err? ==> r.cursor == c
    ensures c.offset + 1 > |buf| ==> r.result == Err(Truncated)
  {
    if c.offset + 1 > |buf| then Outcome(c, Err(Truncated))
    else
      match EnumName(env.catalog, Some("Types"), buf[c.offset] as int)
      case Err(e) => Outcome(c, Err(e))
      case Ok(name) => Outcome(c.(offset := c.offset + 1), Ok(name))
  }

  /** `_decode_size`: the 4-byte unsigned big-endian length. */
  function SizeStep(buf: seq<byte>, c: Cursor): (r: Outcome<nat>)
    ensures r.result.Ok? ==> r.cursor == c.(offset := c.offset + 4) && r.result.value < Pow256(4)
    ensures r.result.Err? ==> r.cursor == c && r.result.error == Truncated
  {
    if c.offset + 4 > |buf| then Outcome(c, Err(Truncated))
    else Outcome(c.(offset := c.offset + 4), Ok(FromBigEndian(buf[c.offset .. c.offset + 4])))
  }

  // ---------------------------------------------------------------------
  // The values (_decode_type_*); each gives the text `format` prints

  /** `_decode_type_struct`: the structure's end is pushed; the offset stays
      where the children begin. */
  function StructValue(c: Cursor, size: nat): (r: Outcome<string>)
    ensures r.result.Ok? && r.cursor.offset == c.offset
    ensures r.cursor.nest == c.nest + [c.offset + size] && r.cursor.attributeName == c.attributeName
  {
    var nest := c.nest + [c.offset + size];
    Outcome(c.(nest := nest), Ok("stru" + Decimal(|nest|)))
  }

  /** `_decode_type_int4` and `_decode_type_inter`: a signed 32-bit value,
      then the offset moves past the length read plus 4 bytes of padding. */
  function Int4Value(buf: seq<byte>, c: Cursor, size: nat): (r: Outcome<string>)
  {
    if c.offset + 4 > |buf| then Outcome(c, Err(Truncated))
    else Outcome(c.(offset := c.offset + size + 4), Ok(Decimal(FromSignedBigEndian(buf[c.offset .. c.offset + 4]))))
  }

  /** `_decode_type_long` and `_decode_type_bigint`: a signed 64-bit value;
      the offset moves by the length read. */
  function LongValue(buf: seq<byte>, c: Cursor, size: nat): (r: Outcome<string>)
  {
    if c.offset + 8 > |buf| then Outcome(c, Err(Truncated))
    else Outcome(c.(offset := c.offset + size), Ok(Decimal(FromSignedBigEndian(buf[c.offset .. c.offset + 8]))))
  }

  /** `_decode_type_enum`: an unsigned 32-bit value named through the class
      of the tag, or, for `ATTRIBUTE_VALUE`, the class the remembered
      attribute name gives. The offset has moved before the name is looked up. */
  function EnumValue(env: Env, buf: seq<byte>, c: Cursor, tag: Option<string>, size: nat): (r: Outcome<string>)
  {
    if c.offset + 4 > |buf| then Outcome(c, Err(Truncated))
    else
      var after := c.(offset := c.offset + size + 4);
      var v := FromBigEndian(buf[c.offset .. c.offset + 4]);
      var name := if tag == Some("ATTRIBUTE_VALUE") then EnumNameAttr(env.catalog, c.attributeName, v)
                  else EnumName(env.catalog, tag, v);
      match name
      case Err(e) => Outcome(after, Err(e))
      case Ok(n) => Outcome(after, Ok(NameText(n)))
  }

  /** `_decode_type_bool`: any non-zero 64-bit value is true. */
  function BoolValue(buf: seq<byte>, c: Cursor, size: nat): (r: Outcome<string>)
  {
    if c.offset + 8 > |buf| then Outcome(c, Err(Truncated))
    else Outcome(c.(offset := c.offset + size), Ok(if FromBigEndian(buf[c.offset .. c.offset + 8]) != 0 then "True" else "False"))
  }

  /** `_decode_type_text`: the bytes, cut short where the buffer ends, shown
      as `str()` of a `bytearray`; an `ATTRIBUTE_NAME` is remembered. The
      offset skips the padding, which is never read. */
  function TextValue(buf: seq<byte>, c: Cursor, tag: Option<string>, size: nat): (r: Outcome<string>)
  {
    var text := Slice(buf, c.offset, c.offset + size);
    var after := c.(offset := c.offset + size + PadLength(size));
    Outcome(if tag == Some("ATTRIBUTE_NAME") then after.(attributeName := text) else after,
            Ok("bytearray(" + ReprBytes(text) + ")"))
  }

  /** `_decode_type_bytes`: the bytes in hexadecimal, shown as `str()` of the
      `bytes` that `hexlify` returns. */
  function BytesValue(buf: seq<byte>, c: Cursor, size: nat): (r: Outcome<string>)
  {
    Outcome(c.(offset := c.offset + size + PadLength(size)), Ok("b'" + Hexlify(Slice(buf, c.offset, c.offset + size)) + "'"))
  }

  /** `_decode_type_date` and `_decode_type_exdate`: an unsigned 64-bit
      value given to `time.ctime`. */
  function DateValue(env: Env, buf: seq<byte>, c: Cursor, size: nat): (r: Outcome<string>)
  {
    if c.offset + 8 > |buf| then Outcome(c, Err(Truncated))
    else Outcome(c.(offset := c.offset + size), Ok(env.ctime(FromBigEndian(buf[c.offset .. c.offset + 8]))))
  }

  /** `self.type_map[type_val](tag_val, size_val)`. */
  function ValueStep(env: Env, buf: seq<byte>, c: Cursor, tag: Option<string>, typeName: Option<string>, size: nat)
    : (r: Outcome<string>)
    ensures typeName.None? || !Dispatched(typeName.value) ==> r == Outcome(c, Err(UnknownType))
    ensures typeName == Some("DEFAULT") ==> r == Outcome(c, Err(DefaultType))
    ensures r.cursor.output == c.output && r.cursor.offset >= c.offset
    ensures r.result.Ok? && typeName != Some("STRUCTURE") ==> r.cursor.nest == c.nest
    ensures r.cursor.attributeName != c.attributeName ==> tag == Some("ATTRIBUTE_NAME") && typeName == Some("TEXT_STRING")
  {
    if typeName.None? || !Dispatched(typeName.value) then Outcome(c, Err(UnknownType))
    else
      var t := typeName.value;
      if t == "DEFAULT" then Outcome(c, Err(DefaultType))
      else if t == "STRUCTURE" then StructValue(c, size)
      else if t == "INTEGER" || t == "INTERVAL" then Int4Value(buf, c, size)
      else if t == "LONG_INTEGER" || t == "BIG_INTEGER" then LongValue(buf, c, size)
      else if t == "ENUMERATION" then EnumValue(env, buf, c, tag, size)
      else if t == "BOOLEAN" then BoolValue(buf, c, size)
      else if t == "TEXT_STRING" then TextValue(buf, c, tag, size)
      else if t == "BYTE_STRING" then BytesValue(buf, c, size)
      else DateValue(env, buf, c, size)
  }

  // ---------------------------------------------------------------------
  // The loop (decode)

  /** `" " * n`. */
  function Spaces(n: nat): (r: string)
    ensures |r| == n && forall i :: 0 <= i < n ==> r[i] == ' '
  {
    seq(n, _ => ' ')
  }

  /** The line `decode` prints for one element. */
  function Line(depth: nat, tag: Option<string>, typeName: string, size: nat, value: string): string {
    Spaces(depth) + NameText(tag) + ":" + typeName + "(" + Decimal(size) + "):" + value
  }

  /** The structures that end at `offset`, popped from the top of the stack. */
  function PopClosed(offset: nat, nest: seq<nat>): (r: seq<nat>)
    ensures r <= nest
    ensures r != [] ==> r[|r| - 1] != offset
    ensures forall i :: |r| <= i < |nest| ==> nest[i] == offset
  {
    if nest != [] && nest[|nest| - 1] == offset then PopClosed(offset, nest[..|nest| - 1]) else nest
  }

  /** One turn of the `decode` loop: header, value, the printed line, and the
      structures closed at the new offset. */
  function Step(env: Env, buf: seq<byte>, c: Cursor): (r: Outcome<()>)
    ensures r.result.Ok? ==> r.cursor.offset >= c.offset + 8
    ensures r.result.Ok? ==> |r.cursor.output| == |c.output| + 1 && r.cursor.output[..|c.output|] == c.output
    ensures r.result.Err? ==> r.cursor.output == c.output
  {
    var tag := TagStep(env, buf, c);
    if tag.result.Err? then Outcome(tag.cursor, Err(tag.result.error))
    else
      var typ := TypeStep(env, buf, tag.cursor);
      if typ.result.Err? then Outcome(typ.cursor, Err(typ.result.error))
      else
        var size := SizeStep(buf, typ.cursor);
        if size.result.Err? then Outcome(size.cursor, Err(size.result.error))
        else
          var value := ValueStep(env, buf, size.cursor, tag.result.value, typ.result.value, size.result.value);
          if value.result.Err? then Outcome(value.cursor, Err(value.result.error))
          else
            var after := value.cursor;
            var line := Line(|c.nest|, tag.result.value, typ.result.value.value, size.result.value, value.result.value);
            Outcome(after.(output := after.output + [line], nest := PopClosed(after.offset, after.nest)), Ok(()))
  }

  /** `decode()` from a given state: steps while the offset is inside the
      buffer; the first error ends it. */
  function Run(env: Env, buf: seq<byte>, c: Cursor): (r: Outcome<()>)
    ensures c.output <= r.cursor.output
    ensures r.result.Ok? ==> r.cursor.offset >= |buf|
    ensures c.offset >= |buf| ==> r == Outcome(c, Ok(()))
    decreases |buf| - c.offset
  {
    if c.offset >= |buf| then Outcome(c, Ok(()))
    else
      var s := Step(env, buf, c);
      if s.result.Err? then s else Run(env, buf, s.cursor)
  }

  /** A turn in which the header and the value are read without error. */
  lemma StepOk(env: Env, buf: seq<byte>, c: Cursor, after: Cursor, line: string)
    requires var tag := TagStep(env, buf, c);
             var typ := TypeStep(env, buf, tag.cursor);
             var size := SizeStep(buf, typ.cursor);
             && tag.result.Ok? && typ.result.Ok? && size.result.Ok? && typ.result.value.Some?
             && var value := ValueStep(env, buf, size.cursor, tag.result.value, typ.result.value, size.result.value);
             && value.result.Ok? && after == value.cursor
             && line == Line(|c.nest|, tag.result.value, typ.result.value.value, size.result.value, value.result.value)
    ensures Step(env, buf, c) == Outcome(after.(output := after.output + [line], nest := PopClosed(after.offset, after.nest)), Ok(()))
  {
  }

  /** The state of a fresh decoder. */
  const START := Cursor(0, [], [], [])

  /** `DecodeTTLV(buffer).decode()`. */
  function Decode(env: Env, buf: seq<byte>): Outcome<()> {
    Run(env, buf, START)
  }

  // ---------------------------------------------------------------------
  // Properties of the loop

  /** A buffer that does not start with the 0x42 marker is rejected before
      anything is printed. */
  lemma BadMarkerRejected(env: Env, buf: seq<byte>)
    requires |buf| >= 3 && buf[0] != MARKER
    ensures Decode(env, buf) == Outcome(START, Err(BadMarker))
  {
  }

  /** Each printed line comes from one header of at least 8 bytes, so a
      buffer of n bytes prints at most n / 8 lines. */
  lemma {:induction false} OutputBound(env: Env, buf: seq<byte>, c: Cursor)
    requires c.offset <= |buf|
    ensures |Run(env, buf, c).cursor.output| - |c.output| <= (|buf| - c.offset) / 8 + 1
    ensures Run(env, buf, c).result.Ok? ==> |Run(env, buf, c).cursor.output| - |c.output| <= (|buf| - c.offset + 7) / 8
    decreases |buf| - c.offset
  {
    if c.offset < |buf| {
      var s := Step(env, buf, c);
      if s.result.Ok? && s.cursor.offset <= |buf| {
        OutputBound(env, buf, s.cursor);
      }
    }
  }

  /** A step in which nothing fails continues into the rest of the run. */
  lemma RunStep(env: Env, buf: seq<byte>, c: Cursor)
    requires c.offset < |buf| && Step(env, buf, c).result.Ok?
    ensures Run(env, buf, c) == Run(env, buf, Step(env, buf, c).cursor)
  {
  }

  // ---------------------------------------------------------------------
  // The decoder object

  class DecodeTtlv {
    const buffer: seq<byte>
    var offset: nat
    /** The end offsets of the open structures, innermost last. */
    var nest: seq<nat>
    /** The bytes of the last `ATTRIBUTE_NAME` text read. */
    var attributeName: seq<byte>
    /** The lines `decode` has printed. */
    var output: seq<string>

    constructor(buffer: seq<byte>)
      ensures this.buffer == buffer && State() == START
    {
      this.buffer := buffer;
      offset := 0;
      nest := [];
      attributeName := [];
      output := [];
    }

    function State(): Cursor
      reads this
    {
      Cursor(offset, nest, attributeName, output)
    }

    /** `_decode_tag`. */
    method DecodeTag(env: Env) returns (r: Result<Option<string>, DecodeError>)
      modifies this
      ensures State() == TagStep(env, buffer, old(State())).cursor
      ensures r == TagStep(env, buffer, old(State())).result
    {
      if offset + 3 > |buffer| {
        return Err(Truncated);
      }
      if buffer[offset] != MARKER {
        return Err(BadMarker);
      }
      var lo := FromSignedBigEndian(buffer[offset + 1 .. offset + 3]);
      var tag := TagNumber(lo);
      var name := EnumName(env.catalog, Some("Tags"), tag);
      if name.Err? {
        return Err(name.error);
      }
      offset := offset + 3;
      return Ok(name.value);
    }

    /** `_decode_type`. */
    method DecodeType(env: Env) returns (r: Result<Option<string>, DecodeError>)
      modifies this
      ensures State() == TypeStep(env, buffer, old(State())).cursor
      ensures r == TypeStep(env, buffer, old(State())).result
    {
      if offset + 1 > |buffer| {
        return Err(Truncated);
      }
      var name := EnumName(env.catalog, Some("Types"), buffer[offset] as int);
      if name.Err? {
        return Err(name.error);
      }
      offset := offset + 1;
      return Ok(name.value);
    }

    /** `_decode_size`. */
    method DecodeSize() returns (r: Result<nat, DecodeError>)
      modifies this
      ensures State() == SizeStep(buffer, old(State())).cursor
      ensures r == SizeStep(buffer, old(State())).result
    {
      if offset + 4 > |buffer| {
        return Err(Truncated);
      }
      r := Ok(FromBigEndian(buffer[offset .. offset + 4]));
      offset := offset + 4;
    }

    /** `_decode_type_struct`. */
    method DecodeStruct(size: nat) returns (r: string)
      modifies this
      ensures State() == StructValue(old(State()), size).cursor
      ensures Ok(r) == StructValue(old(State()), size).result
    {
      nest := nest + [offset + size];
      return "stru" + Decimal(|nest|);
    }

    /** `_decode_type_int4`, and `_decode_type_inter`, which is the same code. */
    method DecodeInt4(size: nat) returns (r: Result<string, DecodeError>)
      modifies this
      ensures State() == Int4Value(buffer, old(State()), size).cursor
      ensures r == Int4Value(buffer, old(State()), size).result
    {
      if offset + 4 > |buffer| {
        return Err(Truncated);
      }
      var v := FromSignedBigEndian(buffer[offset .. offset + 4]);
      offset := offset + size + 4;
      return Ok(Decimal(v));
    }

    /** `_decode_type_long`, and `_decode_type_bigint`, which is the same code. */
    method DecodeLong(size: nat) returns (r: Result<string, DecodeError>)
      modifies this
      ensures State() == LongValue(buffer, old(State()), size).cursor
      ensures r == LongValue(buffer, old(State()), size).result
    {
      if offset + 8 > |buffer| {
        return Err(Truncated);
      }
      var v := FromSignedBigEndian(buffer[offset .. offset + 8]);
      offset := offset + size;
      return Ok(Decimal(v));
    }

    /** `_decode_type_enum`. */
    method DecodeEnum(env: Env, tag: Option<string>, size: nat) returns (r: Result<string, DecodeError>)
      modifies this
      ensures State() == EnumValue(env, buffer, old(State()), tag, size).cursor
      ensures r == EnumValue(env, buffer, old(State()), tag, size).result
    {
      if offset + 4 > |buffer| {
        return Err(Truncated);
      }
      var v := FromBigEndian(buffer[offset .. offset + 4]);
      offset := offset + size + 4;
      var name;
      if tag == Some("ATTRIBUTE_VALUE") {
        name := EnumNameAttr(env.catalog, attributeName, v);
      } else {
        name := EnumName(env.catalog, tag, v);
      }
      if name.Err? {
        return Err(name.error);
      }
      return Ok(NameText(name.value));
    }

    /** `_decode_type_bool`. */
    method DecodeBool(size: nat) returns (r: Result<string, DecodeError>)
      modifies this
      ensures State() == BoolValue(buffer, old(State()), size).cursor
      ensures r == BoolValue(buffer, old(State()), size).result
    {
      if offset + 8 > |buffer| {
        return Err(Truncated);
      }
      var v := FromBigEndian(buffer[offset .. offset + 8]);
      offset := offset + size;
      return Ok(if v != 0 then "True" else "False");
    }

    /** `_decode_type_text`. */
    method DecodeText(tag: Option<string>, size: nat) returns (r: string)
      modifies this
      ensures State() == TextValue(buffer, old(State()), tag, size).cursor
      ensures Ok(r) == TextValue(buffer, old(State()), tag, size).result
    {
      hide ReprBytes, Hexlify;
      var text := Slice(buffer, offset, offset + size);
      offset := offset + size + (8 - size % 8) % 8;
      if tag == Some("ATTRIBUTE_NAME") {
        attributeName := text;
      }
      return "bytearray(" + ReprBytes(text) + ")";
    }

    /** `_decode_type_bytes`. */
    method DecodeBytes(size: nat) returns (r: string)
      modifies this
      ensures State() == BytesValue(buffer, old(State()), size).cursor
      ensures Ok(r) == BytesValue(buffer, old(State()), size).result
    {
      hide ReprBytes, Hexlify;
      var data := Slice(buffer, offset, offset + size);
      offset := offset + size + (8 - size % 8) % 8;
      return "b'" + Hexlify(data) + "'";
    }

    /** `_decode_type_date`, and `_decode_type_exdate`, which is the same code. */
    method DecodeDate(env: Env, size: nat) returns (r: Result<string, DecodeError>)
      modifies this
      ensures State() == DateValue(env, buffer, old(State()), size).cursor
      ensures r == DateValue(env, buffer, old(State()), size).result
    {
      if offset + 8 > |buffer| {
        return Err(Truncated);
      }
      var v := FromBigEndian(buffer[offset .. offset + 8]);
      offset := offset + size;
      return Ok(env.ctime(v));
    }

    /** The `type_map` dispatch. */
    method DecodeValue(env: Env, tag: Option<string>, typeName: Option<string>, size: nat) returns (r: Result<string, DecodeError>)
      modifies this
      ensures State() == ValueStep(env, buffer, old(State()), tag, typeName, size).cursor
      ensures r == ValueStep(env, buffer, old(State()), tag, typeName, size).result
    {
      if typeName.None? || !Dispatched(typeName.value) {
        return Err(UnknownType);
      }
      var t := typeName.value;
      if t == "DEFAULT" {
        return Err(DefaultType);
      } else if t == "STRUCTURE" {
        var s := DecodeStruct(size);
        return Ok(s);
      } else if t == "INTEGER" || t == "INTERVAL" {
        r := DecodeInt4(size);
      } else if t == "LONG_INTEGER" || t == "BIG_INTEGER" {
        r := DecodeLong(size);
      } else if t == "ENUMERATION" {
        r := DecodeEnum(env, tag, size);
      } else if t == "BOOLEAN" {
        r := DecodeBool(size);
      } else if t == "TEXT_STRING" {
        var s := DecodeText(tag, size);
        return Ok(s);
      } else if t == "BYTE_STRING" {
        var s := DecodeBytes(size);
        return Ok(s);
      } else {
        r := DecodeDate(env, size);
      }
    }

    /** One turn of the `decode` loop. */
    method DecodeElement(env: Env) returns (r: Result<(), DecodeError>)
      requires offset < |buffer|
      modifies this
      ensures State() == Step(env, buffer, old(State())).cursor
      ensures r == Step(env, buffer, old(State())).result
    {
      ghost var c0 := State();
      var depth := |nest|;
      var tag := DecodeTag(env);
      if tag.Err? {
        return Err(tag.error);
      }
      var typ := DecodeType(env);
      if typ.Err? {
        return Err(typ.error);
      }
      var size := DecodeSize();
      if size.Err? {
        return Err(size.error);
      }
      var value := DecodeValue(env, tag.value, typ.value, size.value);
      if value.Err? {
        return Err(value.error);
      }
      var line := Line(depth, tag.value, typ.value.value, size.value, value.value);
      ghost var c1 := State();
      output := output + [line];
      CloseStructures();
      StepOk(env, buffer, c0, c1, line);
      return Ok(());
    }

    /** The inner loop of `decode`: pop every structure that ends at the
        current offset. */
    method CloseStructures()
      modifies this
      ensures nest == PopClosed(offset, old(nest))
      ensures offset == old(offset) && attributeName == old(attributeName) && output == old(output)
    {
      while nest != [] && offset == nest[|nest| - 1]
        invariant PopClosed(offset, nest) == PopClosed(offset, old(nest))
        invariant offset == old(offset) && attributeName == old(attributeName) && output == old(output)
        decreases |nest|
      {
        nest := nest[..|nest| - 1];
      }
    }

    /** `decode()`: the loop, printing one line per element and closing the
        structures that end where the element ends. */
    method Decode(env: Env) returns (r: Result<(), DecodeError>)
      modifies this
      ensures State() == Run(env, buffer, old(State())).cursor
      ensures r == Run(env, buffer, old(State())).result
    {
      while offset < |buffer|
        invariant Run(env, buffer, State()) == Run(env, buffer, old(State()))
        decreases |buffer| - offset
      {
        r := DecodeElement(env);
        if r.Err? {
          return;
        }
      }
      return Ok(());
    }
  }
}
