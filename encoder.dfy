/** The TTLV encoder of encode_ttlv.py: the `EncodeTTLV` class, which appends
    one frame per `encode_ttlv` call to its buffer and remembers the last
    `ATTRIBUTE_NAME` text it wrote, and `encode_ttlv_structure`.

    What each call writes is specified in two stages: `ResolveElement` turns
    the Python-level element (tag name, type name, value) into a `WireElem`,
    resolving every name through the catalog and the fixed tables, and
    `Wire.Frame` lays that element out. */
module Encoder {
  import opened Wrappers
  import opened Bytes
  import opened Strings
  import opened Registry
  import opened PyValue
  import opened Wire

  /** The exception that ends an encoding. */
  datatype EncodeError =
    /** `ValueError` from an enumeration lookup (or the `AttributeError` of a
        class name that is not text). */
    | EnumNotFound
    /** `int()`, `bytes()`, `unhexlify()` or `strptime()` rejected the value. */
    | ConversionFailed
    /** `struct.error`: a number outside the field it is packed into. */
    | PackFailed
    /** The type name is none of the eleven the encoder knows. */
    | UnsupportedType
    /** `encode_ttlv_structure` met an element that is not a dictionary. */
    | NotADictionary
    /** `encode_ttlv_structure` met a dictionary without `tag`, `type` or `value`. */
    | MissingKey

  /** The two errors that come from the shape of the list given to
      `encode_ttlv_structure` rather than from any value in it. */
  predicate Malformed(e: EncodeError) {
    e.NotADictionary? || e.MissingKey?
  }

  /** What the encoder takes from outside: the enumeration catalog,
      `int(time.mktime(time.strptime(s)))` (undefined where `strptime`
      raises) and `int(time.time())`. */
  datatype Env = Env(catalog: Catalog, parseTime: string -> Option<int>, now: int)

  // ---------------------------------------------------------------------
  // Enumeration names (_get_enum_value, _get_enum_value_attr)

  /** The names the encoder knows for an enumeration before it consults the
      catalog. */
  function FixedTable(enumName: string): map<string, int> {
    if enumName == "ATTRIBUTE_VALUE" then COMMON_ATTRIBUTE_VALUES
    else if enumName == "CREDENTIAL_TYPE" then CREDENTIAL_TYPES
    else if enumName == "OBJECT_TYPE" then OBJECT_TYPES
    else if enumName == "OBJECT_GROUP" then OBJECT_GROUPS
    else map[]
  }

  /** `_get_enum_value(enum_name, name)`: an integer passes through; a name
      is looked up in the fixed table for `enum_name`, then in the catalog
      class whose name is `enum_name` in CamelCase. */
  function GetEnumValue(cat: Catalog, enumName: PyVal, name: PyVal): (r: Result<int, EncodeError>)
    ensures IsInt(name) ==> r == Ok(AsInt(name))
    ensures r.Err? ==> r.error == EnumNotFound
    ensures !IsInt(name) && r.Ok? ==>
              enumName.PyStr? && name.PyStr?
              && (name.s in FixedTable(enumName.s) ==> r.value == FixedTable(enumName.s)[name.s])
              && (name.s !in FixedTable(enumName.s) ==> FindInClass(cat, ClassName(enumName.s), name.s) == Some(r.value))
    ensures !IsInt(name) && enumName.PyStr? && name.PyStr? ==>
              (r.Ok? <==> name.s in FixedTable(enumName.s) || FindInClass(cat, ClassName(enumName.s), name.s).Some?)
  {
    if IsInt(name) then Ok(AsInt(name))
    else if !enumName.PyStr? || !name.PyStr? then Err(EnumNotFound)
    else if name.s in FixedTable(enumName.s) then Ok(FixedTable(enumName.s)[name.s])
    else match FindInClass(cat, ClassName(enumName.s), name.s)
      case Some(v) => Ok(v)
      case None => Err(EnumNotFound)
  }

  /** The class name the attribute context gives: the remembered attribute
      name, decoded as UTF-8, without its spaces; `None` when it is empty,
      is not UTF-8 or holds nothing but spaces. */
  function ContextClass(ctx: seq<byte>): (r: Option<string>)
    ensures r.Some? <==> ctx != [] && Utf8Decode(ctx).Some? && Remove(Utf8Decode(ctx).value, ' ') != []
    ensures r.Some? ==> r.value == Remove(Utf8Decode(ctx).value, ' ')
  {
    if ctx == [] then None
    else match Utf8Decode(ctx)
      case None => None
      case Some(text) => if Remove(text, ' ') == [] then None else Some(Remove(text, ' '))
  }

  /** The catalog classes an attribute value is looked up in, in order. */
  function AttributeClasses(cls: string): seq<string> {
    [cls, "State", "CryptographicUsageMask", "CryptographicAlgorithm"]
  }

  /** `_get_enum_value_attr(tag, name)`: key states first, then the classes
      named by the attribute context, or `_get_enum_value` when there is no
      usable context. */
  function GetEnumValueAttr(cat: Catalog, ctx: seq<byte>, tag: PyVal, name: PyVal): (r: Result<int, EncodeError>)
    ensures IsInt(name) ==> r == Ok(AsInt(name))
    ensures !IsInt(name) && name.PyStr? && name.s in STATES ==> r == Ok(STATES[name.s])
    ensures !IsInt(name) && !(name.PyStr? && name.s in STATES) && ContextClass(ctx).None? ==>
              r == GetEnumValue(cat, tag, name)
    ensures !IsInt(name) && !(name.PyStr? && name.s in STATES) && ContextClass(ctx).Some? ==>
              (r.Ok? <==> name.PyStr? && FindInClasses(cat, AttributeClasses(ContextClass(ctx).value), name.s).Some?)
              && (r.Ok? ==> Some(r.value) == FindInClasses(cat, AttributeClasses(ContextClass(ctx).value), name.s))
    ensures r.Err? ==> r.error == EnumNotFound
  {
    if IsInt(name) then Ok(AsInt(name))
    else if name.PyStr? && name.s in STATES then Ok(STATES[name.s])
    else match ContextClass(ctx)
      case None => GetEnumValue(cat, tag, name)
      case Some(cls) =>
        if !name.PyStr? then Err(EnumNotFound)
        else match FindInClasses(cat, AttributeClasses(cls), name.s)
          case Some(v) => Ok(v)
          case None => Err(EnumNotFound)
  }

  // ---------------------------------------------------------------------
  // Tag and type fields (_encode_tag, _encode_type)

  /** `_encode_tag`: the tag number's low 16 bits, which must fit the signed
      `>h` field. The marker byte is always 0x42, whatever the tag number's
      high byte was. */
  function TagField(cat: Catalog, tag: PyVal): (r: Result<int, EncodeError>)
    ensures r.Ok? ==> 0 <= r.value < 0x8000
    ensures r.Ok? <==> GetEnumValue(cat, PyStr("Tags"), tag).Ok?
                       && GetEnumValue(cat, PyStr("Tags"), tag).value % 0x1_0000 < 0x8000
    ensures r.Ok? ==> (GetEnumValue(cat, PyStr("Tags"), tag).value - r.value) % 0x1_0000 == 0
  {
    match GetEnumValue(cat, PyStr("Tags"), tag)
    case Err(e) => Err(e)
    case Ok(v) => if v % 0x1_0000 < 0x8000 then Ok(v % 0x1_0000) else Err(PackFailed)
  }

  /** `_encode_type`: the type number, which must fit one byte. */
  function TypeField(cat: Catalog, typeName: PyVal): (r: Result<int, EncodeError>)
    ensures r.Ok? ==> 0 <= r.value < 256 && GetEnumValue(cat, PyStr("Types"), typeName) == r
    ensures r.Err? && GetEnumValue(cat, PyStr("Types"), typeName).Ok? ==> r.error == PackFailed
    ensures var g := GetEnumValue(cat, PyStr("Types"), typeName);
              (r.Ok? <==> g.Ok? && 0 <= g.value < 256) && (g.Err? ==> r == g)
  {
    match GetEnumValue(cat, PyStr("Types"), typeName)
    case Err(e) => Err(e)
    case Ok(v) => if 0 <= v < 256 then Ok(v) else Err(PackFailed)
  }

  // ---------------------------------------------------------------------
  // Scalar values (_encode_type_int4 … _encode_type_exdate)

  /** `int(value)` packed into a field of `width` bytes with `>i` or `>q`. */
  function SignedValue(value: PyVal, width: nat): (r: Result<int, EncodeError>)
    ensures r.Ok? <==> IntOf(value).Some? && InSigned(IntOf(value).value, width)
    ensures r.Ok? ==> r.value == IntOf(value).value
    ensures r.Err? ==> (r.error == ConversionFailed <==> IntOf(value).None?)
    ensures r.Err? ==> r.error == ConversionFailed || r.error == PackFailed
  {
    match IntOf(value)
    case None => Err(ConversionFailed)
    case Some(i) => if InSigned(i, width) then Ok(i) else Err(PackFailed)
  }

  /** `_encode_type_enum`: an integer as it is, an `ATTRIBUTE_VALUE` name
      through the attribute context, any other name through the enumeration
      named by the tag; packed with `>I`. */
  function EnumValue(cat: Catalog, ctx: seq<byte>, value: PyVal, tag: PyVal): (r: Result<int, EncodeError>)
    ensures r.Ok? ==> InUnsigned(r.value, 4)
    ensures IsInt(value) ==> (r.Ok? <==> InUnsigned(AsInt(value), 4)) && (r.Ok? ==> r.value == AsInt(value))
    ensures !IsInt(value) && tag == PyStr("ATTRIBUTE_VALUE") && r.Ok? ==>
              GetEnumValueAttr(cat, ctx, tag, value) == r
    ensures !IsInt(value) && tag != PyStr("ATTRIBUTE_VALUE") && r.Ok? ==>
              GetEnumValue(cat, tag, value) == r
    ensures !IsInt(value) && tag == PyStr("ATTRIBUTE_VALUE") ==>
              var e := GetEnumValueAttr(cat, ctx, tag, value);
              (e.Err? ==> r == e) && (r.Ok? <==> e.Ok? && InUnsigned(e.value, 4))
    ensures !IsInt(value) && tag != PyStr("ATTRIBUTE_VALUE") ==>
              var e := GetEnumValue(cat, tag, value);
              (e.Err? ==> r == e) && (r.Ok? <==> e.Ok? && InUnsigned(e.value, 4))
  {
    var e :=
      if IsInt(value) then Ok(AsInt(value))
      else if tag == PyStr("ATTRIBUTE_VALUE") then GetEnumValueAttr(cat, ctx, tag, value)
      else GetEnumValue(cat, tag, value);
    match e
    case Err(err) => Err(err)
    case Ok(n) => if InUnsigned(n, 4) then Ok(n) else Err(PackFailed)
  }

  /** The bytes `_encode_type_text` writes: a `str` in UTF-8, anything else
      through `bytes()`. */
  function TextBytes(value: PyVal): (r: Result<seq<byte>, EncodeError>)
    ensures value.PyStr? ==> r == Ok(Utf8Encode(value.s)) && Utf8Decode(r.value) == Some(value.s)
    ensures !value.PyStr? ==> (r.Ok? <==> BytesOf(value).Some?) && (r.Ok? ==> BytesOf(value) == Some(r.value))
  {
    if value.PyStr? then
      Utf8RoundTrip(value.s);
      Ok(Utf8Encode(value.s))
    else match BytesOf(value)
      case None => Err(ConversionFailed)
      case Some(b) => Ok(b)
  }

  /** The bytes `_encode_type_bytes` writes: a `str` read as hexadecimal
      (`binascii.unhexlify`), anything else through `bytes()`. */
  function ByteStringBytes(value: PyVal): (r: Result<seq<byte>, EncodeError>)
    ensures value.PyStr? ==> (r.Ok? <==> Unhexlify(value.s).Some?)
    ensures value.PyStr? && r.Ok? ==> Unhexlify(value.s) == Some(r.value) && |value.s| == 2 * |r.value|
    ensures !value.PyStr? ==> (r.Ok? <==> BytesOf(value).Some?) && (r.Ok? ==> BytesOf(value) == Some(r.value))
  {
    if value.PyStr? then
      match Unhexlify(value.s)
      case None => Err(ConversionFailed)
      case Some(b) => Ok(b)
    else match BytesOf(value)
      case None => Err(ConversionFailed)
      case Some(b) => Ok(b)
  }

  /** `_encode_type_date`: an integer as a timestamp, a string through
      `strptime`/`mktime`, anything else the current time; packed with `>Q`,
      so a time before 1970 cannot be written. */
  function Timestamp(env: Env, value: PyVal): (r: Result<int, EncodeError>)
    ensures r.Ok? ==> InUnsigned(r.value, 8)
    ensures IsInt(value) ==> (r.Ok? <==> InUnsigned(AsInt(value), 8)) && (r.Ok? ==> r.value == AsInt(value))
    ensures value.PyStr? && env.parseTime(value.s).None? ==> r == Err(ConversionFailed)
    ensures value.PyStr? && env.parseTime(value.s).Some? ==>
              var t := env.parseTime(value.s).value;
              (r.Ok? <==> InUnsigned(t, 8)) && (r.Ok? ==> r.value == t)
    ensures !IsInt(value) && !value.PyStr? ==> (r.Ok? <==> InUnsigned(env.now, 8))
    ensures !IsInt(value) && !value.PyStr? && r.Ok? ==> r.value == env.now
  {
    var t :=
      if IsInt(value) then Some(AsInt(value))
      else if value.PyStr? then env.parseTime(value.s)
      else Some(env.now);
    match t
    case None => Err(ConversionFailed)
    case Some(n) => if InUnsigned(n, 8) then Ok(n) else Err(PackFailed)
  }

  // ---------------------------------------------------------------------
  // Whole elements (encode_ttlv, _encode_value, _encode_type_struct)

  /** The outcome of resolving one element: the element or the error, and
      the attribute context afterwards. */
  datatype Resolved = Resolved(result: Result<WireElem, EncodeError>, ctx: seq<byte>)

  /** The attribute context after a value is written: an `ATTRIBUTE_NAME`
      text string replaces it with its bytes. */
  function ContextAfter(ctx: seq<byte>, tag: PyVal, typeName: PyVal, value: PyVal): (r: seq<byte>)
    ensures r != ctx ==> tag == PyStr("ATTRIBUTE_NAME") && typeName == PyStr("TEXT_STRING")
    ensures tag == PyStr("ATTRIBUTE_NAME") && typeName == PyStr("TEXT_STRING") && TextBytes(value).Ok? ==>
              r == TextBytes(value).value
    ensures TextBytes(value).Err? ==> r == ctx
  {
    if typeName == PyStr("TEXT_STRING") && tag == PyStr("ATTRIBUTE_NAME") && TextBytes(value).Ok? then
      TextBytes(value).value
    else ctx
  }

  /** `_encode_value`: the value laid out according to the type name. */
  function ResolveValue(env: Env, ctx: seq<byte>, typeName: PyVal, value: PyVal, tag: PyVal): (r: Result<WireValue, EncodeError>)
    ensures r.Ok? ==> ValidValue(r.value)
    ensures r.Ok? ==> typeName == PyStr(TypeNameOf(r.value))
    ensures !typeName.PyStr? || typeName.s !in TYPE_NAMES ==> r == Err(UnsupportedType)
    ensures r.Err? ==> !Malformed(r.error)
    decreases value, 1
  {
    if typeName == PyStr("STRUCTURE") then ResolveStruct(env, value)
    else ResolveScalar(env, ctx, typeName, value, tag)
  }

  /** The branches of `_encode_value` for the ten scalar type names. */
  function ResolveScalar(env: Env, ctx: seq<byte>, typeName: PyVal, value: PyVal, tag: PyVal): (r: Result<WireValue, EncodeError>)
    ensures r.Ok? ==> ValidValue(r.value) && !r.value.WStructure? && !r.value.WRawStructure?
    ensures r.Ok? ==> typeName == PyStr(TypeNameOf(r.value))
    ensures !typeName.PyStr? || typeName.s !in TYPE_NAMES ==> r == Err(UnsupportedType)
    ensures r.Err? ==> !Malformed(r.error)
  {
    if typeName in [PyStr("INTEGER"), PyStr("LONG_INTEGER"), PyStr("BIG_INTEGER"), PyStr("ENUMERATION"), PyStr("INTERVAL")] then
      ResolveNumber(env, ctx, typeName, value, tag)
    else if typeName == PyStr("BOOLEAN") then Ok(WBoolean(Truthy(value)))
    else if typeName == PyStr("TEXT_STRING") then
      (match TextBytes(value) case Ok(b) => Ok(WTextString(b)) case Err(e) => Err(e))
    else if typeName == PyStr("BYTE_STRING") then
      (match ByteStringBytes(value) case Ok(b) => Ok(WByteString(b)) case Err(e) => Err(e))
    else if typeName == PyStr("DATE_TIME") then
      (match Timestamp(env, value) case Ok(t) => Ok(WDateTime(t)) case Err(e) => Err(e))
    else if typeName == PyStr("DATE_TIME_EXTENDED") then
      (match Timestamp(env, value) case Ok(t) => Ok(WDateTimeExtended(t)) case Err(e) => Err(e))
    else Err(UnsupportedType)
  }

  /** The branches of `_encode_value` for the five type names whose value is
      an integer field: `INTEGER`, `LONG_INTEGER`, `BIG_INTEGER`,
      `ENUMERATION` and `INTERVAL`. */
  function ResolveNumber(env: Env, ctx: seq<byte>, typeName: PyVal, value: PyVal, tag: PyVal): (r: Result<WireValue, EncodeError>)
    ensures r.Ok? ==> ValidValue(r.value) && !r.value.WStructure? && !r.value.WRawStructure?
    ensures r.Ok? ==> typeName == PyStr(TypeNameOf(r.value))
    ensures r.Err? ==> !Malformed(r.error)
  {
    if typeName == PyStr("INTEGER") then
      (match SignedValue(value, 4) case Ok(i) => Ok(WInteger(i)) case Err(e) => Err(e))
    else if typeName == PyStr("LONG_INTEGER") then
      (match SignedValue(value, 8) case Ok(i) => Ok(WLongInteger(i)) case Err(e) => Err(e))
    else if typeName == PyStr("BIG_INTEGER") then
      (match SignedValue(value, 8) case Ok(i) => Ok(WBigInteger(i)) case Err(e) => Err(e))
    else if typeName == PyStr("ENUMERATION") then
      (match EnumValue(env.catalog, ctx, value, tag) case Ok(n) => Ok(WEnumeration(n)) case Err(e) => Err(e))
    else if typeName == PyStr("INTERVAL") then
      (match SignedValue(value, 4) case Ok(i) => Ok(WInterval(i)) case Err(e) => Err(e))
    else Err(UnsupportedType)
  }

  /** `_encode_type_struct`: a list is encoded element by element (each by a
      fresh encoder, so with an empty attribute context), skipping items that
      are not complete element dictionaries; a `bytes` value is copied as it
      is; anything else is an empty structure. */
  function ResolveStruct(env: Env, value: PyVal): (r: Result<WireValue, EncodeError>)
    ensures r.Ok? ==> ValidValue(r.value)
    ensures value.PyBytes? ==> r == Ok(WRawStructure(value.bytes))
    ensures !value.PyBytes? && !value.PyList? ==> r == Ok(WStructure([]))
    ensures value.PyList? ==> (r.Ok? <==> ResolveChildren(env, value.items).Ok?)
    ensures r.Err? ==> !Malformed(r.error)
    decreases value, 0
  {
    match value
    case PyList(items) =>
      (match ResolveChildren(env, items) case Ok(cs) => Ok(WStructure(cs)) case Err(e) => Err(e))
    case PyBytes(b) => Ok(WRawStructure(b))
    case _ => Ok(WStructure([]))
  }

  /** The children of a structure given as a list: the first error ends the
      list; items that are not element dictionaries are skipped. */
  function ResolveChildren(env: Env, items: seq<PyVal>): (r: Result<seq<WireElem>, EncodeError>)
    ensures r.Ok? ==> |r.value| <= |items| && forall c | c in r.value :: ValidElem(c)
    ensures r.Err? ==> !Malformed(r.error)
    decreases items
  {
    if items == [] then Ok([])
    else
      var item := items[|items| - 1];
      match ResolveChildren(env, items[..|items| - 1])
      case Err(e) => Err(e)
      case Ok(cs) =>
        if IsElement(item) then
          match ResolveElement(env, [], Get(item.entries, "tag"), Get(item.entries, "type"), Get(item.entries, "value")).result
          case Err(e) => Err(e)
          case Ok(w) => Ok(cs + [w])
        else Ok(cs)
  }

  /** `encode_ttlv(tag, type_name, value)` as a value: tag, then type, then
      value, then the 4-byte length, each of which can fail in turn. */
  function ResolveElement(env: Env, ctx: seq<byte>, tag: PyVal, typeName: PyVal, value: PyVal): (r: Resolved)
    ensures r.result.Ok? ==> ValidElem(r.result.value)
    ensures r.result.Ok? ==> TagField(env.catalog, tag) == Ok(r.result.value.tag)
                             && TypeField(env.catalog, typeName) == Ok(r.result.value.typ)
                             && ResolveValue(env, ctx, typeName, value, tag) == Ok(r.result.value.value)
    ensures TagField(env.catalog, tag).Err? ==> r == Resolved(Err(TagField(env.catalog, tag).error), ctx)
    ensures r.ctx != ctx ==> r.ctx == ContextAfter(ctx, tag, typeName, value)
    ensures r.result.Err? ==> !Malformed(r.result.error)
    decreases value, 3
  {
    match TagField(env.catalog, tag)
    case Err(e) => Resolved(Err(e), ctx)
    case Ok(t) => ResolvedAfterTag(env, ctx, t, tag, typeName, value)
  }

  /** `encode_ttlv_structure(elements)` as a value: one encoder for the whole
      list, so the attribute context carries from one element to the next. */
  function ResolveAll(env: Env, elements: seq<PyVal>): (r: Result<(seq<WireElem>, seq<byte>), EncodeError>)
    ensures r.Ok? ==> |r.value.0| == |elements| && forall c | c in r.value.0 :: ValidElem(c)
  {
    if elements == [] then Ok(([], []))
    else
      match ResolveAll(env, elements[..|elements| - 1])
      case Err(e) => Err(e)
      case Ok((ws, ctx)) =>
        var el := elements[|elements| - 1];
        if !el.PyDict? then Err(NotADictionary)
        else if !IsElement(el) then Err(MissingKey)
        else
          var res := ResolveElement(env, ctx, Get(el.entries, "tag"), Get(el.entries, "type"), Get(el.entries, "value"));
          match res.result
          case Err(e) => Err(e)
          case Ok(w) => Ok((ws + [w], res.ctx))
  }

  lemma ResolvedElement(env: Env, ctx: seq<byte>, tag: PyVal, typeName: PyVal, value: PyVal)
    requires TagField(env.catalog, tag).Ok? && TypeField(env.catalog, typeName).Ok?
    requires ResolveValue(env, ctx, typeName, value, tag).Ok?
    requires LengthField(ResolveValue(env, ctx, typeName, value, tag).value) < Pow256(4)
    ensures ResolveElement(env, ctx, tag, typeName, value)
            == Resolved(Ok(WireElem(TagField(env.catalog, tag).value, TypeField(env.catalog, typeName).value,
                                    ResolveValue(env, ctx, typeName, value, tag).value)),
                        ContextAfter(ctx, tag, typeName, value))
  {
  }

  /** The failures of `encode_ttlv` after the tag: the type, the value and
      the length field, each ending the element with its own error. */
  lemma ElementFails(env: Env, ctx: seq<byte>, tag: PyVal, typeName: PyVal, value: PyVal)
    requires TagField(env.catalog, tag).Ok?
    ensures TypeField(env.catalog, typeName).Err? ==>
              ResolveElement(env, ctx, tag, typeName, value) == Resolved(Err(TypeField(env.catalog, typeName).error), ctx)
    ensures TypeField(env.catalog, typeName).Ok? && ResolveValue(env, ctx, typeName, value, tag).Err? ==>
              ResolveElement(env, ctx, tag, typeName, value)
              == Resolved(Err(ResolveValue(env, ctx, typeName, value, tag).error), ContextAfter(ctx, tag, typeName, value))
    ensures TypeField(env.catalog, typeName).Ok? && ResolveValue(env, ctx, typeName, value, tag).Ok?
            && LengthField(ResolveValue(env, ctx, typeName, value, tag).value) >= Pow256(4) ==>
              ResolveElement(env, ctx, tag, typeName, value) == Resolved(Err(PackFailed), ContextAfter(ctx, tag, typeName, value))
  {
    hide ResolvedAfterTag, TagField;
  }

  /** `ResolveElement` once the tag field is known. */
  function ResolvedAfterTag(env: Env, ctx: seq<byte>, t: int, tag: PyVal, typeName: PyVal, value: PyVal): (r: Resolved)
    requires 0 <= t < 0x8000
    ensures TypeField(env.catalog, typeName).Err? ==> r == Resolved(Err(TypeField(env.catalog, typeName).error), ctx)
    ensures TypeField(env.catalog, typeName).Ok? && ResolveValue(env, ctx, typeName, value, tag).Err? ==>
              r == Resolved(Err(ResolveValue(env, ctx, typeName, value, tag).error), ContextAfter(ctx, tag, typeName, value))
    ensures TypeField(env.catalog, typeName).Ok? && ResolveValue(env, ctx, typeName, value, tag).Ok?
            && LengthField(ResolveValue(env, ctx, typeName, value, tag).value) >= Pow256(4) ==>
              r == Resolved(Err(PackFailed), ContextAfter(ctx, tag, typeName, value))
    decreases value, 2
  {
    match TypeField(env.catalog, typeName)
    case Err(e) => Resolved(Err(e), ctx)
    case Ok(ty) =>
      var ctx' := ContextAfter(ctx, tag, typeName, value);
      match ResolveValue(env, ctx, typeName, value, tag)
      case Err(e) => Resolved(Err(e), ctx')
      case Ok(w) =>
        if LengthField(w) < Pow256(4) then Resolved(Ok(WireElem(t, ty, w)), ctx')
        else Resolved(Err(PackFailed), ctx')
  }

  /** What `encode_ttlv` writes once the value is laid out and its length
      fits: the frame of the resolved element. */
  lemma ElementLaidOut(env: Env, ctx: seq<byte>, tag: PyVal, typeName: PyVal, value: PyVal,
                       header: seq<byte>, valueBytes: seq<byte>)
    requires TagField(env.catalog, tag).Ok? && TypeField(env.catalog, typeName).Ok?
    requires ResolveValue(env, ctx, typeName, value, tag).Ok?
    requires valueBytes == ValueBytes(ResolveValue(env, ctx, typeName, value, tag).value)
    requires LengthField(ResolveValue(env, ctx, typeName, value, tag).value) < 0x1_0000_0000
    requires header == [MARKER] + SignedBigEndian(TagField(env.catalog, tag).value, 2)
                       + [TypeField(env.catalog, typeName).value as byte]
                       + BigEndian(LengthField(ResolveValue(env, ctx, typeName, value, tag).value), 4)
    ensures ResolveElement(env, ctx, tag, typeName, value).result.Ok?
    ensures ResolveElement(env, ctx, tag, typeName, value).ctx == ContextAfter(ctx, tag, typeName, value)
    ensures header + valueBytes == Frame(ResolveElement(env, ctx, tag, typeName, value).result.value)
    ensures |header| + |valueBytes| == FrameSize(ResolveElement(env, ctx, tag, typeName, value).result.value)
  {
    Pow256Values();
    var w := ResolveValue(env, ctx, typeName, value, tag).value;
    var e := WireElem(TagField(env.catalog, tag).value, TypeField(env.catalog, typeName).value, w);
    ResolvedElement(env, ctx, tag, typeName, value);
    HeaderFits(e);
    HeaderThenValue(e, header, valueBytes);
  }

  /** A tag number fits the signed two-byte header field. */
  lemma TagFieldFits(t: int)
    requires 0 <= t < 0x8000
    ensures InSigned(t, 2)
  {
    Pow256Values();
  }

  /** The header fields of a valid element fit their formats. */
  lemma HeaderFits(e: WireElem)
    requires ValidElem(e)
    ensures InSigned(e.tag, 2) && 0 <= e.typ < 256 && LengthField(e.value) < Pow256(4)
  {
    Pow256Values();
  }

  /** The header `encode_ttlv` packs, followed by the value bytes, is the
      element's frame. */
  lemma HeaderThenValue(e: WireElem, header: seq<byte>, valueBytes: seq<byte>)
    requires ValidElem(e) && valueBytes == ValueBytes(e.value)
    requires header == [MARKER] + SignedBigEndian(e.tag, 2) + [e.typ as byte] + BigEndian(LengthField(e.value), 4)
    ensures header + valueBytes == Frame(e)
    ensures |header| + |valueBytes| == FrameSize(e)
  {
    FrameLength(e);
  }

  /** The `TEXT_STRING` branch of `_encode_value`. */
  lemma TextResolved(env: Env, ctx: seq<byte>, value: PyVal, tag: PyVal)
    ensures ResolveValue(env, ctx, PyStr("TEXT_STRING"), value, tag)
            == match TextBytes(value) case Ok(b) => Ok(WTextString(b)) case Err(e) => Err(e)
  {
  }

  /** The value bytes and the length field `_encode_value` returns. */
  function LaidOut(w: Result<WireValue, EncodeError>): (r: Result<(seq<byte>, nat), EncodeError>)
    requires w.Ok? ==> ValidValue(w.value)
  {
    match w
    case Ok(v) => Ok((ValueBytes(v), LengthField(v)))
    case Err(e) => Err(e)
  }

  lemma LaidOutParts(w: Result<WireValue, EncodeError>)
    requires w.Ok? ==> ValidValue(w.value)
    ensures w.Err? ==> LaidOut(w) == Err(w.error)
    ensures w.Ok? ==> LaidOut(w) == Ok((ValueBytes(w.value), LengthField(w.value)))
  {
  }

  // ---------------------------------------------------------------------
  // Properties of the resolution

  /** One more item of a structure's list: an element dictionary adds its
      element or ends the list with its error; anything else is skipped. */
  lemma ChildStep(env: Env, items: seq<PyVal>, i: nat)
    requires i < |items| && ResolveChildren(env, items[..i]).Ok?
    ensures var item := items[i];
            var before := ResolveChildren(env, items[..i]).value;
            ResolveChildren(env, items[..i + 1])
            == if !IsElement(item) then Ok(before)
               else match ResolveElement(env, [], Get(item.entries, "tag"), Get(item.entries, "type"),
                                         Get(item.entries, "value")).result
                 case Err(e) => Err(e)
                 case Ok(w) => Ok(before + [w])
  {
    assert items[..i + 1][..i] == items[..i];
  }

  /** One more top-level element. */
  lemma ElementStep(env: Env, elements: seq<PyVal>, i: nat)
    requires i < |elements| && ResolveAll(env, elements[..i]).Ok?
    ensures var el := elements[i];
            var (before, ctx) := ResolveAll(env, elements[..i]).value;
            ResolveAll(env, elements[..i + 1])
            == if !el.PyDict? then Err(NotADictionary)
               else if !IsElement(el) then Err(MissingKey)
               else
                 var res := ResolveElement(env, ctx, Get(el.entries, "tag"), Get(el.entries, "type"),
                                           Get(el.entries, "value"));
                 match res.result
                 case Err(e) => Err(e)
                 case Ok(w) => Ok((before + [w], res.ctx))
  {
    assert elements[..i + 1][..i] == elements[..i];
  }

  /** Once an error occurs among a structure's items, it is the structure's error. */
  lemma {:induction false} ChildErrorPersists(env: Env, items: seq<PyVal>, j: nat, e: EncodeError)
    requires j <= |items| && ResolveChildren(env, items[..j]) == Err(e)
    ensures ResolveChildren(env, items) == Err(e)
    decreases |items| - j
  {
    hide ResolveElement, ResolveValue, ResolveStruct, ResolveAll;
    if j < |items| {
      assert items[..j + 1][..j] == items[..j];
      ChildErrorPersists(env, items, j + 1, e);
    } else {
      assert items[..j] == items;
    }
  }

  /** The same for the top-level elements. */
  lemma {:induction false} ElementErrorPersists(env: Env, elements: seq<PyVal>, j: nat, e: EncodeError)
    requires j <= |elements| && ResolveAll(env, elements[..j]) == Err(e)
    ensures ResolveAll(env, elements) == Err(e)
    decreases |elements| - j
  {
    hide ResolveElement, ResolveValue, ResolveStruct, ResolveChildren;
    if j < |elements| {
      assert elements[..j + 1][..j] == elements[..j];
      ElementErrorPersists(env, elements, j + 1, e);
    } else {
      assert elements[..j] == elements;
    }
  }

  /** A list made only of complete element dictionaries never fails for its
      shape: any error comes from a value inside it. */
  lemma {:induction false} ElementsNeverMalformed(env: Env, elements: seq<PyVal>)
    requires forall k :: 0 <= k < |elements| ==> IsElement(elements[k])
    ensures ResolveAll(env, elements).Err? ==> !Malformed(ResolveAll(env, elements).error)
  {
    if elements != [] {
      ElementsNeverMalformed(env, elements[..|elements| - 1]);
    }
  }

  /** Two tag numbers that differ only above the low 16 bits (an extension
      tag 0x54xxxx and the standard tag 0x42xxxx) get the same tag field. */
  lemma TagHighBitsDropped(cat: Catalog, a: int, b: int)
    requires a % 0x1_0000 == b % 0x1_0000
    ensures TagField(cat, PyInt(a)) == TagField(cat, PyInt(b))
  {
  }

  // ---------------------------------------------------------------------
  // The encoder object

  class EncodeTtlv {
    /** The frames written so far. */
    var buffer: seq<byte>
    /** The bytes of the last `ATTRIBUTE_NAME` text string written. */
    var attributeName: seq<byte>

    constructor()
      ensures buffer == [] && attributeName == []
    {
      buffer := [];
      attributeName := [];
    }

    /** `get_hex_string`: the buffer in lower-case hexadecimal, which
        `unhexlify` reads back to the buffer. */
    function HexString(): (r: string)
      reads this
      ensures |r| == 2 * |buffer|
      ensures Unhexlify(r) == Some(buffer)
    {
      UnhexlifyHexlify(buffer);
      Hexlify(buffer)
    }

    /** `encode_ttlv`: append the element's frame and return its length. On
        an error nothing is appended, but an `ATTRIBUTE_NAME` text already
        converted stays remembered. */
    method EncodeElement(env: Env, tag: PyVal, typeName: PyVal, value: PyVal) returns (r: Result<nat, EncodeError>)
      modifies this
      ensures var res := ResolveElement(env, old(attributeName), tag, typeName, value);
              && attributeName == res.ctx
              && (res.result.Ok? ==> r == Ok(FrameSize(res.result.value)) && buffer == old(buffer) + Frame(res.result.value))
              && (res.result.Err? ==> r == Err(res.result.error) && buffer == old(buffer))
      decreases value, 3
    {
      hide *;
      var tagField := TagField(env.catalog, tag);
      if tagField.Err? {
        return Err(tagField.error);
      }
      ElementFails(env, attributeName, tag, typeName, value);
      var typeField := TypeField(env.catalog, typeName);
      if typeField.Err? {
        return Err(typeField.error);
      }
      ghost var ctx := attributeName;
      var encoded := EncodeValue(env, typeName, value, tag);
      LaidOutParts(ResolveValue(env, ctx, typeName, value, tag));
      if encoded.Err? {
        return Err(encoded.error);
      }
      var (valueBytes, size) := encoded.value;
      Pow256Values();
      if size >= 0x1_0000_0000 {
        return Err(PackFailed);
      }
      TagFieldFits(tagField.value);
      var header := [MARKER] + SignedBigEndian(tagField.value, 2) + [typeField.value as byte] + BigEndian(size, 4);
      ElementLaidOut(env, ctx, tag, typeName, value, header, valueBytes);
      buffer := buffer + (header + valueBytes);
      r := Ok(|header| + |valueBytes|);
    }

    /** `_encode_value`: dispatch on the type name. */
    method EncodeValue(env: Env, typeName: PyVal, value: PyVal, tag: PyVal) returns (r: Result<(seq<byte>, nat), EncodeError>)
      modifies this
      ensures r == LaidOut(ResolveValue(env, old(attributeName), typeName, value, tag))
      ensures attributeName == ContextAfter(old(attributeName), tag, typeName, value)
      ensures buffer == old(buffer)
      decreases value, 2
    {
      hide ResolveStruct, ResolveScalar, LaidOut, TextBytes, ValidValue;
      if typeName == PyStr("STRUCTURE") {
        r := EncodeStruct(env, value);
        assert ResolveValue(env, old(attributeName), typeName, value, tag) == ResolveStruct(env, value);
      } else if typeName == PyStr("TEXT_STRING") {
        r := EncodeText(value, tag);
        TextResolved(env, old(attributeName), value, tag);
      } else {
        r := LaidOut(ResolveValue(env, attributeName, typeName, value, tag));
      }
    }

    /** `_encode_type_text`: the text's bytes, padded; an `ATTRIBUTE_NAME`
        becomes the attribute context. */
    method EncodeText(value: PyVal, tag: PyVal) returns (r: Result<(seq<byte>, nat), EncodeError>)
      modifies this
      ensures r == LaidOut(match TextBytes(value) case Ok(b) => Ok(WTextString(b)) case Err(e) => Err(e))
      ensures attributeName == ContextAfter(old(attributeName), tag, PyStr("TEXT_STRING"), value)
      ensures buffer == old(buffer)
    {
      var text := TextBytes(value);
      if text.Err? {
        return Err(text.error);
      }
      if tag == PyStr("ATTRIBUTE_NAME") {
        attributeName := text.value;
      }
      var padding := (8 - |text.value| % 8) % 8;
      return Ok((text.value + Zeros(padding), |text.value|));
    }

    /** `_encode_type_struct`: a list is encoded element by element; a
        `bytes` value is copied; anything else is an empty structure. */
    method EncodeStruct(env: Env, value: PyVal) returns (r: Result<(seq<byte>, nat), EncodeError>)
      ensures r == LaidOut(ResolveStruct(env, value))
      decreases value, 1
    {
      if value.PyList? {
        var encoded := EncodeItems(env, value.items);
        if encoded.Err? {
          return Err(encoded.error);
        }
        FramesLength(ResolveChildren(env, value.items).value);
        return Ok((encoded.value, |encoded.value|));
      } else if value.PyBytes? {
        return Ok((value.bytes, |value.bytes|));
      } else {
        return Ok(([], 0));
      }
    }

    /** The loop of `_encode_type_struct`: each element dictionary of the list
        is encoded by a fresh encoder and that encoder's buffer appended. */
    method EncodeItems(env: Env, items: seq<PyVal>) returns (r: Result<seq<byte>, EncodeError>)
      ensures var spec := ResolveChildren(env, items);
              && (spec.Ok? ==> r == Ok(Frames(spec.value)))
              && (spec.Err? ==> r == Err(spec.error))
      decreases items
    {
      var structBuffer: seq<byte> := [];
      var i := 0;
      while i < |items|
        invariant 0 <= i <= |items|
        invariant ResolveChildren(env, items[..i]).Ok?
        invariant structBuffer == Frames(ResolveChildren(env, items[..i]).value)
      {
        var element := items[i];
        ghost var before := ResolveChildren(env, items[..i]).value;
        ChildStep(env, items, i);
        if IsElement(element) {
          var encoder := new EncodeTtlv();
          assert element in items;
          var res := encoder.EncodeElement(env, Get(element.entries, "tag"), Get(element.entries, "type"),
                                           Get(element.entries, "value"));
          if res.Err? {
            ChildErrorPersists(env, items, i + 1, res.error);
            return Err(res.error);
          }
          ghost var w := ResolveElement(env, [], Get(element.entries, "tag"), Get(element.entries, "type"),
                                        Get(element.entries, "value")).result.value;
          assert encoder.buffer == Frame(w);
          FramesAppend(before, w);
          structBuffer := structBuffer + encoder.buffer;
        }
        i := i + 1;
      }
      assert items[..i] == items;
      return Ok(structBuffer);
    }
  }

  /** `encode_ttlv_structure(elements)`: one encoder for the whole list; an
      item that is not a dictionary, or lacks a key, raises `ValueError`. */
  method EncodeTtlvStructure(env: Env, elements: seq<PyVal>) returns (r: Result<EncodeTtlv, EncodeError>)
    ensures var spec := ResolveAll(env, elements);
            && (spec.Ok? ==> r.Ok? && fresh(r.value) && r.value.buffer == Frames(spec.value.0)
                             && r.value.attributeName == spec.value.1)
            && (spec.Err? ==> r == Err(spec.error))
  {
    var encoder := new EncodeTtlv();
    var i := 0;
    while i < |elements|
      invariant 0 <= i <= |elements|
      invariant ResolveAll(env, elements[..i]).Ok?
      invariant encoder.buffer == Frames(ResolveAll(env, elements[..i]).value.0)
      invariant encoder.attributeName == ResolveAll(env, elements[..i]).value.1
      invariant fresh(encoder)
    {
      var element := elements[i];
      ElementStep(env, elements, i);
      ghost var before := ResolveAll(env, elements[..i]).value.0;
      if !element.PyDict? {
        ElementErrorPersists(env, elements, i + 1, NotADictionary);
        return Err(NotADictionary);
      }
      if !IsElement(element) {
        ElementErrorPersists(env, elements, i + 1, MissingKey);
        return Err(MissingKey);
      }
      var res := encoder.EncodeElement(env, Get(element.entries, "tag"), Get(element.entries, "type"),
                                       Get(element.entries, "value"));
      if res.Err? {
        ElementErrorPersists(env, elements, i + 1, res.error);
        return Err(res.error);
      }
      ghost var w := ResolveElement(env, ResolveAll(env, elements[..i]).value.1, Get(element.entries, "tag"),
                                    Get(element.entries, "type"), Get(element.entries, "value")).result.value;
      FramesAppend(before, w);
      i := i + 1;
    }
    assert elements[..i] == elements;
    return Ok(encoder);
  }
}
