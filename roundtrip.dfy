/** What the decoder prints for the bytes the encoder lays out: one line per
    element in document order, indented by its depth in the tree, with the
    values the encoder wrote. */
module RoundTrip {
  import opened Wrappers
  import opened Bytes
  import opened Strings
  import opened Registry
  import opened PyValue
  import opened Wire
  import opened Decoder

  // ---------------------------------------------------------------------
  // What the catalog must name

  /** `Tags` and `Types` are their own CamelCase class names. */
  lemma RegistryClassNames()
    ensures ClassName("Tags") == "Tags" && ClassName("Types") == "Types"
  {
    assert SplitOnce("Tags", '_').None? by { assert !Contains("Tags", '_'); }
    assert SplitOnce("Types", '_').None? by { assert !Contains("Types", '_'); }
    assert Split("Tags", '_') == ["Tags"];
    assert Split("Types", '_') == ["Types"];
    assert Lower("ags") == "ags";
    assert Lower("ypes") == "ypes";
  }

  /** The catalog names the type of every element of the tree back to the
      type it was written as, and has a `Tags` class. */
  predicate Named(cat: Catalog, e: WireElem) {
    && "Tags" in cat && "Types" in cat
    && LookupValue(cat["Types"], e.typ) == Some(TypeNameOf(e.value))
    && match e.value
       case WStructure(cs) => forall c | c in cs :: Named(cat, c)
       case _ => true
  }

  /** The name the decoder prints for an element's tag: the 0x42 marker and
      the 16 bits written, looked up in `Tags`. */
  function TagName(cat: Catalog, e: WireElem): Option<string>
    requires "Tags" in cat
  {
    LookupValue(cat["Tags"], 0x42_0000 + e.tag)
  }

  /** A tree the decoder can walk: valid, without pre-encoded structures,
      and named by the catalog. */
  predicate Walkable(cat: Catalog, e: WireElem) {
    ValidElem(e) && NoRaw(e) && Named(cat, e)
  }

  // ---------------------------------------------------------------------
  // The expected output, computed from the tree

  /** The value text the decoder prints for a scalar, computed from the value
      written rather than from its bytes. */
  function ScalarText(env: Env, v: WireValue, tag: Option<string>, attr: seq<byte>): (r: Result<string, DecodeError>)
    requires !v.WStructure? && !v.WRawStructure?
  {
    match v
    case WInteger(i) => Ok(Decimal(i))
    case WInterval(i) => Ok(Decimal(i))
    case WLongInteger(i) => Ok(Decimal(i))
    case WBigInteger(i) => Ok(Decimal(i))
    case WEnumeration(n) =>
      var name := if tag == Some("ATTRIBUTE_VALUE") then EnumNameAttr(env.catalog, attr, n) else EnumName(env.catalog, tag, n);
      (match name case Err(e) => Err(e) case Ok(s) => Ok(NameText(s)))
    case WBoolean(b) => Ok(if b then "True" else "False")
    case WTextString(t) => Ok("bytearray(" + ReprBytes(t) + ")")
    case WByteString(d) => Ok("b'" + Hexlify(d) + "'")
    case WDateTime(t) => Ok(env.ctime(t))
    case WDateTimeExtended(t) => Ok(env.ctime(t))
  }

  /** Only an enumeration's text can fail: its class or its attribute name
      may be missing from the catalog. */
  lemma ScalarTextFails(env: Env, v: WireValue, tag: Option<string>, attr: seq<byte>)
    requires !v.WStructure? && !v.WRawStructure?
    requires ScalarText(env, v, tag, attr).Err?
    ensures v.WEnumeration?
  {
  }

  /** The attribute name the decoder holds after a scalar. */
  function AttrAfter(v: WireValue, tag: Option<string>, attr: seq<byte>): seq<byte> {
    if v.WTextString? && tag == Some("ATTRIBUTE_NAME") then v.text else attr
  }

  /** The lines printed for an element at nesting `depth`, each element
      before its children, and the attribute name afterwards. */
  function RenderElem(env: Env, e: WireElem, depth: nat, attr: seq<byte>): Result<(seq<string>, seq<byte>), DecodeError>
    requires "Tags" in env.catalog && NoRaw(e)
    decreases e, 1
  {
    var tag := TagName(env.catalog, e);
    match e.value
    case WStructure(cs) =>
      var line := Line(depth, tag, "STRUCTURE", LengthField(e.value), "stru" + Decimal(depth + 1));
      (match Render(env, cs, depth + 1, attr)
       case Err(err) => Err(err)
       case Ok((lines, attr')) => Ok(([line] + lines, attr')))
    case _ =>
      match ScalarText(env, e.value, tag, attr)
      case Err(err) => Err(err)
      case Ok(text) => Ok(([Line(depth, tag, TypeNameOf(e.value), LengthField(e.value), text)], AttrAfter(e.value, tag, attr)))
  }

  function Render(env: Env, ws: seq<WireElem>, depth: nat, attr: seq<byte>): Result<(seq<string>, seq<byte>), DecodeError>
    requires "Tags" in env.catalog && forall w | w in ws :: NoRaw(w)
    decreases ws, 0
  {
    if ws == [] then Ok(([], attr))
    else
      match RenderElem(env, ws[0], depth, attr)
      case Err(err) => Err(err)
      case Ok((first, attr')) =>
        match Render(env, ws[1..], depth, attr')
        case Err(err) => Err(err)
        case Ok((rest, attr'')) => Ok((first + rest, attr''))
  }

  // ---------------------------------------------------------------------
  // Reading a frame back

  /** The last frame of a non-empty sequence, as `Frames` lays it out. */
  lemma FramesSnoc(ws: seq<WireElem>)
    requires ws != [] && forall w | w in ws :: ValidElem(w)
    ensures forall w | w in ws[..|ws| - 1] :: ValidElem(w)
    ensures Frames(ws) == Frames(ws[..|ws| - 1]) + Frame(ws[|ws| - 1])
  {
  }

  /** Frames laid out one after another, read from the front. */
  lemma {:induction false} FramesCons(ws: seq<WireElem>)
    requires ws != [] && forall w | w in ws :: ValidElem(w)
    ensures Frames(ws) == Frame(ws[0]) + Frames(ws[1..])
    decreases |ws|
  {
    hide Frames, Frame, ValidElem;
    var tail := ws[1..];
    forall w | w in tail
      ensures ValidElem(w)
    {
      assert w in ws;
    }
    if |ws| > 1 {
      var init := ws[..|ws| - 1];
      FramesSnoc(ws);
      FramesCons(init);
      FramesSnoc(tail);
      assert init[0] == ws[0];
      assert init[1..] == tail[..|tail| - 1];
      assert tail[|tail| - 1] == ws[|ws| - 1];
    } else {
      FramesSnoc(ws);
      assert ws[..0] == [] && tail == [];
      NoFrameBytes();
    }
  }

  lemma NoFrameBytes()
    ensures Frames([]) == []
  {
  }

  /** The fields of a frame found at offset `p` of a buffer. */
  lemma FrameAt(buf: seq<byte>, p: nat, e: WireElem)
    requires ValidElem(e) && p + |Frame(e)| <= |buf| && buf[p .. p + |Frame(e)|] == Frame(e)
    ensures buf[p] == MARKER
    ensures buf[p + 1 .. p + 3] == SignedBigEndian(e.tag, 2)
    ensures buf[p + 3] as int == e.typ
    ensures buf[p + 4 .. p + 8] == BigEndian(LengthField(e.value), 4)
    ensures buf[p + 8 .. p + |Frame(e)|] == ValueBytes(e.value)
  {
    var f := Frame(e);
    FrameLength(e);
    assert |SignedBigEndian(e.tag, 2)| == 2 && |BigEndian(LengthField(e.value), 4)| == 4;
    assert f[0] == MARKER;
    assert f[1..3] == SignedBigEndian(e.tag, 2);
    assert f[3] == e.typ as byte;
    assert f[4..8] == BigEndian(LengthField(e.value), 4);
    assert f[8..] == ValueBytes(e.value);
    forall i | 0 <= i < |f|
      ensures buf[p + i] == f[i]
    {
      assert buf[p .. p + |f|][i] == buf[p + i];
    }
    assert buf[p + 1 .. p + 3] == f[1..3];
    assert buf[p + 4 .. p + 8] == f[4..8];
    assert buf[p + 8 .. p + |f|] == f[8..];
  }

  /** A slice of a slice, read in the whole buffer. */
  lemma SplitAt(buf: seq<byte>, p: nat, a: seq<byte>, b: seq<byte>)
    requires p + |a| + |b| <= |buf| && buf[p .. p + |a| + |b|] == a + b
    ensures buf[p .. p + |a|] == a && buf[p + |a| .. p + |a| + |b|] == b
  {
    var m, n := p + |a|, p + |a| + |b|;
    forall i | p <= i < n
      ensures buf[i] == (a + b)[i - p]
    {
      assert buf[p .. n][i - p] == buf[i];
    }
    assert buf[p .. m] == a;
    assert buf[m .. n] == b;
  }

  /** The marker and tag bytes read back as the tag's name. */
  lemma TagAt(env: Env, buf: seq<byte>, c: Cursor, e: WireElem)
    requires "Tags" in env.catalog && 0 <= e.tag < 0x8000
    requires c.offset + 3 <= |buf| && buf[c.offset] == MARKER
    requires buf[c.offset + 1 .. c.offset + 3] == SignedBigEndian(e.tag, 2)
    ensures TagStep(env, buf, c) == Outcome(c.(offset := c.offset + 3), Ok(TagName(env.catalog, e)))
  {
    hide Run, Step, TypeStep, SizeStep, ValueStep, ScalarText, Frame, Frames, Render, RenderElem;
    RegistryClassNames();
    Pow256Values();
    FromSignedBigEndianInverse(e.tag, 2);
    assert TagNumber(e.tag) == 0x42_0000 + e.tag;
  }

  /** The header of a frame at the cursor is read back as the tag's name,
      the type's name and the length field. */
  lemma HeaderAt(env: Env, buf: seq<byte>, c: Cursor, e: WireElem)
    requires ValidElem(e) && Named(env.catalog, e)
    requires c.offset + |Frame(e)| <= |buf| && buf[c.offset .. c.offset + |Frame(e)|] == Frame(e)
    ensures TagStep(env, buf, c) == Outcome(c.(offset := c.offset + 3), Ok(TagName(env.catalog, e)))
    ensures TypeStep(env, buf, c.(offset := c.offset + 3)) == Outcome(c.(offset := c.offset + 4), Ok(Some(TypeNameOf(e.value))))
    ensures SizeStep(buf, c.(offset := c.offset + 4)) == Outcome(c.(offset := c.offset + 8), Ok(LengthField(e.value)))
  {
    FrameLength(e);
    FrameAt(buf, c.offset, e);
    TagAt(env, buf, c, e);
    RegistryClassNames();
    FromBigEndianInverse(LengthField(e.value), 4);
  }

  /** A 32-bit integer or interval, with its 4 bytes of padding. */
  lemma Int4At(buf: seq<byte>, c: Cursor, i: int)
    requires InSigned(i, 4)
    requires c.offset + 8 <= |buf| && buf[c.offset .. c.offset + 8] == SignedBigEndian(i, 4) + Zeros(4)
    ensures Int4Value(buf, c, 4) == Outcome(c.(offset := c.offset + 8), Ok(Decimal(i)))
  {
    SplitAt(buf, c.offset, SignedBigEndian(i, 4), Zeros(4));
    FromSignedBigEndianInverse(i, 4);
  }

  /** A long or big integer in 8 bytes. */
  lemma LongAt(buf: seq<byte>, c: Cursor, i: int)
    requires InSigned(i, 8)
    requires c.offset + 8 <= |buf| && buf[c.offset .. c.offset + 8] == SignedBigEndian(i, 8)
    ensures LongValue(buf, c, 8) == Outcome(c.(offset := c.offset + 8), Ok(Decimal(i)))
  {
    FromSignedBigEndianInverse(i, 8);
  }

  /** An enumeration, named as the scalar text says. */
  lemma EnumAt(env: Env, buf: seq<byte>, c: Cursor, n: int, tag: Option<string>)
    requires InUnsigned(n, 4)
    requires c.offset + 8 <= |buf| && buf[c.offset .. c.offset + 8] == BigEndian(n, 4) + Zeros(4)
    ensures EnumValue(env, buf, c, tag, 4).result == ScalarText(env, WEnumeration(n), tag, c.attributeName)
    ensures EnumValue(env, buf, c, tag, 4).cursor == c.(offset := c.offset + 8)
  {
    SplitAt(buf, c.offset, BigEndian(n, 4), Zeros(4));
    FromBigEndianInverse(n, 4);
  }

  lemma BoolAt(buf: seq<byte>, c: Cursor, b: bool)
    requires c.offset + 8 <= |buf| && buf[c.offset .. c.offset + 8] == BigEndian(if b then 1 else 0, 8)
    ensures BoolValue(buf, c, 8) == Outcome(c.(offset := c.offset + 8), Ok(if b then "True" else "False"))
  {
    Pow256Values();
    FromBigEndianInverse(if b then 1 else 0, 8);
  }

  lemma TextAt(buf: seq<byte>, c: Cursor, t: seq<byte>, tag: Option<string>)
    requires c.offset + |Padded(t)| <= |buf| && buf[c.offset .. c.offset + |Padded(t)|] == Padded(t)
    ensures TextValue(buf, c, tag, |t|)
         == Outcome(c.(offset := c.offset + |Padded(t)|, attributeName := AttrAfter(WTextString(t), tag, c.attributeName)),
                    Ok("bytearray(" + ReprBytes(t) + ")"))
  {
    hide ReprBytes, Hexlify, Run, Step, ValueStep, ScalarText, Frame, Frames, Render, RenderElem;
    SplitAt(buf, c.offset, t, Zeros(PadLength(|t|)));
  }

  lemma BytesAt(buf: seq<byte>, c: Cursor, d: seq<byte>)
    requires c.offset + |Padded(d)| <= |buf| && buf[c.offset .. c.offset + |Padded(d)|] == Padded(d)
    ensures BytesValue(buf, c, |d|) == Outcome(c.(offset := c.offset + |Padded(d)|), Ok("b'" + Hexlify(d) + "'"))
  {
    hide ReprBytes, Hexlify, Run, Step, ValueStep, ScalarText, Frame, Frames, Render, RenderElem;
    SplitAt(buf, c.offset, d, Zeros(PadLength(|d|)));
  }

  lemma DateAt(env: Env, buf: seq<byte>, c: Cursor, t: int)
    requires InUnsigned(t, 8)
    requires c.offset + 8 <= |buf| && buf[c.offset .. c.offset + 8] == BigEndian(t, 8)
    ensures DateValue(env, buf, c, 8) == Outcome(c.(offset := c.offset + 8), Ok(env.ctime(t)))
  {
    FromBigEndianInverse(t, 8);
  }

  lemma ShortNumberAt(env: Env, buf: seq<byte>, c: Cursor, v: WireValue, tag: Option<string>)
    requires ValidValue(v) && (v.WInteger? || v.WInterval?)
    requires c.offset + ValueSize(v) <= |buf| && buf[c.offset .. c.offset + ValueSize(v)] == ValueBytes(v)
    ensures var r := ValueStep(env, buf, c, tag, Some(TypeNameOf(v)), LengthField(v));
            var text := ScalarText(env, v, tag, c.attributeName);
            && (text.Err? ==> r.result.Err?)
            && (text.Ok? ==> r == Outcome(Cursor(c.offset + ValueSize(v), c.nest, AttrAfter(v, tag, c.attributeName), c.output), Ok(text.value)))
  {
    Int4At(buf, c, v.i);
  }

  lemma LongNumberAt(env: Env, buf: seq<byte>, c: Cursor, v: WireValue, tag: Option<string>)
    requires ValidValue(v) && (v.WLongInteger? || v.WBigInteger?)
    requires c.offset + ValueSize(v) <= |buf| && buf[c.offset .. c.offset + ValueSize(v)] == ValueBytes(v)
    ensures var r := ValueStep(env, buf, c, tag, Some(TypeNameOf(v)), LengthField(v));
            var text := ScalarText(env, v, tag, c.attributeName);
            && (text.Err? ==> r.result.Err?)
            && (text.Ok? ==> r == Outcome(Cursor(c.offset + ValueSize(v), c.nest, AttrAfter(v, tag, c.attributeName), c.output), Ok(text.value)))
  {
    LongAt(buf, c, v.i);
  }

  lemma EnumerationAt(env: Env, buf: seq<byte>, c: Cursor, v: WireValue, tag: Option<string>)
    requires ValidValue(v) && v.WEnumeration?
    requires c.offset + ValueSize(v) <= |buf| && buf[c.offset .. c.offset + ValueSize(v)] == ValueBytes(v)
    ensures var r := ValueStep(env, buf, c, tag, Some(TypeNameOf(v)), LengthField(v));
            var text := ScalarText(env, v, tag, c.attributeName);
            && (text.Err? ==> r.result.Err?)
            && (text.Ok? ==> r == Outcome(Cursor(c.offset + ValueSize(v), c.nest, AttrAfter(v, tag, c.attributeName), c.output), Ok(text.value)))
  {
    assert ValueStep(env, buf, c, tag, Some("ENUMERATION"), 4) == EnumValue(env, buf, c, tag, 4);
    EnumAt(env, buf, c, v.e, tag);
  }

  lemma BooleanAt(env: Env, buf: seq<byte>, c: Cursor, v: WireValue, tag: Option<string>)
    requires ValidValue(v) && v.WBoolean?
    requires c.offset + ValueSize(v) <= |buf| && buf[c.offset .. c.offset + ValueSize(v)] == ValueBytes(v)
    ensures var r := ValueStep(env, buf, c, tag, Some(TypeNameOf(v)), LengthField(v));
            var text := ScalarText(env, v, tag, c.attributeName);
            && (text.Err? ==> r.result.Err?)
            && (text.Ok? ==> r == Outcome(Cursor(c.offset + ValueSize(v), c.nest, AttrAfter(v, tag, c.attributeName), c.output), Ok(text.value)))
  {
    assert ValueStep(env, buf, c, tag, Some("BOOLEAN"), 8) == BoolValue(buf, c, 8);
    BoolAt(buf, c, v.b);
  }

  lemma TextStringAt(env: Env, buf: seq<byte>, c: Cursor, v: WireValue, tag: Option<string>)
    requires ValidValue(v) && v.WTextString?
    requires c.offset + ValueSize(v) <= |buf| && buf[c.offset .. c.offset + ValueSize(v)] == ValueBytes(v)
    ensures var r := ValueStep(env, buf, c, tag, Some(TypeNameOf(v)), LengthField(v));
            var text := ScalarText(env, v, tag, c.attributeName);
            && (text.Err? ==> r.result.Err?)
            && (text.Ok? ==> r == Outcome(Cursor(c.offset + ValueSize(v), c.nest, AttrAfter(v, tag, c.attributeName), c.output), Ok(text.value)))
  {
    assert ValueStep(env, buf, c, tag, Some("TEXT_STRING"), |v.text|) == TextValue(buf, c, tag, |v.text|);
    TextAt(buf, c, v.text, tag);
  }

  lemma ByteStringAt(env: Env, buf: seq<byte>, c: Cursor, v: WireValue, tag: Option<string>)
    requires ValidValue(v) && v.WByteString?
    requires c.offset + ValueSize(v) <= |buf| && buf[c.offset .. c.offset + ValueSize(v)] == ValueBytes(v)
    ensures var r := ValueStep(env, buf, c, tag, Some(TypeNameOf(v)), LengthField(v));
            var text := ScalarText(env, v, tag, c.attributeName);
            && (text.Err? ==> r.result.Err?)
            && (text.Ok? ==> r == Outcome(Cursor(c.offset + ValueSize(v), c.nest, AttrAfter(v, tag, c.attributeName), c.output), Ok(text.value)))
  {
    assert ValueStep(env, buf, c, tag, Some("BYTE_STRING"), |v.data|) == BytesValue(buf, c, |v.data|);
    BytesAt(buf, c, v.data);
  }

  lemma TimeAt(env: Env, buf: seq<byte>, c: Cursor, v: WireValue, tag: Option<string>)
    requires ValidValue(v) && (v.WDateTime? || v.WDateTimeExtended?)
    requires c.offset + ValueSize(v) <= |buf| && buf[c.offset .. c.offset + ValueSize(v)] == ValueBytes(v)
    ensures var r := ValueStep(env, buf, c, tag, Some(TypeNameOf(v)), LengthField(v));
            var text := ScalarText(env, v, tag, c.attributeName);
            && (text.Err? ==> r.result.Err?)
            && (text.Ok? ==> r == Outcome(Cursor(c.offset + ValueSize(v), c.nest, AttrAfter(v, tag, c.attributeName), c.output), Ok(text.value)))
  {
    match v
    case WDateTime(t) => DateAt(env, buf, c, t);
    case WDateTimeExtended(t) => DateAt(env, buf, c, t);
  }

  /** The value bytes of a scalar at the cursor are read back as the text
      the value prints as; the cursor moves past them and, for an
      `ATTRIBUTE_NAME` text, remembers it. */
  lemma ScalarAt(env: Env, buf: seq<byte>, c: Cursor, v: WireValue, tag: Option<string>)
    requires ValidValue(v) && !v.WStructure? && !v.WRawStructure?
    requires c.offset + ValueSize(v) <= |buf| && buf[c.offset .. c.offset + ValueSize(v)] == ValueBytes(v)
    ensures var r := ValueStep(env, buf, c, tag, Some(TypeNameOf(v)), LengthField(v));
            var text := ScalarText(env, v, tag, c.attributeName);
            && (text.Err? ==> r.result.Err?)
            && (text.Ok? ==> r == Outcome(Cursor(c.offset + ValueSize(v), c.nest, AttrAfter(v, tag, c.attributeName), c.output), Ok(text.value)))
  {
    if v.WInteger? || v.WInterval? {
      ShortNumberAt(env, buf, c, v, tag);
    } else if v.WLongInteger? || v.WBigInteger? {
      LongNumberAt(env, buf, c, v, tag);
    } else if v.WEnumeration? {
      EnumerationAt(env, buf, c, v, tag);
    } else if v.WBoolean? {
      BooleanAt(env, buf, c, v, tag);
    } else if v.WTextString? {
      TextStringAt(env, buf, c, v, tag);
    } else if v.WByteString? {
      ByteStringAt(env, buf, c, v, tag);
    } else {
      TimeAt(env, buf, c, v, tag);
    }
  }

  // ---------------------------------------------------------------------
  // One turn of the decoding loop over a frame

  /** A turn whose header has been read, stated by the parts' results. */
  lemma StepOf(env: Env, buf: seq<byte>, c: Cursor, tag: Option<string>, typeName: string, size: nat, value: Outcome<string>)
    requires TagStep(env, buf, c) == Outcome(c.(offset := c.offset + 3), Ok(tag))
    requires TypeStep(env, buf, c.(offset := c.offset + 3)) == Outcome(c.(offset := c.offset + 4), Ok(Some(typeName)))
    requires SizeStep(buf, c.(offset := c.offset + 4)) == Outcome(c.(offset := c.offset + 8), Ok(size))
    requires value == ValueStep(env, buf, c.(offset := c.offset + 8), tag, Some(typeName), size)
    ensures value.result.Err? ==> Step(env, buf, c).result.Err?
    ensures value.result.Ok? ==>
              Step(env, buf, c)
              == Outcome(value.cursor.(output := value.cursor.output + [Line(|c.nest|, tag, typeName, size, value.result.value)],
                                       nest := PopClosed(value.cursor.offset, value.cursor.nest)), Ok(()))
  {
  }

  /** A turn that reads a scalar: one line printed, the cursor past the
      value, and the structures that end there closed. */
  lemma TurnPrints(env: Env, buf: seq<byte>, c: Cursor, tag: Option<string>, typeName: string, size: nat,
                   end: nat, attr: seq<byte>, text: string)
    requires TagStep(env, buf, c) == Outcome(c.(offset := c.offset + 3), Ok(tag))
    requires TypeStep(env, buf, c.(offset := c.offset + 3)) == Outcome(c.(offset := c.offset + 4), Ok(Some(typeName)))
    requires SizeStep(buf, c.(offset := c.offset + 4)) == Outcome(c.(offset := c.offset + 8), Ok(size))
    requires ValueStep(env, buf, c.(offset := c.offset + 8), tag, Some(typeName), size)
             == Outcome(Cursor(end, c.nest, attr, c.output), Ok(text))
    ensures Step(env, buf, c)
            == Outcome(Cursor(end, PopClosed(end, c.nest), attr, c.output + [Line(|c.nest|, tag, typeName, size, text)]), Ok(()))
  {
  }

  /** The run goes on past a turn that reads a scalar. */
  lemma RunPrints(env: Env, buf: seq<byte>, c: Cursor, tag: Option<string>, typeName: string, size: nat,
                  end: nat, attr: seq<byte>, text: string, after: Cursor)
    requires TagStep(env, buf, c) == Outcome(c.(offset := c.offset + 3), Ok(tag))
    requires TypeStep(env, buf, c.(offset := c.offset + 3)) == Outcome(c.(offset := c.offset + 4), Ok(Some(typeName)))
    requires SizeStep(buf, c.(offset := c.offset + 4)) == Outcome(c.(offset := c.offset + 8), Ok(size))
    requires ValueStep(env, buf, c.(offset := c.offset + 8), tag, Some(typeName), size)
             == Outcome(Cursor(end, c.nest, attr, c.output), Ok(text))
    requires after == Cursor(end, PopClosed(end, c.nest), attr, c.output + [Line(|c.nest|, tag, typeName, size, text)])
    ensures Run(env, buf, c) == Run(env, buf, after)
  {
    TurnPrints(env, buf, c, tag, typeName, size, end, attr, text);
    RunStep(env, buf, c);
  }

  /** The parts of a scalar's frame read back as written: the header gives
      the tag's name, the type's name and the length, and the value gives
      the text the expected output has for it. */
  lemma ScalarFrameAt(env: Env, buf: seq<byte>, c: Cursor, e: WireElem, text: string)
    requires Walkable(env.catalog, e) && !e.value.WStructure?
    requires c.offset + |Frame(e)| <= |buf| && buf[c.offset .. c.offset + |Frame(e)|] == Frame(e)
    requires ScalarText(env, e.value, TagName(env.catalog, e), c.attributeName) == Ok(text)
    ensures TagStep(env, buf, c) == Outcome(c.(offset := c.offset + 3), Ok(TagName(env.catalog, e)))
    ensures TypeStep(env, buf, c.(offset := c.offset + 3)) == Outcome(c.(offset := c.offset + 4), Ok(Some(TypeNameOf(e.value))))
    ensures SizeStep(buf, c.(offset := c.offset + 4)) == Outcome(c.(offset := c.offset + 8), Ok(LengthField(e.value)))
    ensures ValueStep(env, buf, c.(offset := c.offset + 8), TagName(env.catalog, e), Some(TypeNameOf(e.value)), LengthField(e.value))
            == Outcome(Cursor(c.offset + FrameSize(e), c.nest, AttrAfter(e.value, TagName(env.catalog, e), c.attributeName), c.output), Ok(text))
  {
    hide Run, Step, TagStep, TypeStep, SizeStep, ValueStep, ScalarText, Frame, Frames, Header, ValueBytes, Render, RenderElem;
    FrameLength(e);
    HeaderAt(env, buf, c, e);
    FrameAt(buf, c.offset, e);
    ScalarAt(env, buf, c.(offset := c.offset + 8), e.value, TagName(env.catalog, e));
  }

  /** The header of a scalar's frame reads back as written, and its value
      fails where the expected output fails. */
  lemma ScalarFrameFails(env: Env, buf: seq<byte>, c: Cursor, e: WireElem)
    requires Walkable(env.catalog, e) && e.value.WEnumeration?
    requires c.offset + |Frame(e)| <= |buf| && buf[c.offset .. c.offset + |Frame(e)|] == Frame(e)
    requires ScalarText(env, e.value, TagName(env.catalog, e), c.attributeName).Err?
    ensures TagStep(env, buf, c) == Outcome(c.(offset := c.offset + 3), Ok(TagName(env.catalog, e)))
    ensures TypeStep(env, buf, c.(offset := c.offset + 3)) == Outcome(c.(offset := c.offset + 4), Ok(Some(TypeNameOf(e.value))))
    ensures SizeStep(buf, c.(offset := c.offset + 4)) == Outcome(c.(offset := c.offset + 8), Ok(LengthField(e.value)))
    ensures ValueStep(env, buf, c.(offset := c.offset + 8), TagName(env.catalog, e), Some(TypeNameOf(e.value)), LengthField(e.value)).result.Err?
  {
    hide Run, Step, TagStep, TypeStep, SizeStep, ValueStep, ScalarText, Frame, Frames, Header, ValueBytes, Render, RenderElem;
    FrameLength(e);
    HeaderAt(env, buf, c, e);
    FrameAt(buf, c.offset, e);
    ScalarAt(env, buf, c.(offset := c.offset + 8), e.value, TagName(env.catalog, e));
  }

  /** A structure's header is decoded in one turn that prints its line and
      pushes the offset where its children end. */
  lemma StructStep(env: Env, buf: seq<byte>, c: Cursor, e: WireElem)
    requires Walkable(env.catalog, e) && e.value.WStructure?
    requires c.offset + |Frame(e)| <= |buf| && buf[c.offset .. c.offset + |Frame(e)|] == Frame(e)
    ensures var end := c.offset + FrameSize(e);
            var line := Line(|c.nest|, TagName(env.catalog, e), "STRUCTURE", LengthField(e.value), "stru" + Decimal(|c.nest| + 1));
            Step(env, buf, c) == Outcome(Cursor(c.offset + 8, PopClosed(c.offset + 8, c.nest + [end]), c.attributeName, c.output + [line]), Ok(()))
  {
    hide Run, Step, TagStep, TypeStep, SizeStep, ScalarText, Frame, Frames, ValueBytes, Render, RenderElem;
    FrameLength(e);
    HeaderAt(env, buf, c, e);
    var tag := TagName(env.catalog, e);
    var c8 := c.(offset := c.offset + 8);
    var value := ValueStep(env, buf, c8, tag, Some("STRUCTURE"), LengthField(e.value));
    assert value == StructValue(c8, LengthField(e.value));
    assert value.result == Ok("stru" + Decimal(|c.nest| + 1));
    assert value.cursor == Cursor(c.offset + 8, c.nest + [c.offset + FrameSize(e)], c.attributeName, c.output);
    StepOf(env, buf, c, tag, "STRUCTURE", LengthField(e.value), value);
  }

  // ---------------------------------------------------------------------
  // The whole walk

  /** The structures still open end after `offset`, so none is closed. */
  lemma NoneClosed(offset: nat, nest: seq<nat>)
    requires forall i | 0 <= i < |nest| :: nest[i] > offset
    ensures PopClosed(offset, nest) == nest
  {
  }

  /** A structure just opened, inside structures that end no earlier, is
      not closed before its children are read. */
  lemma OpenPushed(offset: nat, nest: seq<nat>, end: nat)
    requires end > offset && forall i | 0 <= i < |nest| :: nest[i] >= end
    ensures PopClosed(offset, nest + [end]) == nest + [end]
  {
    NoneClosed(offset, nest + [end]);
  }

  /** The offsets of the open structures stay no earlier than the end of
      the one just pushed. */
  lemma PushedBound(nest: seq<nat>, end: nat)
    requires forall i | 0 <= i < |nest| :: nest[i] >= end
    ensures forall i | 0 <= i < |nest + [end]| :: (nest + [end])[i] >= end
  {
  }

  /** Closing a structure that ends where its parent's children end. */
  lemma ClosedTogether(end: nat, nest: seq<nat>)
    ensures PopClosed(end, nest + [end]) == PopClosed(end, nest)
  {
    assert (nest + [end])[..|nest|] == nest;
  }

  /** The expected lines of a scalar: its one line, or the failure of its
      text. */
  lemma RenderScalar(env: Env, e: WireElem, depth: nat, attr: seq<byte>)
    requires "Tags" in env.catalog && NoRaw(e) && !e.value.WStructure?
    ensures var tag := TagName(env.catalog, e);
            var text := ScalarText(env, e.value, tag, attr);
            && (text.Err? ==> RenderElem(env, e, depth, attr).Err?)
            && (text.Ok? ==> RenderElem(env, e, depth, attr)
                             == Ok(([Line(depth, tag, TypeNameOf(e.value), LengthField(e.value), text.value)], AttrAfter(e.value, tag, attr))))
  {
  }

  /** The run over a scalar's frame goes on past it, one line printed. */
  lemma ScalarDecoded(env: Env, buf: seq<byte>, c: Cursor, e: WireElem, text: string, after: Cursor)
    requires Walkable(env.catalog, e) && !e.value.WStructure?
    requires c.offset + |Frame(e)| <= |buf| && buf[c.offset .. c.offset + |Frame(e)|] == Frame(e)
    requires ScalarText(env, e.value, TagName(env.catalog, e), c.attributeName) == Ok(text)
    requires after == Cursor(c.offset + FrameSize(e), PopClosed(c.offset + FrameSize(e), c.nest),
                             AttrAfter(e.value, TagName(env.catalog, e), c.attributeName),
                             c.output + [Line(|c.nest|, TagName(env.catalog, e), TypeNameOf(e.value), LengthField(e.value), text)])
    ensures Run(env, buf, c) == Run(env, buf, after)
  {
    hide *;
    WalkableParts(env.catalog, e);
    var tag := TagName(env.catalog, e);
    ScalarFrameAt(env, buf, c, e, text);
    assert TagStep(env, buf, c) == Outcome(c.(offset := c.offset + 3), Ok(tag));
    assert TypeStep(env, buf, c.(offset := c.offset + 3)) == Outcome(c.(offset := c.offset + 4), Ok(Some(TypeNameOf(e.value))));
    assert SizeStep(buf, c.(offset := c.offset + 4)) == Outcome(c.(offset := c.offset + 8), Ok(LengthField(e.value)));
    assert ValueStep(env, buf, c.(offset := c.offset + 8), tag, Some(TypeNameOf(e.value)), LengthField(e.value))
             == Outcome(Cursor(c.offset + FrameSize(e), c.nest, AttrAfter(e.value, tag, c.attributeName), c.output), Ok(text));
    assert after == Cursor(c.offset + FrameSize(e), PopClosed(c.offset + FrameSize(e), c.nest), AttrAfter(e.value, tag, c.attributeName), c.output + [Line(|c.nest|, tag, TypeNameOf(e.value), LengthField(e.value), text)]);
    RunPrints(env, buf, c, tag, TypeNameOf(e.value), LengthField(e.value), c.offset + FrameSize(e),
              AttrAfter(e.value, tag, c.attributeName), text, after);
  }

  /** The run over a scalar whose text fails ends there with an error. */
  lemma ScalarDecodeFails(env: Env, buf: seq<byte>, c: Cursor, e: WireElem)
    requires Walkable(env.catalog, e) && !e.value.WStructure?
    requires c.offset + |Frame(e)| <= |buf| && buf[c.offset .. c.offset + |Frame(e)|] == Frame(e)
    requires ScalarText(env, e.value, TagName(env.catalog, e), c.attributeName).Err?
    ensures Run(env, buf, c).result.Err?
  {
    var tag := TagName(env.catalog, e);
    ScalarTextFails(env, e.value, tag, c.attributeName);
    ScalarFrameFails(env, buf, c, e);
    StepOf(env, buf, c, tag, TypeNameOf(e.value), LengthField(e.value),
           ValueStep(env, buf, c.(offset := c.offset + 8), tag, Some(TypeNameOf(e.value)), LengthField(e.value)));
  }

  /** The run over a structure's header goes on at its first child, one
      line printed and the structure's end pushed. */
  lemma StructOpens(env: Env, buf: seq<byte>, c: Cursor, e: WireElem)
    requires Walkable(env.catalog, e) && e.value.WStructure?
    requires c.offset + |Frame(e)| <= |buf| && buf[c.offset .. c.offset + |Frame(e)|] == Frame(e)
    ensures var end := c.offset + FrameSize(e);
            var line := Line(|c.nest|, TagName(env.catalog, e), "STRUCTURE", LengthField(e.value), "stru" + Decimal(|c.nest| + 1));
            Run(env, buf, c) == Run(env, buf, Cursor(c.offset + 8, PopClosed(c.offset + 8, c.nest + [end]), c.attributeName, c.output + [line]))
  {
    StructStep(env, buf, c, e);
    RunStep(env, buf, c);
  }

  /** Frames laid out one after another from offset `p`, read from the
      front: the first element's frame, then the rest. */
  predicate FramesAt(buf: seq<byte>, p: nat, ws: seq<WireElem>)
    decreases |ws|
  {
    ws == [] ||
    (&& ValidElem(ws[0])
     && p + FrameSize(ws[0]) <= |buf|
     && buf[p .. p + FrameSize(ws[0])] == Frame(ws[0])
     && FramesAt(buf, p + FrameSize(ws[0]), ws[1..]))
  }

  lemma {:induction false} FramesSizeCons(ws: seq<WireElem>)
    requires ws != []
    ensures FramesSize(ws) == FrameSize(ws[0]) + FramesSize(ws[1..])
    decreases |ws|
  {
    if |ws| > 1 {
      var init := ws[..|ws| - 1];
      FramesSizeCons(init);
      assert init[1..] == ws[1..][..|ws[1..]| - 1];
      assert ws[1..][|ws[1..]| - 1] == ws[|ws| - 1];
    } else {
      assert ws[1..] == [];
      assert ws[..0] == [];
    }
  }

  /** The first of a sequence of frames, and the rest after it. */
  lemma FirstAt(buf: seq<byte>, p: nat, ws: seq<WireElem>)
    requires ws != [] && forall w | w in ws :: ValidElem(w)
    requires p + FramesSize(ws) <= |buf| && buf[p .. p + FramesSize(ws)] == Frames(ws)
    ensures FramesSize(ws) == FrameSize(ws[0]) + FramesSize(ws[1..])
    ensures buf[p .. p + FrameSize(ws[0])] == Frame(ws[0])
    ensures buf[p + FrameSize(ws[0]) .. p + FrameSize(ws[0]) + FramesSize(ws[1..])] == Frames(ws[1..])
  {
    hide *;
    assert ws[0] in ws;
    FramesCons(ws);
    FramesLength(ws);
    FramesLength(ws[1..]);
    FrameLength(ws[0]);
    SplitAt(buf, p, Frame(ws[0]), Frames(ws[1..]));
  }

  /** Bytes holding `Frames(ws)` hold each frame in turn. */
  lemma {:induction false} FramesLaid(buf: seq<byte>, p: nat, ws: seq<WireElem>)
    requires forall w | w in ws :: ValidElem(w)
    requires p + FramesSize(ws) <= |buf| && buf[p .. p + FramesSize(ws)] == Frames(ws)
    ensures FramesAt(buf, p, ws)
    decreases |ws|
  {
    if ws != [] {
      FirstAt(buf, p, ws);
      assert ws[0] in ws;
      FramesLaid(buf, p + FrameSize(ws[0]), ws[1..]);
    }
  }

  /** A structure's children are laid out right after its header. */
  lemma ChildrenLaid(buf: seq<byte>, p: nat, e: WireElem)
    requires ValidElem(e) && e.value.WStructure?
    requires p + FrameSize(e) <= |buf| && buf[p .. p + FrameSize(e)] == Frame(e)
    ensures FrameSize(e) == 8 + FramesSize(e.value.children)
    ensures FramesAt(buf, p + 8, e.value.children)
  {
    var cs := e.value.children;
    FrameLength(e);
    FramesLength(cs);
    FrameAt(buf, p, e);
    FramesLaid(buf, p + 8, cs);
  }

  /** The expected lines of a structure: its own line, then its children's. */
  lemma RenderStruct(env: Env, e: WireElem, depth: nat, attr: seq<byte>)
    requires "Tags" in env.catalog && NoRaw(e) && e.value.WStructure?
    ensures var inner := Render(env, e.value.children, depth + 1, attr);
            var line := Line(depth, TagName(env.catalog, e), "STRUCTURE", LengthField(e.value), "stru" + Decimal(depth + 1));
            && (inner.Err? ==> RenderElem(env, e, depth, attr).Err?)
            && (inner.Ok? ==> RenderElem(env, e, depth, attr) == Ok(([line] + inner.value.0, inner.value.1)))
  {
  }

  /** The expected lines of a sequence: the first element's, then the rest's. */
  lemma RenderCons(env: Env, ws: seq<WireElem>, depth: nat, attr: seq<byte>)
    requires "Tags" in env.catalog && ws != [] && forall w | w in ws :: NoRaw(w)
    ensures ws[0] in ws
    ensures var first := RenderElem(env, ws[0], depth, attr);
            && (first.Err? ==> Render(env, ws, depth, attr).Err?)
            && (first.Ok? ==>
                  var rest := Render(env, ws[1..], depth, first.value.1);
                  && (rest.Err? ==> Render(env, ws, depth, attr).Err?)
                  && (rest.Ok? ==> Render(env, ws, depth, attr) == Ok((first.value.0 + rest.value.0, rest.value.1))))
  {
    assert ws[0] in ws;
  }

  lemma Regroup<T>(out: seq<T>, a: seq<T>, b: seq<T>, ab: seq<T>)
    requires ab == a + b
    ensures (out + a) + b == out + ab
  {
  }

  /** What a walkable tree says about its root and its children. */
  lemma WalkableParts(cat: Catalog, e: WireElem)
    requires Walkable(cat, e)
    ensures "Tags" in cat && ValidElem(e) && NoRaw(e) && Named(cat, e)
    ensures e.value.WStructure? ==> forall w | w in e.value.children :: ValidElem(w) && NoRaw(w) && Named(cat, w)
  {
    assert ValidValue(e.value);
  }

  lemma WalkableFirst(cat: Catalog, ws: seq<WireElem>)
    requires ws != [] && forall w | w in ws :: ValidElem(w) && NoRaw(w) && Named(cat, w)
    ensures ValidElem(ws[0]) && NoRaw(ws[0]) && Named(cat, ws[0]) && Walkable(cat, ws[0])
    ensures forall w | w in ws[1..] :: ValidElem(w) && NoRaw(w) && Named(cat, w)
  {
    assert ws[0] in ws;
  }

  lemma FramesAtCons(buf: seq<byte>, p: nat, ws: seq<WireElem>)
    requires ws != [] && FramesAt(buf, p, ws)
    ensures ValidElem(ws[0]) && p + FrameSize(ws[0]) <= |buf| && buf[p .. p + FrameSize(ws[0])] == Frame(ws[0])
    ensures FramesAt(buf, p + FrameSize(ws[0]), ws[1..])
  {
  }

  lemma NoFrames(env: Env, depth: nat, attr: seq<byte>)
    requires "Tags" in env.catalog
    ensures FramesSize([]) == 0
    ensures Render(env, [], depth, attr) == Ok(([], attr))
  {
  }

  /** Decoding an element's frame prints the element's expected lines and
      leaves the cursor past the frame, with the structures that end there
      closed. */
  lemma {:induction false} DecodeElemOk(env: Env, buf: seq<byte>, e: WireElem, c: Cursor,
                                        lines: seq<string>, attr: seq<byte>, after: Cursor)
    requires Walkable(env.catalog, e)
    requires c.offset + FrameSize(e) <= |buf| && buf[c.offset .. c.offset + FrameSize(e)] == Frame(e)
    requires forall i | 0 <= i < |c.nest| :: c.nest[i] >= c.offset + FrameSize(e)
    requires RenderElem(env, e, |c.nest|, c.attributeName) == Ok((lines, attr))
    requires after == Cursor(c.offset + FrameSize(e), PopClosed(c.offset + FrameSize(e), c.nest), attr, c.output + lines)
    ensures Run(env, buf, c) == Run(env, buf, after)
    decreases e, 2
  {
    hide *;
    if e.value.WStructure? {
      StructDecodedOk(env, buf, e, c, lines, attr, after);
    } else {
      ScalarDecodedOk(env, buf, e, c, lines, attr, after);
    }
  }

  lemma ScalarDecodedOk(env: Env, buf: seq<byte>, e: WireElem, c: Cursor,
                        lines: seq<string>, attr: seq<byte>, after: Cursor)
    requires Walkable(env.catalog, e) && !e.value.WStructure?
    requires c.offset + FrameSize(e) <= |buf| && buf[c.offset .. c.offset + FrameSize(e)] == Frame(e)
    requires RenderElem(env, e, |c.nest|, c.attributeName) == Ok((lines, attr))
    requires after == Cursor(c.offset + FrameSize(e), PopClosed(c.offset + FrameSize(e), c.nest), attr, c.output + lines)
    ensures Run(env, buf, c) == Run(env, buf, after)
  {
    hide *;
    WalkableParts(env.catalog, e);
    FrameLength(e);
    RenderScalar(env, e, |c.nest|, c.attributeName);
    var text := ScalarText(env, e.value, TagName(env.catalog, e), c.attributeName);
    ScalarDecoded(env, buf, c, e, text.value, after);
  }

  lemma {:induction false} StructDecodedOk(env: Env, buf: seq<byte>, e: WireElem, c: Cursor,
                                           lines: seq<string>, attr: seq<byte>, after: Cursor)
    requires Walkable(env.catalog, e) && e.value.WStructure?
    requires c.offset + FrameSize(e) <= |buf| && buf[c.offset .. c.offset + FrameSize(e)] == Frame(e)
    requires forall i | 0 <= i < |c.nest| :: c.nest[i] >= c.offset + FrameSize(e)
    requires RenderElem(env, e, |c.nest|, c.attributeName) == Ok((lines, attr))
    requires after == Cursor(c.offset + FrameSize(e), PopClosed(c.offset + FrameSize(e), c.nest), attr, c.output + lines)
    ensures Run(env, buf, c) == Run(env, buf, after)
    decreases e, 1
  {
    hide *;
    var cs := e.value.children;
    WalkableParts(env.catalog, e);
    FrameLength(e);
    ChildrenLaid(buf, c.offset, e);
    RenderStruct(env, e, |c.nest|, c.attributeName);
    var line := Line(|c.nest|, TagName(env.catalog, e), "STRUCTURE", LengthField(e.value), "stru" + Decimal(|c.nest| + 1));
    var inner := Render(env, cs, |c.nest| + 1, c.attributeName);
    StructOpens(env, buf, c, e);
    ChildrenDecodedOk(env, buf, c, cs, line, inner.value.0, attr, after, c.offset + 8, c.offset + 8 + FramesSize(cs));
  }

  /** Past a structure's header, decoding its children's frames prints
      their lines and closes the structure where they end. */
  lemma {:induction false} ChildrenDecodedOk(env: Env, buf: seq<byte>, c: Cursor, cs: seq<WireElem>, line: string,
                                             inner: seq<string>, attr: seq<byte>, after: Cursor, start: nat, end: nat)
    requires "Tags" in env.catalog
    requires forall w | w in cs :: ValidElem(w) && NoRaw(w) && Named(env.catalog, w)
    requires start == c.offset + 8 && end == start + FramesSize(cs)
    requires FramesAt(buf, start, cs)
    requires forall i | 0 <= i < |c.nest| :: c.nest[i] >= end
    requires Render(env, cs, |c.nest| + 1, c.attributeName) == Ok((inner, attr))
    requires Run(env, buf, c) == Run(env, buf, Cursor(start, PopClosed(start, c.nest + [end]), c.attributeName, c.output + [line]))
    requires after == Cursor(end, PopClosed(end, c.nest), attr, c.output + ([line] + inner))
    ensures Run(env, buf, c) == Run(env, buf, after)
    decreases cs, 1
  {
    hide *;
    ClosedTogether(end, c.nest);
    if cs == [] {
      NoFrames(env, |c.nest| + 1, c.attributeName);
      EmptyStructureDecoded(env, buf, c, line, inner, attr, after);
    } else {
      OpenPushed(start, c.nest, end);
      var c1 := Cursor(start, c.nest + [end], c.attributeName, c.output + [line]);
      PushedBound(c.nest, end);
      Regroup(c.output, [line], inner, [line] + inner);
      DecodeAllOk(env, buf, cs, c1, inner, attr, after);
    }
  }

  /** A structure without children is closed right after its header. */
  lemma EmptyStructureDecoded(env: Env, buf: seq<byte>, c: Cursor, line: string,
                              inner: seq<string>, attr: seq<byte>, after: Cursor)
    requires "Tags" in env.catalog
    requires Render(env, [], |c.nest| + 1, c.attributeName) == Ok((inner, attr))
    requires Run(env, buf, c) == Run(env, buf, Cursor(c.offset + 8, PopClosed(c.offset + 8, c.nest + [c.offset + 8]),
                                                      c.attributeName, c.output + [line]))
    requires after == Cursor(c.offset + 8, PopClosed(c.offset + 8, c.nest), attr, c.output + ([line] + inner))
    ensures Run(env, buf, c) == Run(env, buf, after)
  {
    hide Run, Step;
    NoFrames(env, |c.nest| + 1, c.attributeName);
    ClosedTogether(c.offset + 8, c.nest);
    assert inner == [] && attr == c.attributeName;
    assert [line] + inner == [line];
  }

  /** Decoding the frames of a sequence of elements prints their expected
      lines one element after another. */
  lemma {:induction false} DecodeAllOk(env: Env, buf: seq<byte>, ws: seq<WireElem>, c: Cursor,
                                       lines: seq<string>, attr: seq<byte>, after: Cursor)
    requires ws != [] && "Tags" in env.catalog
    requires forall w | w in ws :: ValidElem(w) && NoRaw(w) && Named(env.catalog, w)
    requires FramesAt(buf, c.offset, ws)
    requires forall i | 0 <= i < |c.nest| :: c.nest[i] >= c.offset + FramesSize(ws)
    requires Render(env, ws, |c.nest|, c.attributeName) == Ok((lines, attr))
    requires after == Cursor(c.offset + FramesSize(ws), PopClosed(c.offset + FramesSize(ws), c.nest), attr, c.output + lines)
    ensures Run(env, buf, c) == Run(env, buf, after)
    decreases ws, 0
  {
    hide *;
    var rest := ws[1..];
    WalkableFirst(env.catalog, ws);
    FramesAtCons(buf, c.offset, ws);
    FramesSizeCons(ws);
    RenderCons(env, ws, |c.nest|, c.attributeName);
    var first := RenderElem(env, ws[0], |c.nest|, c.attributeName);
    var mid := c.offset + FrameSize(ws[0]);
    var c2 := Cursor(mid, PopClosed(mid, c.nest), first.value.1, c.output + first.value.0);
    DecodeElemOk(env, buf, ws[0], c, first.value.0, first.value.1, c2);
    var r := Render(env, rest, |c.nest|, first.value.1);
    if rest == [] {
      NoFrames(env, |c.nest|, first.value.1);
      assert first.value.0 + [] == first.value.0;
    } else {
      NoneClosed(mid, c.nest);
      Regroup(c.output, first.value.0, r.value.0, lines);
      DecodeAllOk(env, buf, rest, c2, r.value.0, attr, after);
    }
  }

  /** When an element's expected output fails, decoding its frame fails. */
  lemma {:induction false} DecodeElemFails(env: Env, buf: seq<byte>, e: WireElem, c: Cursor)
    requires Walkable(env.catalog, e)
    requires c.offset + FrameSize(e) <= |buf| && buf[c.offset .. c.offset + FrameSize(e)] == Frame(e)
    requires forall i | 0 <= i < |c.nest| :: c.nest[i] >= c.offset + FrameSize(e)
    requires RenderElem(env, e, |c.nest|, c.attributeName).Err?
    ensures Run(env, buf, c).result.Err?
    decreases e, 2
  {
    hide *;
    WalkableParts(env.catalog, e);
    FrameLength(e);
    if e.value.WStructure? {
      StructDecodeFails(env, buf, e, c);
    } else {
      RenderScalar(env, e, |c.nest|, c.attributeName);
      ScalarDecodeFails(env, buf, c, e);
    }
  }

  lemma {:induction false} StructDecodeFails(env: Env, buf: seq<byte>, e: WireElem, c: Cursor)
    requires Walkable(env.catalog, e) && e.value.WStructure?
    requires c.offset + FrameSize(e) <= |buf| && buf[c.offset .. c.offset + FrameSize(e)] == Frame(e)
    requires forall i | 0 <= i < |c.nest| :: c.nest[i] >= c.offset + FrameSize(e)
    requires RenderElem(env, e, |c.nest|, c.attributeName).Err?
    ensures Run(env, buf, c).result.Err?
    decreases e, 1
  {
    hide *;
    var cs := e.value.children;
    WalkableParts(env.catalog, e);
    FrameLength(e);
    ChildrenLaid(buf, c.offset, e);
    RenderStruct(env, e, |c.nest|, c.attributeName);
    var line := Line(|c.nest|, TagName(env.catalog, e), "STRUCTURE", LengthField(e.value), "stru" + Decimal(|c.nest| + 1));
    StructOpens(env, buf, c, e);
    ChildrenDecodeFails(env, buf, c, cs, line);
  }

  /** Past a structure's header, decoding fails among its children when
      their expected output fails. */
  lemma {:induction false} ChildrenDecodeFails(env: Env, buf: seq<byte>, c: Cursor, cs: seq<WireElem>, line: string)
    requires "Tags" in env.catalog
    requires forall w | w in cs :: ValidElem(w) && NoRaw(w) && Named(env.catalog, w)
    requires FramesAt(buf, c.offset + 8, cs)
    requires forall i | 0 <= i < |c.nest| :: c.nest[i] >= c.offset + 8 + FramesSize(cs)
    requires Render(env, cs, |c.nest| + 1, c.attributeName).Err?
    requires Run(env, buf, c) == Run(env, buf, Cursor(c.offset + 8, PopClosed(c.offset + 8, c.nest + [c.offset + 8 + FramesSize(cs)]),
                                                      c.attributeName, c.output + [line]))
    ensures Run(env, buf, c).result.Err?
    decreases cs, 1
  {
    hide *;
    var end := c.offset + 8 + FramesSize(cs);
    if cs == [] {
      NoFrames(env, |c.nest| + 1, c.attributeName);
    } else {
      OpenPushed(c.offset + 8, c.nest, end);
      var c1 := Cursor(c.offset + 8, c.nest + [end], c.attributeName, c.output + [line]);
      PushedBound(c.nest, end);
      DecodeAllFails(env, buf, cs, c1);
    }
  }

  /** When the expected output of a sequence of elements fails, decoding
      their frames fails. */
  lemma {:induction false} DecodeAllFails(env: Env, buf: seq<byte>, ws: seq<WireElem>, c: Cursor)
    requires "Tags" in env.catalog
    requires forall w | w in ws :: ValidElem(w) && NoRaw(w) && Named(env.catalog, w)
    requires FramesAt(buf, c.offset, ws)
    requires forall i | 0 <= i < |c.nest| :: c.nest[i] >= c.offset + FramesSize(ws)
    requires Render(env, ws, |c.nest|, c.attributeName).Err?
    ensures Run(env, buf, c).result.Err?
    decreases ws, 0
  {
    hide *;
    if ws == [] {
      NoFrames(env, |c.nest|, c.attributeName);
    } else {
      var rest := ws[1..];
      WalkableFirst(env.catalog, ws);
      FramesAtCons(buf, c.offset, ws);
      FramesSizeCons(ws);
      RenderCons(env, ws, |c.nest|, c.attributeName);
      var first := RenderElem(env, ws[0], |c.nest|, c.attributeName);
      if first.Err? {
        DecodeElemFails(env, buf, ws[0], c);
      } else {
        var mid := c.offset + FrameSize(ws[0]);
        var c2 := Cursor(mid, PopClosed(mid, c.nest), first.value.1, c.output + first.value.0);
        DecodeElemOk(env, buf, ws[0], c, first.value.0, first.value.1, c2);
        if rest == [] {
          NoFrames(env, |c.nest|, first.value.1);
        } else {
          NoneClosed(mid, c.nest);
          DecodeAllFails(env, buf, rest, c2);
        }
      }
    }
  }

  // ---------------------------------------------------------------------
  // The round trip

  /** Decoding the frames the encoder lays out for a sequence of walkable
      elements prints exactly the lines `Render` computes from the elements,
      ends at the end of the buffer with no structure left open, and holds
      the last `ATTRIBUTE_NAME` written; when `Render` fails (an enumeration
      the catalog cannot name), decoding fails too. */
  lemma DecodeFrames(env: Env, ws: seq<WireElem>)
    requires "Tags" in env.catalog && forall w | w in ws :: Walkable(env.catalog, w)
    ensures forall w | w in ws :: ValidElem(w) && NoRaw(w)
    ensures var out := Render(env, ws, 0, []);
            var d := Decode(env, Frames(ws));
            && (out.Ok? ==> d == Outcome(Cursor(|Frames(ws)|, [], out.value.1, out.value.0), Ok(())))
            && (out.Err? ==> d.result.Err?)
  {
    hide *;
    forall w | w in ws
      ensures ValidElem(w) && NoRaw(w) && Named(env.catalog, w)
    {
      WalkableParts(env.catalog, w);
    }
    var buf := Frames(ws);
    DecodeIsRun(env, buf);
    FramesLength(ws);
    assert buf[0 .. FramesSize(ws)] == buf;
    FramesLaid(buf, 0, ws);
    var out := Render(env, ws, 0, []);
    if ws == [] {
      NoFrames(env, 0, []);
      NoFrameBytes();
    } else if out.Ok? {
      var after := Cursor(FramesSize(ws), PopClosed(FramesSize(ws), []), out.value.1, [] + out.value.0);
      DecodeAllOk(env, buf, ws, START, out.value.0, out.value.1, after);
      assert [] + out.value.0 == out.value.0;
      assert after == Cursor(|buf|, [], out.value.1, out.value.0);
    } else {
      DecodeAllFails(env, buf, ws, START);
    }
  }

  lemma DecodeIsRun(env: Env, buf: seq<byte>)
    ensures START == Cursor(0, [], [], [])
    ensures Decode(env, buf) == Run(env, buf, START)
  {
  }
}
