# A verified model of a KMIP TTLV encoder and decoder

This project models the core of EncodeAndDecodeTTLV, a small Python codec for
the Tag-Type-Length-Value (TTLV) wire format of the Key Management
Interoperability Protocol (KMIP). Every element on the wire has:

- an 8-byte header: the marker byte 0x42, a two-byte tag, a one-byte type and a four-byte big-endian length;
- a value padded with zero bytes to a multiple of eight.

The model covers five parts.

- **Encoder** (`encoder.dfy`, `wire.dfy`). This is `EncodeTTLV` and `encode_ttlv_structure` from `encode_ttlv.py`. The encoder is split in two:
  - `ResolveElement` turns a Python element (`tag`, `type` and `value` as a `PyVal`) into a wire element, or into the exception the encoder raises;
  - `Wire.Frame` lays a wire element out as bytes.

  The class `EncodeTtlv` keeps the source's two fields, the buffer and the remembered attribute name. Its methods are proved to append exactly `Frame(ResolveElement(..))` and to update the attribute name as `ContextAfter` says.
- **Decoder** (`decoder.dfy`). This is `DecodeTTLV` from `decode_ttlv.py`. The class `DecodeTtlv` keeps the source's fields: the offset, the stack of structure ends (`nest`), the attribute name, and the printed lines (`output`). One turn of the `decode` loop is the pure function `Step`, the whole loop is `Run`, and each method is proved to follow them.
- **Round trip** (`roundtrip.dfy`). Decoding the frames the encoder lays out prints one line per element, in document order. Each line is indented by the element's depth and shows the value that was written. If the catalog cannot name an enumeration, decoding fails instead.
- **Structured text** (`structured_text.dfy`). This is `parse_structured_text`, `convert_structured_to_flat` and `encode_from_structured_text`. The parser's stack of open structures is always a prefix of the rightmost path of the tree built so far, so the model keeps only the stack's height. The parsed forest is proved to hold exactly the well-formed lines, in order. Its nesting is pinned down by the converse: a forest in which every element is indented by exactly its depth, and only structures have children (`Canonical`, the shape the decoder prints), is rebuilt exactly from its lines in document order.
- **Converters** (`line_pattern.dfy`, `json_convert.dfy`, `json_nesting.dfy`, `csv_convert.dfy`). These are `convert_to_json.py` and `helpers/convert_to_csv.py`. `helpers/convert_structured_to_json.py` is the same text as `convert_to_json.py` and is modelled once. The JSON builder keeps the source's index loops and is proved to compute `Forest`, a recursive grouping. Flattening that forest gives back exactly the parsed lines. Its nesting is pinned down by the converse (`JsonNesting`): write any document out as lines, each element indented by its depth, where a structure and only a structure holds a list. Grouping those lines gives back that very document. The CSV rows are proved to be the scalar leaves of the JSON elements.

Supporting modules:

- `bytes.dfy`: fixed-width big-endian integers and padding.
- `strings.dfy`: `strip`, `split`, `int()`/`str()`, `hexlify`/`unhexlify`, `repr` of bytes, UTF-8.
- `registry.dfy`: the enumeration catalog.
- `pyvalue.dfy`: Python values, including `int()` and `bytes()` of a value.

The enumeration classes of PyKMIP are a parameter, `Catalog`. It maps a class name to that class's members in `dir()` order. A name is looked up as the first member with that name, and a number as the first member with that value.

Three behaviours of the code are worth knowing; the model keeps them as written:

- **Children of a structure get no attribute context.** KMIP pairs an `ATTRIBUTE_NAME` with the `ATTRIBUTE_VALUE` that follows it in the same structure, and `_get_enum_value_attr` resolves an enumeration value through the remembered name. But `_encode_type_struct` encodes each child with a fresh `EncodeTTLV`, so a child never sees an attribute name (`Encoder.ChildStep`). Only top-level elements of `encode_ttlv_structure` share one.
- **The converters recognise eight type names.** Their pattern (convert_to_json.py:22-24) knows `STRUCTURE`, `INTEGER`, `LONG_INTEGER`, `ENUMERATION`, `BOOLEAN`, `TEXT_STRING`, `BYTE_STRING` and `DATE_TIME`. The decoder also prints `INTERVAL`, `BIG_INTEGER` and `DATE_TIME_EXTENDED` lines; these do not match and are dropped like any unmatched line.
- **Big integers are eight-byte signed numbers.** KMIP allows big integers of any multiple of eight bytes; `_encode_type_bigint` packs them with `>q`.

## Model

| member | source | states |
|---|---|---|
| Bytes.FromBigEndianInverse | decode_ttlv.py:69-73 | reading back a `width`-byte big-endian number gives the number written (`>I`, `>Q`) |
| Bytes.BigEndianInverse | decode_ttlv.py:69-73 | writing the number read from a byte string gives the same bytes back |
| Bytes.FromSignedBigEndianInverse | decode_ttlv.py:83-93 | two's-complement fields (`>h`, `>i`, `>q`) read back the signed number written |
| Bytes.SignedIsUnsignedWhenSmall | encode_ttlv.py:45-50 | a number below half the range has the same bytes signed and unsigned |
| Bytes.PadLength | encode_ttlv.py:148-149 | `(8 - n % 8) % 8` is below 8, makes `n` a multiple of 8, and is 0 when `n` already is |
| Bytes.Padded | encode_ttlv.py:148-150 | the padded value starts with the value and ends with zero bytes, to a multiple of 8 |
| Registry.LookupName | encode_ttlv.py:245-264 | a class member is found by name exactly when the class has a member with that name, and the value returned is that member's |
| Registry.LookupValue | decode_ttlv.py:146-152 | a member is found by value exactly when the class has a member with that value, and the name returned is that member's |
| Registry.NameThenValue | decode_ttlv.py:146-152 | in a class where names and values are one-to-one, the decoder's lookup by value gives back the name the encoder looked up |
| Registry.ValueThenName | encode_ttlv.py:245-264 | in such a class, the encoder's lookup by name gives back the value the decoder looked up |
| Registry.FindInClasses | encode_ttlv.py:300-318 | the first of the listed classes that has the name gives the value; no value when none has it |
| PyValue.IntOf | encode_ttlv.py:102-106 | `int(v)`: integers and booleans pass through, text and bytes are parsed (bytes with only ASCII whitespace stripped), `None`, lists and dicts raise |
| PyValue.IntOfDecimal | encode_ttlv.py:102-117 | `int()` reads back the decimal text of any number, given as text or as its UTF-8 bytes |
| PyValue.BytesOf | encode_ttlv.py:140-143 | `bytes(v)`: bytes are copied, `n >= 0` gives `n` zero bytes, a list must hold byte values, text and `None` raise |
| PyValue.AsInt | encode_ttlv.py:191-193 | a boolean is the integer 1 or 0 |
| PyValue.Element | encode_ttlv.py:679-683 | the dictionary built holds the three keys with the given values |
| Strings.LStripSuffix | encode_ttlv.py:497 | `lstrip` removes exactly the leading whitespace, so the indentation is the length difference |
| Strings.SplitOnce | encode_ttlv.py:506 | `split(c, 1)`: text before the first `c` (which holds no `c`) and text after it |
| Strings.SplitJoin | encode_ttlv.py:488 | joining the pieces of `split` with the separator gives the text back |
| Strings.Remove | encode_ttlv.py:293 | `replace(c, '')` leaves no `c` and changes nothing when there was none |
| Strings.Lower | encode_ttlv.py:532-533 | `lower()` maps every character with the ASCII case mapping |
| Strings.DecimalRoundTrip | convert_to_json.py:61-67 | `int(str(n)) == n` for every integer the decoder prints |
| Strings.ParseInt | encode_ttlv.py:104 | `int(text)`: whitespace around an optional sign and digits with single underscores between them; anything else raises; `DecimalRoundTrip` is its partner |
| Strings.ParseIntBytes | encode_ttlv.py:102-117 | `int(b)` for bytes: the same sign and digits, with only ASCII whitespace stripped around them |
| Strings.ParseIntBytesAgrees | encode_ttlv.py:102-117 | on ASCII bytes without the separators 0x1C-0x1F, `int(b)` reads the same number as `int` of the same text |
| Strings.BytesDecimalRoundTrip | encode_ttlv.py:102-117 | `int(str(n).encode()) == n` for every integer |
| Strings.Hexlify | decode_ttlv.py:123-126 | two lower-case hex digits per byte |
| Strings.UnhexlifyHexlify | encode_ttlv.py:153-158 | `unhexlify(hexlify(b)) == b` |
| Strings.FromHexHexlify | encode_ttlv.py:605-613 | `bytes.fromhex(hexlify(b)) == b` |
| Strings.FromHexIsUnhexlify | encode_ttlv.py:611-613 | on an even run of hex digits, `bytes.fromhex` and `unhexlify` agree and succeed |
| Strings.ReprPlain | decode_ttlv.py:116-121 | `repr` of printable bytes without quotes or backslashes is `b'…'` around the bytes themselves |
| Strings.ReprBytes | decode_ttlv.py:116-121 | `repr(b)`: `b'…'` (or `b"…"` when there is a single quote and no double quote) around the bytes, escaping the quote, backslash, tab, newline, carriage return and non-printable bytes; `ReprPlain` is its partner |
| Strings.Utf8RoundTrip | encode_ttlv.py:138-143 | decoding the UTF-8 encoding of a text gives the text back |
| Strings.Utf8EncodeAscii | encode_ttlv.py:140-141 | ASCII text encodes to one byte per character, its code point |
| Strings.Utf8HeadChar | decode_ttlv.py:154-156 | the decoder reads the first character of an encoded text back, with its byte count |
| Wire.TypeNameOf | encode_ttlv.py:57-82 | every wire value carries one of the eleven type names the encoder accepts |
| Wire.LengthField | encode_ttlv.py:102-187 | the length field is 4 for integers, enumerations and intervals, and 8 for long and big integers, booleans and times |
| Wire.ValueBytes | encode_ttlv.py:84-187 | the value bytes each `_encode_type_*` returns: signed or unsigned big-endian numbers with their padding, padded text and bytes, and a structure's children laid out one after another; `FrameLength`, `FrameAligned` and `RoundTrip.DecodeFrames` are its partners |
| Wire.Frame | encode_ttlv.py:23-43 | the bytes `encode_ttlv` appends: marker, tag, type and length header, then the value; `FrameLength` and `RoundTrip.DecodeFrames` are its partners |
| Wire.FrameLength | encode_ttlv.py:23-43 | a frame is as long as `FrameSize` says: the 8-byte header and the padded value |
| Wire.FramesLength | encode_ttlv.py:84-93 | the bytes of a list of frames are as long as their sizes added up |
| Wire.FrameAligned | encode_ttlv.py:138-164 | every frame is a multiple of 8 bytes unless a structure was given as ready-made bytes |
| Wire.FramesAligned | encode_ttlv.py:84-93 | the same for a list of frames |
| Wire.StructureLength | encode_ttlv.py:84-93 | a structure's length field is the byte count of its children's frames |
| Wire.FramesAppend | encode_ttlv.py:36-41 | appending one more element appends exactly its frame |
| Encoder.GetEnumValue | encode_ttlv.py:189-266 | integers pass through; a name is taken from the fixed table for the enumeration, else from the catalog class named after it in CamelCase; it fails exactly when neither has it |
| Encoder.ContextClass | encode_ttlv.py:288-297 | a class name is given exactly when the remembered attribute name is non-empty, decodes as UTF-8 and is not all spaces, and it is that text without its spaces |
| Encoder.GetEnumValueAttr | encode_ttlv.py:268-324 | integers pass through, key state names come first, then the attribute name's class and three fallback classes; without a usable attribute name it is `_get_enum_value` |
| Encoder.TagField | encode_ttlv.py:45-50 | the tag field is the low 16 bits of the tag number; it fails when the tag is unknown or those bits do not fit a signed `>h` |
| Encoder.TagHighBitsDropped | encode_ttlv.py:45-50 | tag numbers that agree in their low 16 bits get the same tag field |
| Encoder.TypeField | encode_ttlv.py:52-55 | the field is the looked-up type number exactly when the lookup succeeds and the number fits one byte; a lookup error is passed on unchanged, and a known type that does not fit is a `struct.error` |
| Encoder.SignedValue | encode_ttlv.py:102-117 | `int(value)` packed as `>i` or `>q`: conversion errors and out-of-range numbers are told apart |
| Encoder.EnumValue | encode_ttlv.py:119-130 | an enumeration is an unsigned 32-bit number, taken directly from an integer or looked up by name, through the attribute context for `ATTRIBUTE_VALUE`; it succeeds exactly when the integer or the found number fits 32 bits, and a failed lookup's error is passed on unchanged |
| Encoder.TextBytes | encode_ttlv.py:138-143 | text is UTF-8 encoded and decodes back to the text; anything else goes through `bytes()` |
| Encoder.ByteStringBytes | encode_ttlv.py:153-164 | text is read as hex (two digits per byte); anything else goes through `bytes()` |
| Encoder.Timestamp | encode_ttlv.py:166-177 | integers are used as they are, text is the time it parses to (an unparseable text is a conversion error), anything else is the current time; each succeeds exactly when that number fits `>Q` |
| Encoder.ContextAfter | encode_ttlv.py:145-146 | only an `ATTRIBUTE_NAME` text string changes the attribute context, and then to its bytes; when `bytes()` fails the old context is kept |
| Encoder.ResolveValue | encode_ttlv.py:57-82 | a resolved value has the type name it was asked for; an unknown type name is `Unsupported type`; a value never fails with the list-shape errors of `encode_ttlv_structure` |
| Encoder.ResolveScalar | encode_ttlv.py:61-82 | the ten scalar branches give a scalar of the type asked for |
| Encoder.ResolveNumber | encode_ttlv.py:61-78 | the `INTEGER`, `LONG_INTEGER`, `BIG_INTEGER`, `ENUMERATION` and `INTERVAL` branches give a scalar of the type asked for, and their errors are never malformed-input errors |
| Encoder.ResolveStruct | encode_ttlv.py:84-100 | a list becomes its children, bytes are kept as they are, anything else is an empty structure |
| Encoder.ResolveChildren | encode_ttlv.py:88-93 | at most one child per item, each of them valid |
| Encoder.ChildStep | encode_ttlv.py:88-93 | each item is encoded with an empty attribute context; items that are not element dictionaries are skipped; the first error ends the list |
| Encoder.ChildErrorPersists | encode_ttlv.py:88-93 | an error among a structure's items is the structure's error |
| Encoder.ResolveElement | encode_ttlv.py:23-43 | tag, then type, then value, then the length field are checked, and the first failure is the error; the element's tag is the tag field |
| Encoder.ElementFails | encode_ttlv.py:23-43 | which error `encode_ttlv` raises, and that the attribute context changes even when a later step fails |
| Encoder.ResolvedElement | encode_ttlv.py:23-43 | when every step succeeds, the element is built from the tag field, type field and value |
| Encoder.ElementLaidOut | encode_ttlv.py:33-43 | the header and value bytes written are the element's frame, and the returned count is its size |
| Encoder.HeaderThenValue | encode_ttlv.py:36-41 | a header of marker, tag, type and length followed by the value bytes is the frame |
| Encoder.ResolveAll | encode_ttlv.py:327-348 | one element per item of the list, each valid |
| Encoder.ElementStep | encode_ttlv.py:340-346 | one more item: a non-dictionary or a dictionary without the three keys raises `ValueError`, otherwise the element is encoded with the current attribute context |
| Encoder.ElementErrorPersists | encode_ttlv.py:340-346 | the first error ends `encode_ttlv_structure` |
| Encoder.ElementsNeverMalformed | encode_ttlv.py:340-346 | a list of complete element dictionaries fails only because of a value inside it |
| Encoder.EncodeTtlv.constructor | encode_ttlv.py:11-13 | a new encoder has an empty buffer and an empty attribute name |
| Encoder.EncodeTtlv.HexString | encode_ttlv.py:19-21 | `get_hex_string` is twice as long as the buffer and reads back to it |
| Encoder.EncodeTtlv.EncodeElement | encode_ttlv.py:23-43 | appends the element's frame and returns its size, or appends nothing and raises; the attribute name becomes the resolved context |
| Encoder.EncodeTtlv.EncodeValue | encode_ttlv.py:57-82 | returns the padded value bytes and length field of the resolved value and leaves the buffer alone |
| Encoder.EncodeTtlv.EncodeText | encode_ttlv.py:138-151 | returns the padded text bytes and their length, and remembers an `ATTRIBUTE_NAME` |
| Encoder.EncodeTtlv.EncodeStruct | encode_ttlv.py:84-100 | returns the laid-out structure value |
| Encoder.EncodeTtlv.EncodeItems | encode_ttlv.py:86-93 | the structure buffer is the children's frames, or the first error |
| Encoder.EncodeTtlvStructure | encode_ttlv.py:327-348 | a fresh encoder whose buffer is the elements' frames and whose attribute name is the last context, or the first error |
| Decoder.EnumName | decode_ttlv.py:146-152 | the name of a member of the tag's class with the value; a missing class raises; no member gives `None` |
| Decoder.EnumNameAttr | decode_ttlv.py:154-160 | the same, with the class named by the remembered attribute name without spaces; undecodable bytes raise |
| Decoder.TagNumber | decode_ttlv.py:57 | `(0x42 << 16) \| lo` puts 0x42 above a non-negative 16-bit field and leaves a negative field unchanged |
| Decoder.TagStep | decode_ttlv.py:48-60 | three bytes starting with 0x42 are needed; otherwise the buffer is too short or the marker is bad and nothing moves |
| Decoder.TypeStep | decode_ttlv.py:62-67 | one byte is read and named through `Types` |
| Decoder.SizeStep | decode_ttlv.py:69-73 | four bytes are read as an unsigned length |
| Decoder.StructValue | decode_ttlv.py:79-81 | a structure pushes the offset where it ends and reads nothing |
| Decoder.ValueStep | decode_ttlv.py:17-30 | an unknown type name has no handler and `DEFAULT` raises; a value never prints and never moves back; only a structure pushes, only an `ATTRIBUTE_NAME` text changes the attribute name |
| Decoder.PopClosed | decode_ttlv.py:44-46 | pops exactly the structures that end at the offset, from the top |
| Decoder.Step | decode_ttlv.py:33-46 | a turn that succeeds moves at least 8 bytes and prints exactly one line; a failing turn prints nothing |
| Decoder.StepOk | decode_ttlv.py:34-46 | a turn prints the indented line `TAG:TYPE(size):value` and then closes the structures ending there |
| Decoder.Line | decode_ttlv.py:41-42 | the printed line: one space per open structure, then `TAG:TYPE(size):value`; `JsonConvert.ReadDecoderLine` and `StructuredText.ReadDecoderLine` read it back |
| Decoder.Run | decode_ttlv.py:32-46 | the output only grows, a run that succeeds consumes the whole buffer, and an exhausted buffer prints nothing |
| Decoder.RunStep | decode_ttlv.py:32-46 | the loop goes on from where a successful turn left off |
| Decoder.BadMarkerRejected | decode_ttlv.py:48-55 | a buffer whose first byte is not 0x42 raises before printing anything |
| Decoder.OutputBound | decode_ttlv.py:32-46 | at most one line per 8 bytes of buffer, plus one for a failing last turn |
| Decoder.DecodeTtlv.constructor | decode_ttlv.py:11-30 | a new decoder is at offset 0 with no open structure, no attribute name and no output |
| Decoder.DecodeTtlv.DecodeTag | decode_ttlv.py:48-60 | follows `TagStep` |
| Decoder.DecodeTtlv.DecodeType | decode_ttlv.py:62-67 | follows `TypeStep` |
| Decoder.DecodeTtlv.DecodeSize | decode_ttlv.py:69-73 | follows `SizeStep` |
| Decoder.DecodeTtlv.DecodeStruct | decode_ttlv.py:79-81 | follows `StructValue` |
| Decoder.DecodeTtlv.DecodeInt4 | decode_ttlv.py:83-87 | a signed 32-bit value, then 4 bytes of padding; `_decode_type_inter` is the same code |
| Decoder.DecodeTtlv.DecodeLong | decode_ttlv.py:89-93 | a signed 64-bit value; `_decode_type_bigint` is the same code |
| Decoder.DecodeTtlv.DecodeEnum | decode_ttlv.py:101-108 | an unsigned 32-bit value named through the tag's class, or through the attribute name for `ATTRIBUTE_VALUE` |
| Decoder.DecodeTtlv.DecodeBool | decode_ttlv.py:110-114 | any non-zero 64-bit value is `True` |
| Decoder.DecodeTtlv.DecodeText | decode_ttlv.py:116-121 | the text bytes, printed as `bytearray(b'…')`, skipping the padding and remembering an `ATTRIBUTE_NAME` |
| Decoder.DecodeTtlv.DecodeBytes | decode_ttlv.py:123-126 | the bytes in hex, skipping the padding |
| Decoder.DecodeTtlv.DecodeDate | decode_ttlv.py:128-132 | an unsigned 64-bit time shown by `ctime`; `_decode_type_exdate` is the same code |
| Decoder.DecodeTtlv.DecodeValue | decode_ttlv.py:36-39 | follows `ValueStep` |
| Decoder.DecodeTtlv.DecodeElement | decode_ttlv.py:34-46 | one turn of the loop, as `Step` |
| Decoder.DecodeTtlv.CloseStructures | decode_ttlv.py:44-46 | pops the structures that end at the offset and changes nothing else |
| Decoder.DecodeTtlv.Decode | decode_ttlv.py:32-46 | the whole loop, as `Run` |
| RoundTrip.ScalarTextFails | decode_ttlv.py:101-108 | among scalars only an enumeration can fail to print: its class or attribute name may be missing |
| RoundTrip.EmptyStructureDecoded | decode_ttlv.py:44-46 | a structure without children closes right after its header |
| RoundTrip.DecodeAllOk | decode_ttlv.py:32-46 | decoding the frames of elements the catalog can name prints their lines, at the right depth, in document order |
| RoundTrip.DecodeAllFails | decode_ttlv.py:32-46 | when an element's line cannot be printed, decoding its frames fails |
| RoundTrip.DecodeFrames | decode_ttlv.py:32-46 | decoding the encoder's frames prints exactly the expected lines, consumes the whole buffer and closes every structure, or fails exactly when an expected line fails |
| StructuredText.ConvertValue | encode_ttlv.py:526-622 | a number that does not parse as `INTEGER` becomes 0; `BOOLEAN` is true exactly for `true`, `1` and `yes` in any case; an `ENUMERATION` that is not a number stays text unless it names an operation; only a `b'…'` byte string that is not hex drops the line; text values always stay text |
| StructuredText.ConvertTextReadBack | encode_ttlv.py:614-622 | the decoder's `bytearray(b'…')` of printable text without quotes or backslashes unwraps to the text itself |
| StructuredText.ConvertBytesReadBack | encode_ttlv.py:605-613 | the decoder's `b'…'` around hex digits unwraps and reads back as the original bytes |
| StructuredText.ConvertNumberReadBack | encode_ttlv.py:526-598 | the decimal text of an integer reads back as the number, and `True`/`False` as the boolean; for an enumeration the clause covers decimal text written by hand, since the decoder prints enumeration names |
| StructuredText.ReadDecoderLine | encode_ttlv.py:493-622 | a line the decoder prints, with a plain tag and type name and a value without surrounding whitespace, reads back its depth as indentation, its tag, its type and its converted value |
| StructuredText.ReadTextLine | encode_ttlv.py:493-622 | a printed text-string line reads back as the text-string item holding the original text |
| StructuredText.ReadBytesLine | encode_ttlv.py:493-622 | a printed byte-string line reads back as the byte-string item holding the original bytes |
| StructuredText.LineFields | encode_ttlv.py:502-522 | a stripped line yields a tag, type name and value only when it holds `:`, `(` and `)`, and the type name then holds no parenthesis |
| StructuredText.ParseLine | encode_ttlv.py:493-522 | blank lines and lines without `:`, `(` or `)` are skipped; a kept line's indentation is its leading whitespace |
| StructuredText.Items | encode_ttlv.py:488-498 | at most one item per line |
| StructuredText.ItemsStep | encode_ttlv.py:492-498 | a line is kept or skipped on its own |
| StructuredText.Placed | encode_ttlv.py:624-645 | after a line the stack is exactly the chain of open structures down the forest's rightmost path, at most one deeper than before and at most the line's indentation plus one |
| StructuredText.Build | encode_ttlv.py:488-651 | the stack is always exactly the chain of open structures down the rightmost path of the forest built so far |
| StructuredText.AppendAtPreorder | encode_ttlv.py:636-641 | a line added at the top of the stack comes last in document order |
| StructuredText.BuildPreorder | encode_ttlv.py:624-645 | the parsed forest lists every kept line exactly once, in order |
| StructuredText.BuildWellNested | encode_ttlv.py:624-645 | only structures receive children, and an element nested `d` levels deep is indented by at least `d` columns |
| StructuredText.ShallowerLineNested | encode_ttlv.py:624-641 | the stack is never popped below the line's indentation: a line at indent 1 after a structure at indent 5 becomes that structure's child |
| StructuredText.BuildUnindented | encode_ttlv.py:625-641 | an unindented line always starts a new top-level element |
| StructuredText.ParsedForestProperties | encode_ttlv.py:471-651 | `parse_structured_text` holds exactly the well-formed lines of the text, in order; only structures have children and no element is indented less than its depth |
| StructuredText.AppendAt | encode_ttlv.py:636-645 | adding a node as the last child of the open structure `depth` levels down leaves exactly `depth` structures open above it, plus the node's own open path |
| StructuredText.PlacedAtIndent | encode_ttlv.py:624-645 | a line indented no deeper than the stack is high becomes the last child at the depth of its indentation (a top-level element at indent 0), and the stack then ends there, one deeper for a structure |
| StructuredText.Extend | encode_ttlv.py:624-645 | the parser loop continued from any forest and stack keeps the stack within the open path |
| StructuredText.BuildIsExtend | encode_ttlv.py:488-645 | the parser is that loop started from an empty forest and stack |
| StructuredText.ExtendAppend | encode_ttlv.py:492-645 | reading two runs of lines one after the other is reading their concatenation |
| StructuredText.AppendAll | encode_ttlv.py:636-641 | adding several nodes at one depth keeps that depth open |
| StructuredText.AppendAtChild | encode_ttlv.py:636-645 | a node added one level below a structure just added at `depth` becomes that structure's last child |
| StructuredText.AppendAllChildren | encode_ttlv.py:636-645 | children added one by one below a structure just added are exactly its children |
| StructuredText.AppendAllTop | encode_ttlv.py:640-641 | nodes added at the top level are appended to the element list |
| StructuredText.NodeExtend | encode_ttlv.py:624-645 | the lines of a canonical element at depth `level`, read with at least `level` structures open, add exactly that element as the last child at depth `level` |
| StructuredText.ForestExtend | encode_ttlv.py:624-645 | the lines of canonical siblings at depth `level` add exactly those siblings, one after another, at that depth |
| StructuredText.BuildOfPreorder | encode_ttlv.py:624-645 | every canonical forest (each element indented by exactly its depth, only structures with children) is rebuilt exactly from its lines in document order |
| StructuredText.NestedInstance | encode_ttlv.py:624-645 | a structure holding an integer and a nested structure, then a top-level element, is rebuilt with that nesting |
| StructuredText.ItemsOfParsed | encode_ttlv.py:488-498 | lines that each parse to the next item give exactly those items |
| StructuredText.PrintedLines | decode_ttlv.py:41-42 | the decoder's line for each element, in order |
| StructuredText.ReadDecoderTree | encode_ttlv.py:471-651 | the decoder's lines for a canonical forest, whose value texts read back as the elements' values, are parsed back into exactly that forest |
| StructuredText.ParseStructuredText | encode_ttlv.py:471-651 | the loop with its stack builds the parsed forest |
| StructuredText.Place | encode_ttlv.py:624-645 | one loop body: pop, append to the parent or the top level, push a structure |
| StructuredText.Flat | encode_ttlv.py:659-683 | every element dictionary has the line's tag and type; a structure's value is its children |
| StructuredText.FlatAll | encode_ttlv.py:653-689 | one dictionary per top-level element, in order |
| StructuredText.FlatKeepsSignatures | encode_ttlv.py:653-689 | flattening keeps every element's tag, type and value, in document order |
| StructuredText.FlatOfParsedText | encode_ttlv.py:653-689 | the flattened parse of a text lists exactly its kept lines |
| StructuredText.FlatNeverMalformed | encode_ttlv.py:704-717 | encoding flattened text never fails for the shape of the list |
| StructuredText.EncodeFromStructuredText | encode_ttlv.py:704-717 | parse, flatten and encode: the buffer is the frames of the resolved elements, or the first error |
| LinePattern.MatchFields | convert_to_json.py:22-24 | a match has an upper-case tag, one of eight type names, a decimal length and a value without line breaks, and spans the whole line |
| LinePattern.MatchAssembled | convert_to_json.py:22-24 | any line assembled from such fields matches, giving those fields back |
| LinePattern.Scan | convert_to_json.py:15-24 | the pattern is applied after the leading whitespace, which gives the indentation |
| LinePattern.ScanIndented | convert_to_json.py:15-24 | an indented assembled line reads back its indentation and fields |
| LinePattern.UnwrapText | convert_to_json.py:37-48 | `bytearray(b'…')` is unwrapped; any other text is kept |
| LinePattern.UnwrapBytes | convert_to_json.py:49-60 | `b'…'` is unwrapped; any other text is kept |
| LinePattern.UnwrapTextReadBack | convert_to_json.py:37-48 | the decoder's `bytearray(b'…')` of printable text without quotes or backslashes unwraps to the text itself |
| LinePattern.UnwrapBytesReadBack | convert_to_json.py:49-60 | the decoder's `b'…'` around hex digits unwraps to the digits |
| LinePattern.ConvertScalar | convert_to_json.py:37-101 | the value of a scalar line by type; `ConvertScalarCases`, `IntegerTextReadBack` and the read-back lemmas state what it gives |
| LinePattern.ConvertScalarCases | convert_to_json.py:37-101 | only `INTEGER` and `LONG_INTEGER` can fail; enumerations and times fall back to text; booleans compare with `True` |
| LinePattern.IntegerTextReadBack | convert_to_json.py:61-101 | the decimal text of an integer reads back as that integer |
| JsonConvert.ParseLine | convert_to_json.py:12-103 | unmatched lines give `None`; kept lines have one of the eight types and a value exactly when they are not structures; only a bad integer raises |
| JsonConvert.ReadDecoderLine | convert_to_json.py:12-103 | a line the decoder prints reads back its depth, tag and type, with its value converted |
| JsonConvert.ParsedLinesFail | convert_to_json.py:195-199 | parsing the text fails exactly when one of its lines fails |
| JsonConvert.ParsedLinesKept | convert_to_json.py:195-199 | at most one parsed line per line, each valid |
| JsonConvert.ParsedLinesErrPersists | convert_to_json.py:195-199 | the first failing line ends the conversion |
| JsonConvert.RunEnd | convert_to_json.py:135-141 | the children of a structure run up to the first line indented less than the children |
| JsonConvert.BuildJsonStructure | convert_to_json.py:105-189 | the index loops compute `Forest`, which rebuilds every document from its lines (`JsonNesting.ForestOfLines`) |
| JsonConvert.CollectChildren | convert_to_json.py:144-171 | the inner loop computes `Children` |
| JsonConvert.ForestExact | convert_to_json.py:105-189 | when no line is indented more than one level deeper than the line before it, whatever that line's type, the elements list every parsed line exactly once, in order |
| JsonConvert.ForestBound | convert_to_json.py:105-189 | the elements never hold more entries than there are parsed lines |
| JsonConvert.FewLines | convert_to_json.py:107-124 | no lines give no elements; a single line gives exactly one element, and a structure alone gets the empty list |
| JsonConvert.SkippedLineIsLost | convert_to_json.py:144-171 | a line two levels below its structure is dropped: the structure comes out empty |
| JsonConvert.ConvertStructuredToJson | convert_to_json.py:191-201 | the first failing line's error, or the grouping of the parsed lines |
| JsonNesting.JLines | convert_to_json.py:105-189 | the lines of a document in document order: none exactly when there are no elements, every line indented at least the starting depth, the first one exactly at it |
| JsonNesting.ElementLines | convert_to_json.py:105-189 | an element's own line (its scalar, or no value for a list, indented by its depth) comes first and only deeper lines follow; a scalar is a single line |
| JsonNesting.ForestOfLines | convert_to_json.py:105-189 | grouping the lines of a document in which a structure and only a structure holds a list gives back exactly that document with its nesting, whatever depth the lines start at |
| JsonNesting.ElementForest | convert_to_json.py:160-163 | the lines of one element on their own, as the recursive call receives them, group back into that element |
| JsonNesting.SiblingsOfLines | convert_to_json.py:127-187 | from any position where a document's lines begin and run to the end, the outer loop rebuilds that document's elements |
| JsonNesting.FirstSibling | convert_to_json.py:130-187 | one turn of the outer loop on a document's lines builds its first element and moves past exactly that element's lines |
| JsonNesting.StructureSibling | convert_to_json.py:133-178 | a structure's line followed by its descendants' lines, then a line at its own depth or the end, becomes that structure with exactly its children |
| JsonNesting.ChildrenOfLines | convert_to_json.py:144-171 | the inner loop over the lines of a structure's children rebuilds exactly those children |
| JsonNesting.FirstChild | convert_to_json.py:146-168 | a child's line at the target indent takes exactly its descendants' lines and becomes that child |
| JsonNesting.ChildGroup | convert_to_json.py:153-165 | a one-line child is copied and a longer one rebuilt recursively; either way the result is that child |
| JsonNesting.RunEndOver | convert_to_json.py:140-141 | the run of lines at or below a floor ends after exactly the lines indented at least that floor |
| JsonNesting.NestedRequest | convert_to_json.py:105-189 | a request message holding a header and a batch item, written as five lines, groups into the nested message rather than five side-by-side elements |
| CsvConvert.ParseLine | helpers/convert_to_csv.py:12-93 | a kept row is a scalar of one of the seven scalar types |
| CsvConvert.ParseAgreesWithJson | helpers/convert_to_csv.py:12-93 | the CSV line parser is the JSON one with structure lines dropped, and fails on the same lines |
| CsvConvert.ConvertStructuredToCsv | helpers/convert_to_csv.py:95-106 | the loop computes `CsvRows` |
| CsvConvert.CsvRowsErrPersists | helpers/convert_to_csv.py:98-105 | the first failing line ends the conversion |
| CsvConvert.CsvRowsShape | helpers/convert_to_csv.py:104 | every row has three fields, the second a scalar type name, and there is at most one row per line |
| CsvConvert.Row | helpers/convert_to_csv.py:104 | a row is the tag, the type name and `str()` of the value; `CsvRowsShape` and `CsvRowsAreJsonLeaves` are its partners |
| CsvConvert.CsvRowsAreParsedScalars | helpers/convert_to_csv.py:95-106 | CSV fails exactly when the JSON parsing fails, and otherwise its rows are the parsed scalar lines in order |
| CsvConvert.CsvRowsAreJsonLeaves | helpers/convert_to_csv.py:95-106 | for text whose lines are never indented more than one level deeper than the line before, the CSV rows are the scalar leaves of the JSON elements, in document order |

## Left out

- PyKMIP's enumeration classes are a parameter (`Catalog`), not the library's tables.
- Clock, time parsing and `ctime` are parameters of the encoder and the decoder (`Env`).
- Floating-point values are left out, so the `float` branch of `_encode_type_date` is not modelled.
- Decimal digits are ASCII only: `int()` also accepts other Unicode digits, and so does the converters' pattern `\d` (convert_to_json.py:22, helpers/convert_to_csv.py:22); the model does not.
- Case mapping (`lower`, `capitalize`) is ASCII only.
- `str()` of a non-text enumeration name is not modelled: such a name is reported as not found.
- `tuple` values are not told apart from lists. A `bytearray` given as a structure value is not told apart from `bytes`.
- The decoder's `print` calls become the `output` lines. The hex dump printed before a bad-marker exception is left out.
- The warning printed by the `except` in `parse_structured_text` is left out. The line it guards is skipped (`StructuredText.ParseLine` gives `None`): a type part without `(` and a `b'…'` byte string that is not hex.
- Serialising JSON and CSV text is left out. The converters return the elements and the rows.
- File reading and writing, the command line, the `__main__` blocks, `convert_file`, `load_from_structured_text_file` and the test scripts are left out.
- Big integers longer than eight bytes are left out, as in the source.
- StructuredText.ReadDecoderTree: stated on the list of lines the decoder prints, not on the text they are joined into; that splitting the joined text gives back the same lines is not proved.
- StructuredText.ReadTextLine: the read-back is stated for printable text without quotes or backslashes. For other text `repr` prints escapes (or `b"…"` quotes), which the parser keeps as they are, so such text does not come back unchanged.
