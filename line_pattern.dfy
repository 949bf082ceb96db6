/** The line format both notation converters (convert_to_json.py and
    helpers/convert_to_csv.py) read: the regular expression
    `^([A-Z_]+):(TYPE)\((\d+)\):(.*)$` over a line with its leading
    whitespace removed, TYPE being one of eight type names, and the value
    conversion the two files share word for word. */
module LinePattern {
  import opened Wrappers
  import opened Bytes
  import opened Strings
  import opened PyValue
  import opened StructuredText

  /** The type names the pattern accepts; INTERVAL, BIG_INTEGER and
      DATE_TIME_EXTENDED are not among them. */
  const LINE_TYPES: seq<string> := [
    "TEXT_STRING", "BYTE_STRING", "INTEGER", "LONG_INTEGER", "ENUMERATION", "BOOLEAN", "STRUCTURE", "DATE_TIME"]

  /** `[A-Z_]`. */
  predicate IsTagChar(c: char) {
    'A' <= c <= 'Z' || c == '_'
  }

  predicate TagChars(s: string) {
    forall i :: 0 <= i < |s| ==> IsTagChar(s[i])
  }

  predicate Digits(s: string) {
    forall i :: 0 <= i < |s| ==> IsDigit(s[i])
  }

  /** The four groups of a match: tag, type name, length digits, value. */
  datatype Fields = Fields(tag: string, typeName: string, length: string, value: string)

  /** The text a match of `f` spans, up to the end anchor. */
  function Assembled(f: Fields): string {
    f.tag + ":" + f.typeName + "(" + f.length + "):" + f.value
  }

  /** `(.*)$` over what follows `):`: the rest of the text, less a final
      newline; no match when a newline comes earlier. */
  function MatchValue(tail: string): (r: Option<string>)
    ensures r.Some? ==> !Contains(r.value, '\n') && (tail == r.value || tail == r.value + "\n")
    ensures !Contains(tail, '\n') ==> r == Some(tail)
  {
    match IndexOf(tail, '\n')
    case None => Some(tail)
    case Some(n) =>
      if n == |tail| - 1 then
        assert tail == tail[..n] + "\n";
        Some(tail[..n])
      else None
  }

  /** `(\d+)\):(.*)$` over what follows the opening parenthesis. */
  function MatchLength(inner: string): (r: Option<(string, string)>)
    ensures r.Some? ==> r.value.0 != [] && Digits(r.value.0) && !Contains(r.value.1, '\n')
    ensures r.Some? ==> inner == r.value.0 + "):" + r.value.1 || inner == r.value.0 + "):" + r.value.1 + "\n"
  {
    match SplitOnce(inner, ')')
    case None => None
    case Some((length, after)) =>
      if length == [] || !Digits(length) || after == [] || after[0] != ':' then None
      else
        match MatchValue(after[1..])
        case None => None
        case Some(value) =>
          LengthGlue(inner, length, after, value);
          Some((length, value))
  }

  /** `(TYPE)\((\d+)\):(.*)$` over what follows the tag's colon. */
  function MatchType(rest: string): (r: Option<(string, string, string)>)
    ensures r.Some? ==> r.value.0 in LINE_TYPES && r.value.1 != [] && Digits(r.value.1) && !Contains(r.value.2, '\n')
    ensures r.Some? ==> var f := r.value.0 + "(" + r.value.1 + "):" + r.value.2;
                        rest == f || rest == f + "\n"
  {
    match SplitOnce(rest, '(')
    case None => None
    case Some((typeName, inner)) =>
      if typeName !in LINE_TYPES then None
      else
        match MatchLength(inner)
        case None => None
        case Some((length, value)) =>
          TypeGlue(rest, typeName, inner, length, value);
          Some((typeName, length, value))
  }

  /** `re.match(pattern, s).groups()`, or `None` when the pattern does not
      match. `.` stops at a newline and `$` also matches just before a final
      newline, so the value is the rest of the text without that newline. */
  function MatchFields(s: string): (r: Option<Fields>)
    ensures r.Some? ==> r.value.tag != [] && TagChars(r.value.tag)
    ensures r.Some? ==> r.value.typeName in LINE_TYPES
    ensures r.Some? ==> r.value.length != [] && Digits(r.value.length)
    ensures r.Some? ==> !Contains(r.value.value, '\n')
    ensures r.Some? ==> s == Assembled(r.value) || s == Assembled(r.value) + "\n"
  {
    match SplitOnce(s, ':')
    case None => None
    case Some((tag, rest)) =>
      if tag == [] || !TagChars(tag) then None
      else
        match MatchType(rest)
        case None => None
        case Some((typeName, length, value)) =>
          TagGlue(s, tag, rest, Fields(tag, typeName, length, value));
          Some(Fields(tag, typeName, length, value))
  }

  // The three lemmas below put a line back together from the pieces each
  // stage of the match splits it into.

  lemma LengthGlue(inner: string, length: string, after: string, value: string)
    requires inner == length + [')'] + after && after != [] && after[0] == ':'
    requires after[1..] == value || after[1..] == value + "\n"
    ensures inner == length + "):" + value || inner == length + "):" + value + "\n"
  {
    assert after == [':'] + after[1..];
    if after[1..] == value {
      assert inner == length + "):" + value;
    } else {
      assert inner == length + "):" + value + "\n";
    }
  }

  lemma TypeGlue(rest: string, typeName: string, inner: string, length: string, value: string)
    requires rest == typeName + ['('] + inner
    requires inner == length + "):" + value || inner == length + "):" + value + "\n"
    ensures var f := typeName + "(" + length + "):" + value;
            rest == f || rest == f + "\n"
  {
    if inner == length + "):" + value {
      assert rest == typeName + "(" + length + "):" + value;
    } else {
      assert rest == typeName + "(" + length + "):" + value + "\n";
    }
  }

  lemma TagGlue(s: string, tag: string, rest: string, f: Fields)
    requires s == tag + [':'] + rest && f.tag == tag
    requires var g := f.typeName + "(" + f.length + "):" + f.value;
             rest == g || rest == g + "\n"
    ensures s == Assembled(f) || s == Assembled(f) + "\n"
  {
    var g := f.typeName + "(" + f.length + "):" + f.value;
    if rest == g {
      assert s == Assembled(f);
    } else {
      assert s == Assembled(f) + "\n";
    }
  }

  lemma LineTypesPlain(t: string)
    requires t in LINE_TYPES
    ensures !Contains(t, '(') && !Contains(t, ')') && !Contains(t, ':') && !Contains(t, '\n')
  {
  }

  /** Digits never hold a closing parenthesis. */
  lemma DigitsPlain(length: string)
    requires Digits(length)
    ensures !Contains(length, ')')
  {
  }

  /** A tag never holds a colon. */
  lemma TagPlain(tag: string)
    requires TagChars(tag)
    ensures !Contains(tag, ':')
  {
  }

  lemma MatchLengthAssembled(length: string, value: string)
    requires length != [] && Digits(length) && !Contains(value, '\n')
    ensures MatchLength(length + "):" + value) == Some((length, value))
  {
    DigitsPlain(length);
    var after := ":" + value;
    assert length + "):" + value == length + [')'] + after;
    SplitAfterPrefix(length, ')', after);
    assert after[1..] == value;
  }

  lemma MatchTypeAssembled(typeName: string, length: string, value: string)
    requires typeName in LINE_TYPES && length != [] && Digits(length) && !Contains(value, '\n')
    ensures MatchType(typeName + "(" + length + "):" + value) == Some((typeName, length, value))
  {
    LineTypesPlain(typeName);
    var inner := length + "):" + value;
    assert typeName + "(" + length + "):" + value == typeName + ['('] + inner;
    SplitAfterPrefix(typeName, '(', inner);
    MatchLengthAssembled(length, value);
  }

  /** The pattern takes back exactly the groups a line is assembled from:
      a well-formed tag, one of the eight type names, a digit string and a
      value without a newline. */
  lemma MatchAssembled(f: Fields)
    requires f.tag != [] && TagChars(f.tag) && f.typeName in LINE_TYPES
    requires f.length != [] && Digits(f.length) && !Contains(f.value, '\n')
    ensures MatchFields(Assembled(f)) == Some(f)
  {
    TagPlain(f.tag);
    var rest := f.typeName + "(" + f.length + "):" + f.value;
    assert Assembled(f) == f.tag + [':'] + rest;
    SplitAfterPrefix(f.tag, ':', rest);
    MatchTypeAssembled(f.typeName, f.length, f.value);
  }

  /** What both `parse_structured_line` functions read from a line before
      they look at its type: the line's leading whitespace removed (`None`
      when nothing is left), the indentation as the number of characters
      removed, and the groups of the pattern over the rest. */
  function Scan(line: string): (r: Option<(nat, Fields)>)
    ensures r.Some? ==> r.value.0 <= |line| && forall i :: 0 <= i < r.value.0 ==> IsSpace(line[i])
    ensures r.Some? ==> var rest := line[r.value.0..];
                        rest == Assembled(r.value.1) || rest == Assembled(r.value.1) + "\n"
    ensures r.Some? ==> var f := r.value.1;
                        f.tag != [] && TagChars(f.tag) && f.typeName in LINE_TYPES
                        && f.length != [] && Digits(f.length) && !Contains(f.value, '\n')
  {
    var stripped := LStrip(line);
    if stripped == [] then None
    else
      match MatchFields(stripped)
      case None => None
      case Some(f) =>
        LStripSuffix(line);
        Some((|line| - |stripped|, f))
  }

  /** An indented line assembled from well-formed groups scans back to its
      indentation and its groups. */
  lemma ScanIndented(pad: string, f: Fields)
    requires forall i :: 0 <= i < |pad| ==> IsSpace(pad[i])
    requires f.tag != [] && TagChars(f.tag) && f.typeName in LINE_TYPES
    requires f.length != [] && Digits(f.length) && !Contains(f.value, '\n')
    ensures Scan(pad + Assembled(f)) == Some((|pad|, f))
  {
    assert IsTagChar(Assembled(f)[0]);
    LStripPad(pad, Assembled(f));
    MatchAssembled(f);
  }

  // ---------------------------------------------------------------------
  // Values

  /** What `int(value)` raises when the value is not a number. */
  datatype ConvertError = NotAnInteger

  /** A converted scalar value: an `int`, a `str` or a `bool`. */
  datatype Scalar = SInt(i: int) | SStr(s: string) | SBool(b: bool)

  /** `value[12:-2]` when the value looks like `bytearray(b'…')`. */
  function UnwrapText(value: string): (r: string)
    ensures |r| <= |value|
    ensures !(Prefix(value, "bytearray(b'") && Suffix(value, "')")) ==> r == value
  {
    if Prefix(value, "bytearray(b'") && Suffix(value, "')") then Slice(value, 12, |value| - 2) else value
  }

  /** `value[2:-1]` when the value looks like `b'…'`. */
  function UnwrapBytes(value: string): (r: string)
    ensures |r| <= |value|
    ensures !(Prefix(value, "b'") && Suffix(value, "'")) ==> r == value
  {
    if Prefix(value, "b'") && Suffix(value, "'") then Slice(value, 2, |value| - 1) else value
  }

  /** The decoder's `bytearray(b'…')` around printable text without quotes
      or backslashes comes off exactly, leaving the text. */
  lemma UnwrapTextReadBack(b: seq<byte>)
    requires forall i :: 0 <= i < |b| ==> PlainByte(b[i])
    ensures UnwrapText("bytearray(" + ReprBytes(b) + ")") == AsChars(b)
    ensures ConvertScalar("TEXT_STRING", "bytearray(" + ReprBytes(b) + ")") == Ok(SStr(AsChars(b)))
  {
    ReprPlain(b);
    var value := "bytearray(" + ReprBytes(b) + ")";
    assert value == "bytearray(b'" + AsChars(b) + "')";
    assert Prefix(value, "bytearray(b'") && Suffix(value, "')");
    assert Slice(value, 12, |value| - 2) == AsChars(b);
  }

  /** The decoder's `b'…'` around the hexadecimal digits of a byte string
      comes off exactly, leaving the digits. */
  lemma UnwrapBytesReadBack(d: seq<byte>)
    ensures UnwrapBytes("b'" + Hexlify(d) + "'") == Hexlify(d)
    ensures ConvertScalar("BYTE_STRING", "b'" + Hexlify(d) + "'") == Ok(SStr(Hexlify(d)))
  {
    var value := "b'" + Hexlify(d) + "'";
    assert Prefix(value, "b'") && Suffix(value, "'");
    assert Slice(value, 2, |value| - 1) == Hexlify(d);
  }

  /** The value of a line of a scalar type: the text and byte wrappers
      removed, integers converted (a non-number raises), enumerations and
      date-times converted when they are numbers and kept as text otherwise,
      and a boolean that is true exactly for `true`, `1` and `yes` in any
      case. */
  function ConvertScalar(typeName: string, value: string): (r: Result<Scalar, ConvertError>)
    requires typeName in LINE_TYPES && typeName != "STRUCTURE"
  {
    if typeName == "TEXT_STRING" then Ok(SStr(UnwrapText(value)))
    else if typeName == "BYTE_STRING" then Ok(SStr(UnwrapBytes(value)))
    else if typeName == "INTEGER" || typeName == "LONG_INTEGER" then
      (match ParseInt(value) case Some(n) => Ok(SInt(n)) case None => Err(NotAnInteger))
    else if typeName == "ENUMERATION" then
      Ok(match ParseInt(value) case Some(n) => SInt(n) case None => SStr(value))
    else if typeName == "BOOLEAN" then Ok(SBool(TruthText(value)))
    else
      Ok(match ParseInt(value) case Some(n) => SInt(n) case None => SStr(value))
  }

  /** Only an integer that is not a number raises; every scalar type keeps
      the kind of value its branch promises. */
  lemma ConvertScalarCases(typeName: string, value: string)
    requires typeName in LINE_TYPES && typeName != "STRUCTURE"
    ensures ConvertScalar(typeName, value).Err? <==>
              (typeName == "INTEGER" || typeName == "LONG_INTEGER") && ParseInt(value).None?
    ensures typeName == "BOOLEAN" ==>
              ConvertScalar(typeName, value) == Ok(SBool(Lower(value) == "true" || Lower(value) == "1" || Lower(value) == "yes"))
    ensures typeName == "TEXT_STRING" || typeName == "BYTE_STRING" ==>
              ConvertScalar(typeName, value).Ok? && ConvertScalar(typeName, value).value.SStr?
              && |ConvertScalar(typeName, value).value.s| <= |value|
    ensures typeName == "ENUMERATION" || typeName == "DATE_TIME" ==>
              ConvertScalar(typeName, value)
              == Ok(if ParseInt(value).Some? then SInt(ParseInt(value).value) else SStr(value))
    ensures typeName == "INTEGER" || typeName == "LONG_INTEGER" ==>
              ParseInt(value).Some? ==> ConvertScalar(typeName, value) == Ok(SInt(ParseInt(value).value))
  {
  }

  /** Every integer reads back from the decimal text it prints as. */
  lemma IntegerTextReadBack(typeName: string, n: int)
    requires typeName in {"INTEGER", "LONG_INTEGER", "ENUMERATION", "DATE_TIME"}
    ensures ConvertScalar(typeName, Decimal(n)) == Ok(SInt(n))
  {
    DecimalRoundTrip(n);
  }

  /** `str(value)`: the text a converted scalar prints as. */
  function ScalarText(v: Scalar): string {
    match v
    case SInt(i) => Decimal(i)
    case SStr(s) => s
    case SBool(b) => if b then "True" else "False"
  }
}
