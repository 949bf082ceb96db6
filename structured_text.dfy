/** The indented text format of encode_ttlv.py (`TAG:TYPE(length):value`,
    one space of indentation per nesting level): `parse_structured_text`,
    `convert_structured_to_flat` and `encode_from_structured_text`.

    The parser keeps a stack of the structures still open. Each entry of that
    stack is the last child of the entry below it, so the stack is always a
    prefix of the rightmost path down the forest built so far; the model keeps
    only its height (`depth`) and appends at that height (`AppendAt`). */
module StructuredText {
  import opened Wrappers
  import opened Bytes
  import opened Strings
  import opened Registry
  import opened PyValue
  import opened Wire
  import opened Encoder
  import Decoder

  /** What the parser keeps of one line. */
  datatype Item = Item(tag: string, typeName: string, value: PyVal, indent: nat)

  /** An element of the parsed forest with the elements nested under it. */
  datatype Node = Node(item: Item, children: seq<Node>)

  // ---------------------------------------------------------------------
  // One line

  /** `value.lower() in ('true', '1', 'yes')`. */
  predicate TruthText(value: string) {
    Lower(value) in {"true", "1", "yes"}
  }

  /** The value of a line, converted according to its type name; `None` when
      the conversion raises (an invalid `b'…'` byte string), which drops the
      line. */
  function ConvertValue(tag: string, typeName: string, value: string): (r: Option<PyVal>)
    ensures typeName != "BYTE_STRING" ==> r.Some?
    ensures typeName == "INTEGER" ==> r == Some(PyInt(if ParseInt(value).Some? then ParseInt(value).value else 0))
    ensures typeName == "BOOLEAN" ==> r == Some(PyBool(TruthText(value)))
    ensures typeName == "ENUMERATION" && ParseInt(value).Some? ==> r == Some(PyInt(ParseInt(value).value))
    ensures typeName == "ENUMERATION" && ParseInt(value).None? ==>
              r == Some(if tag == "OPERATION" && value in OPERATIONS then PyInt(OPERATIONS[value]) else PyStr(value))
    ensures typeName == "STRUCTURE" ==> r == Some(if Prefix(value, "stru") then PyNone else PyStr(value))
    ensures typeName == "BYTE_STRING" && r.Some? && r.value.PyBytes? ==>
              FromHex(value).Some? || (Prefix(value, "b'") && Suffix(value, "'"))
    ensures typeName == "BYTE_STRING" && r.None? ==>
              Prefix(value, "b'") && Suffix(value, "'") && FromHex(Slice(value, 2, |value| - 1)).None?
    ensures typeName == "TEXT_STRING" ==> r.Some? && r.value.PyStr? && |r.value.s| <= |value|
  {
    if typeName == "INTEGER" then
      Some(PyInt(match ParseInt(value) case Some(n) => n case None => 0))
    else if typeName == "BOOLEAN" then
      Some(PyBool(TruthText(value)))
    else if typeName == "ENUMERATION" then
      match ParseInt(value)
      case Some(n) => Some(PyInt(n))
      case None =>
        if tag == "OPERATION" && value in OPERATIONS then Some(PyInt(OPERATIONS[value])) else Some(PyStr(value))
    else if typeName == "STRUCTURE" then
      Some(if Prefix(value, "stru") then PyNone else PyStr(value))
    else if typeName == "BYTE_STRING" then
      if Prefix(value, "b'") && Suffix(value, "'") then
        match FromHex(Slice(value, 2, |value| - 1))
        case Some(b) => Some(PyBytes(b))
        case None => None
      else if |value| % 2 == 0 && forall i :: 0 <= i < |value| ==> IsHexDigit(value[i]) then
        FromHexIsUnhexlify(value);
        Some(PyBytes(FromHex(value).value))
      else Some(PyStr(value))
    else if typeName == "TEXT_STRING" then
      if Prefix(value, "bytearray(b'") && Suffix(value, "')") then Some(PyStr(Slice(value, 12, |value| - 2)))
      else if Prefix(value, "b'") && Suffix(value, "'") then Some(PyStr(Slice(value, 2, |value| - 1)))
      else Some(PyStr(value))
    else Some(PyStr(value))
  }

  /** The tag, type name and value text of a stripped line: `None` when it
      has no colon, no parenthesis, or no `(` before the first `)`. */
  function LineFields(content: string): (r: Option<(string, string, string)>)
    ensures r.Some? ==> !Contains(r.value.1, '(') && !Contains(r.value.1, ')')
    ensures r.Some? ==> Contains(content, ':') && Contains(content, '(') && Contains(content, ')')
  {
    match SplitOnce(content, ':')
    case None => None
    case Some((tagPart, rest)) =>
      if !Contains(rest, '(') || !Contains(rest, ')') then None
      else
        var (typePart, valuePart) := SplitOnce(rest, ')').value;
        if !Contains(typePart, '(') then None
        else
          var typeName := Strip(SplitOnce(typePart, '(').value.0);
          var value := match SplitOnce(valuePart, ':') case Some((_, v)) => Strip(v) case None => Strip(valuePart);
          assert !Contains(typeName, ')') by { StripKeeps(SplitOnce(typePart, '(').value.0, ')'); }
          assert !Contains(typeName, '(') by { StripKeeps(SplitOnce(typePart, '(').value.0, '('); }
          assert Contains(content, '(') by { ContainsInConcat(tagPart + [':'], rest, '('); }
          assert Contains(content, ')') by { ContainsInConcat(tagPart + [':'], rest, ')'); }
          Some((Strip(tagPart), typeName, value))
  }

  /** One line of the text: `None` for a line the parser skips (blank, no
      colon, no parenthesis, no `(` before the first `)`, or a value that does
      not convert). */
  function ParseLine(line: string): (r: Option<Item>)
    ensures Strip(line) == [] ==> r.None?
    ensures r.Some? ==> r.value.indent == |line| - |LStrip(line)|
    ensures r.Some? ==> !Contains(r.value.typeName, '(') && !Contains(r.value.typeName, ')')
    ensures r.Some? ==> Contains(Strip(line), ':') && Contains(Strip(line), '(') && Contains(Strip(line), ')')
  {
    if Strip(line) == [] then None
    else match LineFields(Strip(line))
      case None => None
      case Some((tag, typeName, value)) =>
        match ConvertValue(tag, typeName, value)
        case None => None
        case Some(v) => Some(Item(tag, typeName, v, |line| - |LStrip(line)|))
  }

  lemma StripKeeps(s: string, c: char)
    requires !Contains(s, c)
    ensures !Contains(Strip(s), c)
  {
    var t := LStrip(s);
    LStripSuffix(s);
    assert forall i :: 0 <= i < |t| ==> t[i] == s[|s| - |t| + i];
    var u := RStrip(t);
    assert forall i :: 0 <= i < |u| ==> u[i] == t[i];
  }

  lemma ContainsInConcat(a: string, b: string, c: char)
    requires Contains(b, c)
    ensures Contains(a + b, c)
  {
    var i :| 0 <= i < |b| && b[i] == c;
    assert (a + b)[|a| + i] == c;
  }

  // ---------------------------------------------------------------------
  // Reading back what the decoder prints

  /** A tag or type name as the decoder prints it: the name of a member of
      `Tags` or `Types`, made of upper-case letters, digits and underscores. */
  predicate PlainName(s: string) {
    s != [] && forall i :: 0 <= i < |s| ==> 'A' <= s[i] <= 'Z' || '0' <= s[i] <= '9' || s[i] == '_'
  }

  /** A line `decode` prints reads back with its depth as the indentation,
      its tag and type name, and its value converted as `ConvertValue` says,
      provided the value has no whitespace at either end. */
  lemma ReadDecoderLine(depth: nat, tag: string, typeName: string, size: nat, value: string)
    requires PlainName(tag) && PlainName(typeName) && Strip(value) == value
    ensures ParseLine(Decoder.Line(depth, Some(tag), typeName, size, value))
            == match ConvertValue(tag, typeName, value)
               case None => None
               case Some(v) => Some(Item(tag, typeName, v, depth))
  {
    var digits := Decimal(size);
    var typePart := typeName + "(" + digits;
    var valuePart := ":" + value;
    var rest := typePart + [')'] + valuePart;
    var line := Decoder.Line(depth, Some(tag), typeName, size, value);
    PrintedLineStrip(depth, tag, typeName, size, value);
    PlainNameStrip(tag);
    PlainNameStrip(typeName);
    assert !Contains([], ':');
    assert valuePart == [] + [':'] + value;
    hide *;
    SplitAfterPrefix(tag, ':', rest);
    PrintedRest(typeName, digits, value);
    SplitAfterPrefix(typePart, ')', valuePart);
    SplitAfterPrefix(typeName, '(', digits);
    SplitAfterPrefix([], ':', value);
    ParseLineParts(line, tag, rest, typePart, valuePart, typeName, digits, value);
  }

  /** A plain name holds no colon and is its own `strip()`. */
  lemma PlainNameStrip(s: string)
    requires PlainName(s)
    ensures Strip(s) == s && !Contains(s, ':')
  {
    NoSpaceStrip(s);
  }

  /** The printed line is its indentation in front of the content, and the
      content has no whitespace at either end. */
  lemma PrintedLineStrip(depth: nat, tag: string, typeName: string, size: nat, value: string)
    requires PlainName(tag) && Strip(value) == value
    ensures var content := tag + [':'] + (typeName + "(" + Decimal(size) + [')'] + (":" + value));
            var line := Decoder.Line(depth, Some(tag), typeName, size, value);
            LStrip(line) == content && Strip(line) == content && |line| - |LStrip(line)| == depth
  {
    var content := tag + [':'] + (typeName + "(" + Decimal(size) + [')'] + (":" + value));
    var pad := Decoder.Spaces(depth);
    var line := Decoder.Line(depth, Some(tag), typeName, size, value);
    assert line == pad + content;
    assert content[0] == tag[0];
    assert !IsSpace(content[|content| - 1]) by {
      assert value == [] || !IsSpace(value[|value| - 1]);
      assert content[|content| - 1] == if value == [] then ':' else value[|value| - 1];
    }
    LStripPad(pad, content);
    EdgesStrip(content);
    assert LStrip(content) == content;
    assert Strip(line) == RStrip(LStrip(line)) && Strip(content) == RStrip(LStrip(content));
    hide *;
  }

  /** What follows the tag's colon holds both parentheses, and the first
      closing one comes right after the length. */
  lemma PrintedRest(typeName: string, digits: string, value: string)
    requires PlainName(typeName) && forall i :: 0 <= i < |digits| ==> IsDigit(digits[i]) || (i == 0 && digits[i] == '-')
    ensures var typePart := typeName + "(" + digits;
            var rest := typePart + [')'] + (":" + value);
            Contains(rest, '(') && Contains(rest, ')') && !Contains(typePart, ')') && Contains(typePart, '(')
            && typePart == typeName + ['('] + digits && !Contains(typeName, '(')
  {
    var typePart := typeName + "(" + digits;
    var rest := typePart + [')'] + (":" + value);
    assert rest[|typeName|] == '(' && rest[|typePart|] == ')';
    assert typePart[|typeName|] == '(';
  }

  /** `parse_structured_text` on a line whose pieces are known. */
  lemma ParseLineParts(line: string, tag: string, rest: string, typePart: string, valuePart: string,
                       typeName: string, digits: string, value: string)
    requires Strip(line) != [] && SplitOnce(Strip(line), ':') == Some((tag, rest))
    requires Contains(rest, '(') && Contains(rest, ')') && SplitOnce(rest, ')') == Some((typePart, valuePart))
    requires Contains(typePart, '(') && SplitOnce(typePart, '(') == Some((typeName, digits))
    requires SplitOnce(valuePart, ':') == Some(([], value))
    requires Strip(tag) == tag && Strip(typeName) == typeName && Strip(value) == value
    ensures ParseLine(line)
            == match ConvertValue(tag, typeName, value)
               case None => None
               case Some(v) => Some(Item(tag, typeName, v, |line| - |LStrip(line)|))
  {
    hide ConvertValue, Strip, LStrip, SplitOnce, Contains;
  }

  /** The decoder's `bytearray(b'…')` of printable text without quotes or
      backslashes is the wrapper the parser strips: the text comes back. */
  lemma ConvertTextReadBack(tag: string, b: seq<byte>)
    requires forall i :: 0 <= i < |b| ==> PlainByte(b[i])
    ensures ConvertValue(tag, "TEXT_STRING", "bytearray(" + ReprBytes(b) + ")") == Some(PyStr(AsChars(b)))
  {
    ReprPlain(b);
    var value := "bytearray(" + ReprBytes(b) + ")";
    assert value == "bytearray(b'" + AsChars(b) + "')";
    assert Prefix(value, "bytearray(b'") && Suffix(value, "')");
    assert Slice(value, 12, |value| - 2) == AsChars(b);
  }

  /** The decoder's `b'…'` around hexadecimal digits is the wrapper the
      parser strips, and `bytes.fromhex` gives back the bytes. */
  lemma ConvertBytesReadBack(tag: string, d: seq<byte>)
    ensures ConvertValue(tag, "BYTE_STRING", "b'" + Hexlify(d) + "'") == Some(PyBytes(d))
  {
    var value := "b'" + Hexlify(d) + "'";
    assert Prefix(value, "b'") && Suffix(value, "'");
    assert Slice(value, 2, |value| - 1) == Hexlify(d);
    FromHexHexlify(d);
  }

  /** The decimal text the decoder prints for an integer or an enumeration
      reads back as the number, and `True`/`False` as the boolean. */
  lemma ConvertNumberReadBack(tag: string, n: int)
    ensures ConvertValue(tag, "INTEGER", Decimal(n)) == Some(PyInt(n))
    ensures ConvertValue(tag, "ENUMERATION", Decimal(n)) == Some(PyInt(n))
    ensures ConvertValue(tag, "BOOLEAN", "True") == Some(PyBool(true))
    ensures ConvertValue(tag, "BOOLEAN", "False") == Some(PyBool(false))
  {
    DecimalRoundTrip(n);
    assert Lower("True") == "true";
    assert Lower("False") == "false";
  }

  /** A text element's line, as the decoder prints it, reads back to the
      element the parser builds from the same text. */
  lemma ReadTextLine(depth: nat, tag: string, b: seq<byte>)
    requires PlainName(tag) && forall i :: 0 <= i < |b| ==> PlainByte(b[i])
    ensures ParseLine(Decoder.Line(depth, Some(tag), "TEXT_STRING", |b|, "bytearray(" + ReprBytes(b) + ")"))
            == Some(Item(tag, "TEXT_STRING", PyStr(AsChars(b)), depth))
  {
    var value := "bytearray(" + ReprBytes(b) + ")";
    EdgesStrip(value);
    hide *;
    TypeNamesPlain();
    ReadDecoderLine(depth, tag, "TEXT_STRING", |b|, value);
    ConvertTextReadBack(tag, b);
  }

  /** A byte string element's line reads back to its bytes. */
  lemma ReadBytesLine(depth: nat, tag: string, d: seq<byte>)
    requires PlainName(tag)
    ensures ParseLine(Decoder.Line(depth, Some(tag), "BYTE_STRING", |d|, "b'" + Hexlify(d) + "'"))
            == Some(Item(tag, "BYTE_STRING", PyBytes(d), depth))
  {
    var value := "b'" + Hexlify(d) + "'";
    QuotedStrip(Hexlify(d));
    hide *;
    TypeNamesPlain();
    ReadDecoderLine(depth, tag, "BYTE_STRING", |d|, value);
    ConvertBytesReadBack(tag, d);
  }

  lemma QuotedStrip(h: string)
    ensures Strip("b'" + h + "'") == "b'" + h + "'"
  {
    EdgesStrip("b'" + h + "'");
  }

  lemma TypeNamesPlain()
    ensures PlainName("TEXT_STRING") && PlainName("BYTE_STRING")
  {
  }

  /** A text that neither starts nor ends with whitespace is its own `strip()`. */
  lemma EdgesStrip(s: string)
    requires s != [] && !IsSpace(s[0]) && !IsSpace(s[|s| - 1])
    ensures Strip(s) == s
  {
    assert LStrip(s) == s;
  }

  /** The lines of the text: `text_content.strip().split('\n')`. */
  function Lines(text: string): seq<string> {
    Split(Strip(text), '\n')
  }

  /** The items of the lines the parser keeps, in order. */
  function Items(lines: seq<string>): (r: seq<Item>)
    ensures |r| <= |lines|
  {
    if lines == [] then []
    else Items(lines[..|lines| - 1]) + match ParseLine(lines[|lines| - 1]) case Some(it) => [it] case None => []
  }

  // ---------------------------------------------------------------------
  // The forest

  /** How many structures can still take children: the length of the
      rightmost path down the forest that runs through structures only. */
  function Open(forest: seq<Node>): nat {
    if forest == [] then 0
    else
      var last := forest[|forest| - 1];
      if last.item.typeName == "STRUCTURE" then 1 + Open(last.children) else 0
  }

  /** `forest` with `n` added as the last child of the structure `depth`
      levels down its rightmost path (at the top level when `depth` is 0). */
  function AppendAt(forest: seq<Node>, depth: nat, n: Node): (r: seq<Node>)
    requires depth <= Open(forest)
    ensures |r| == if depth == 0 then |forest| + 1 else |forest|
    ensures Open(r) == depth + Open([n])
  {
    if depth == 0 then forest + [n]
    else
      var last := forest[|forest| - 1];
      forest[..|forest| - 1] + [Node(last.item, AppendAt(last.children, depth - 1, n))]
  }

  /** One kept line added to the forest: the stack of open structures is
      popped down to the line's indentation, the element is added under the
      structure then on top (or at the top level), and it is pushed when it
      is a structure. Returns the forest and the new height of the stack. */
  function Placed(forest: seq<Node>, height: nat, it: Item): (r: (seq<Node>, nat))
    requires height <= Open(forest)
    ensures r.1 == Open(r.0)
    ensures r.1 <= height + 1 && r.1 <= it.indent + 1
  {
    var d := if height > it.indent then it.indent else height;
    assert Open([Node(it, [])]) == if it.typeName == "STRUCTURE" then 1 else 0;
    (AppendAt(forest, d, Node(it, [])), if it.typeName == "STRUCTURE" then d + 1 else d)
  }

  /** The forest the parser has built after `items`, and the height of its stack. */
  function Build(items: seq<Item>): (r: (seq<Node>, nat))
    ensures r.1 == Open(r.0)
  {
    if items == [] then ([], 0)
    else
      var s := Build(items[..|items| - 1]);
      Placed(s.0, s.1, items[|items| - 1])
  }

  lemma ItemsStep(lines: seq<string>, k: nat)
    requires k < |lines|
    ensures ParseLine(lines[k]).None? ==> Items(lines[..k + 1]) == Items(lines[..k])
    ensures ParseLine(lines[k]).Some? ==> Items(lines[..k + 1]) == Items(lines[..k]) + [ParseLine(lines[k]).value]
  {
    assert lines[..k + 1][..k] == lines[..k];
    assert lines[..k + 1][k] == lines[k];
  }

  lemma BuildStep(items: seq<Item>, it: Item)
    ensures Build(items + [it]) == Placed(Build(items).0, Build(items).1, it)
  {
    assert (items + [it])[..|items|] == items;
  }

  /** `parse_structured_text(text)`. */
  function ParsedForest(text: string): seq<Node> {
    Build(Items(Lines(text))).0
  }

  // ---------------------------------------------------------------------
  // Properties of the forest

  /** All items of a forest in document order (each node before its children). */
  function Preorder(forest: seq<Node>): seq<Item> {
    if forest == [] then []
    else Preorder(forest[..|forest| - 1]) + NodePreorder(forest[|forest| - 1])
  }

  function NodePreorder(n: Node): seq<Item> {
    [n.item] + Preorder(n.children)
  }

  /** Only structures have children, and an item nested `level` deep has at
      least `level` columns of indentation. */
  predicate WellNested(forest: seq<Node>, level: nat) {
    forall n | n in forest ::
      && n.item.indent >= level
      && (n.children != [] ==> n.item.typeName == "STRUCTURE")
      && WellNested(n.children, level + 1)
  }

  lemma PreorderEmpty()
    ensures Preorder([]) == []
  {
  }

  lemma PreorderAppend(forest: seq<Node>, n: Node)
    ensures Preorder(forest + [n]) == Preorder(forest) + NodePreorder(n)
  {
    assert (forest + [n])[..|forest|] == forest;
  }

  /** Adding a node along the rightmost path puts it last in document order. */
  lemma {:induction false} AppendAtPreorder(forest: seq<Node>, depth: nat, it: Item)
    requires depth <= Open(forest)
    ensures Preorder(AppendAt(forest, depth, Node(it, []))) == Preorder(forest) + [it]
  {
    var n := Node(it, []);
    if depth == 0 {
      PreorderAppend(forest, n);
    } else {
      var init := forest[..|forest| - 1];
      var last := forest[|forest| - 1];
      AppendAtPreorder(last.children, depth - 1, it);
      var last' := Node(last.item, AppendAt(last.children, depth - 1, n));
      PreorderAppend(init, last');
      assert forest == init + [last];
      PreorderAppend(init, last);
    }
  }

  lemma {:induction false} AppendAtWellNested(forest: seq<Node>, depth: nat, it: Item, level: nat)
    requires depth <= Open(forest) && WellNested(forest, level) && it.indent >= level + depth
    ensures WellNested(AppendAt(forest, depth, Node(it, [])), level)
  {
    if depth > 0 {
      var init := forest[..|forest| - 1];
      var last := forest[|forest| - 1];
      AppendAtWellNested(last.children, depth - 1, it, level + 1);
      var r := AppendAt(forest, depth, Node(it, []));
      assert forall m | m in r :: m in init || m == Node(last.item, AppendAt(last.children, depth - 1, Node(it, [])));
    }
  }

  /** No line the parser keeps is lost, duplicated or reordered: the forest
      read in document order is the list of kept lines. */
  lemma {:induction false} BuildPreorder(items: seq<Item>)
    ensures Preorder(Build(items).0) == items
  {
    if items != [] {
      var init := items[..|items| - 1];
      BuildPreorder(init);
      var forest := Build(init).0;
      var depth := Build(init).1;
      var it := items[|items| - 1];
      var d := if depth > it.indent then it.indent else depth;
      assert Build(items) == Placed(forest, depth, it);
      assert Build(items).0 == AppendAt(forest, d, Node(it, []));
      AppendAtPreorder(forest, d, it);
      assert items == init + [it];
    }
  }

  /** Only structures receive children, and an element nested `d` levels
      deep is indented by at least `d` columns. */
  lemma {:induction false} BuildWellNested(items: seq<Item>)
    ensures WellNested(Build(items).0, 0)
  {
    if items != [] {
      var init := items[..|items| - 1];
      BuildWellNested(init);
      var forest := Build(init).0;
      var depth := Build(init).1;
      var it := items[|items| - 1];
      var d := if depth > it.indent then it.indent else depth;
      assert Build(items) == Placed(forest, depth, it);
      assert Build(items).0 == AppendAt(forest, d, Node(it, []));
      AppendAtWellNested(forest, d, it, 0);
    }
  }

  /** The stack is popped down to the line's indentation and never below
      its own height, so a line indented less than the structure above it
      still becomes that structure's child when the stack is shallow. */
  lemma ShallowerLineNested()
    ensures var s := Item("REQUEST_MESSAGE", "STRUCTURE", PyNone, 5);
            var x := Item("BATCH_COUNT", "INTEGER", PyInt(1), 1);
            Build([s, x]) == ([Node(s, [Node(x, [])])], 1)
  {
    var s := Item("REQUEST_MESSAGE", "STRUCTURE", PyNone, 5);
    var x := Item("BATCH_COUNT", "INTEGER", PyInt(1), 1);
    BuildStep([], s);
    assert [] + [s] == [s] && [s] + [x] == [s, x];
    BuildStep([s], x);
    assert Build([s]) == ([Node(s, [])], 1);
    assert AppendAt([], 0, Node(x, [])) == [Node(x, [])];
    assert [Node(s, [])][..0] == [];
    assert AppendAt([Node(s, [])], 1, Node(x, [])) == [Node(s, [Node(x, [])])];
  }

  /** A line without indentation is always an element of the top level. */
  lemma BuildUnindented(items: seq<Item>)
    requires items != [] && items[|items| - 1].indent == 0
    ensures var f := Build(items).0; f != [] && f[|f| - 1] == Node(items[|items| - 1], [])
  {
  }

  /** The parsed forest of a text holds exactly its well-formed lines, in order. */
  lemma ParsedForestProperties(text: string)
    ensures Preorder(ParsedForest(text)) == Items(Lines(text))
    ensures WellNested(ParsedForest(text), 0)
  {
    BuildPreorder(Items(Lines(text)));
    BuildWellNested(Items(Lines(text)));
  }

  // ---------------------------------------------------------------------
  // How the parser nests lines

  /** The forest a decoder prints: every element at nesting depth `level`
      is indented by exactly `level` columns, and only structures have
      children. */
  predicate Canonical(forest: seq<Node>, level: nat) {
    forall n | n in forest ::
      && n.item.indent == level
      && (n.children != [] ==> n.item.typeName == "STRUCTURE")
      && Canonical(n.children, level + 1)
  }

  /** The parser's state after further `items`, starting from the forest
      `s.0` with a stack of height `s.1`. */
  function Extend(s: (seq<Node>, nat), items: seq<Item>): (r: (seq<Node>, nat))
    requires s.1 <= Open(s.0)
    ensures r.1 <= Open(r.0)
  {
    if items == [] then s
    else
      var p := Extend(s, items[..|items| - 1]);
      Placed(p.0, p.1, items[|items| - 1])
  }

  /** `forest` with the nodes of `ns` added one after another as the last
      children of the structure `depth` levels down its rightmost path. */
  function AppendAll(forest: seq<Node>, depth: nat, ns: seq<Node>): (r: seq<Node>)
    requires depth <= Open(forest)
    ensures depth <= Open(r)
  {
    if ns == [] then forest
    else
      var p := AppendAll(forest, depth, ns[..|ns| - 1]);
      AppendAt(p, depth, ns[|ns| - 1])
  }

  lemma {:induction false} BuildIsExtend(items: seq<Item>)
    ensures Build(items) == Extend(([], 0), items)
  {
    if items != [] {
      BuildIsExtend(items[..|items| - 1]);
    }
  }

  lemma {:induction false} ExtendAppend(s: (seq<Node>, nat), a: seq<Item>, b: seq<Item>)
    requires s.1 <= Open(s.0)
    ensures Extend(s, a + b) == Extend(Extend(s, a), b)
  {
    if b == [] {
      assert a + b == a;
    } else {
      var init := b[..|b| - 1];
      assert (a + b)[..|a + b| - 1] == a + init;
      assert (a + b)[|a + b| - 1] == b[|b| - 1];
      ExtendAppend(s, a, init);
    }
  }

  /** A child added below the last node at `depth` joins that node's children. */
  lemma {:induction false} AppendAtChild(forest: seq<Node>, depth: nat, it: Item, cs: seq<Node>, m: Node)
    requires depth <= Open(forest) && it.typeName == "STRUCTURE"
    ensures AppendAt(AppendAt(forest, depth, Node(it, cs)), depth + 1, m) == AppendAt(forest, depth, Node(it, cs + [m]))
  {
    if depth == 0 {
      var f := forest + [Node(it, cs)];
      assert f[..|f| - 1] == forest && f[|f| - 1] == Node(it, cs);
    } else {
      var last := forest[|forest| - 1];
      AppendAtChild(last.children, depth - 1, it, cs, m);
      var f := AppendAt(forest, depth, Node(it, cs));
      assert f[..|f| - 1] == forest[..|forest| - 1];
      assert f[|f| - 1] == Node(last.item, AppendAt(last.children, depth - 1, Node(it, cs)));
    }
  }

  /** Children added one by one below the last node at `depth` are its children. */
  lemma {:induction false} AppendAllChildren(forest: seq<Node>, depth: nat, it: Item, cs: seq<Node>)
    requires depth <= Open(forest) && it.typeName == "STRUCTURE"
    ensures AppendAll(AppendAt(forest, depth, Node(it, [])), depth + 1, cs) == AppendAt(forest, depth, Node(it, cs))
  {
    if cs != [] {
      var init, last := cs[..|cs| - 1], cs[|cs| - 1];
      var start := AppendAt(forest, depth, Node(it, []));
      assert AppendAll(start, depth + 1, cs) == AppendAt(AppendAll(start, depth + 1, init), depth + 1, last);
      assert init + [last] == cs;
      hide *;
      AppendAllChildren(forest, depth, it, init);
      AppendAtChild(forest, depth, it, init, last);
    }
  }

  lemma {:induction false} AppendAllTop(forest: seq<Node>, ns: seq<Node>)
    ensures AppendAll(forest, 0, ns) == forest + ns
  {
    if ns != [] {
      AppendAllTop(forest, ns[..|ns| - 1]);
      assert forest + ns[..|ns| - 1] + [ns[|ns| - 1]] == forest + ns;
    }
  }

  lemma NodePreorderOf(n: Node)
    ensures NodePreorder(n) == [n.item] + Preorder(n.children)
    ensures n.children == [] ==> NodePreorder(n) == [n.item]
  {
  }

  lemma ExtendOne(s: (seq<Node>, nat), it: Item)
    requires s.1 <= Open(s.0)
    ensures Extend(s, [it]) == Placed(s.0, s.1, it)
  {
    assert [it][..0] == [];
  }

  /** A line indented no deeper than the stack is high is added at the
      depth of its indentation, and the stack then ends at that depth, or
      one below when the line is a structure. */
  lemma PlacedAtIndent(forest: seq<Node>, height: nat, it: Item)
    requires it.indent <= height <= Open(forest)
    ensures Placed(forest, height, it)
            == (AppendAt(forest, it.indent, Node(it, [])), if it.typeName == "STRUCTURE" then it.indent + 1 else it.indent)
  {
  }

  /** Reading the lines of a canonical node, with at least `level` open
      structures on the stack, adds exactly that node at depth `level` and
      leaves the stack at least `level` high. */
  lemma {:induction false} NodeExtend(forest: seq<Node>, height: nat, level: nat, n: Node)
    requires level <= height <= Open(forest)
    requires n.item.indent == level && (n.children != [] ==> n.item.typeName == "STRUCTURE")
    requires Canonical(n.children, level + 1)
    ensures var r := Extend((forest, height), NodePreorder(n));
            r.0 == AppendAt(forest, level, n) && level <= r.1
    decreases n
  {
    var it := n.item;
    var s := (forest, height);
    hide *;
    NodePreorderOf(n);
    ExtendOne(s, it);
    PlacedAtIndent(forest, height, it);
    var first := Placed(forest, height, it);
    ExtendAppend(s, [it], Preorder(n.children));
    if n.children != [] {
      ForestExtend(first.0, first.1, level + 1, n.children);
      AppendAllChildren(forest, level, it, n.children);
    }
  }

  /** Reading the lines of a canonical forest at nesting depth `level`
      adds its nodes one after another at that depth. */
  lemma {:induction false} ForestExtend(forest: seq<Node>, height: nat, level: nat, f: seq<Node>)
    requires level <= height <= Open(forest)
    requires Canonical(f, level)
    ensures var r := Extend((forest, height), Preorder(f));
            r.0 == AppendAll(forest, level, f) && level <= r.1
    decreases f
  {
    if f != [] {
      var init := f[..|f| - 1];
      var last := f[|f| - 1];
      assert last in f;
      assert forall m | m in init :: m in f;
      ForestExtend(forest, height, level, init);
      ExtendAppend((forest, height), Preorder(init), NodePreorder(last));
      var s := Extend((forest, height), Preorder(init));
      NodeExtend(s.0, s.1, level, last);
    }
  }

  /** The parser rebuilds every canonical forest from its lines in document
      order: each line becomes the last child of the structure one column
      less indented above it, or a top-level element at indentation 0. */
  lemma BuildOfPreorder(f: seq<Node>)
    requires Canonical(f, 0)
    ensures Build(Preorder(f)).0 == f
  {
    BuildIsExtend(Preorder(f));
    ForestExtend([], 0, 0, f);
    AppendAllTop([], f);
  }

  /** Lines that each parse to the next item give exactly those items. */
  lemma {:induction false} ItemsOfParsed(lines: seq<string>, items: seq<Item>)
    requires |lines| == |items|
    requires forall k | 0 <= k < |lines| :: ParseLine(lines[k]) == Some(items[k])
    ensures Items(lines) == items
  {
    hide *;
    if lines != [] {
      var n := |lines| - 1;
      assert forall k | 0 <= k < n :: lines[..n][k] == lines[k] && items[..n][k] == items[k];
      ItemsOfParsed(lines[..n], items[..n]);
      ItemsStep(lines, n);
      assert lines[..n + 1] == lines;
      assert items == items[..n] + [items[n]];
    }
  }

  /** The lines the decoder prints for the items `p`, with the sizes and
      value texts it read. */
  function PrintedLines(p: seq<Item>, sizes: seq<nat>, values: seq<string>): (r: seq<string>)
    requires |sizes| == |p| && |values| == |p|
    ensures |r| == |p|
    ensures forall k | 0 <= k < |p| :: r[k] == Decoder.Line(p[k].indent, Some(p[k].tag), p[k].typeName, sizes[k], values[k])
  {
    seq(|p|, k requires 0 <= k < |p| => Decoder.Line(p[k].indent, Some(p[k].tag), p[k].typeName, sizes[k], values[k]))
  }

  /** The re-parse leg for a whole tree: when the decoder prints the
      elements of a canonical forest in document order, one line each, and
      every value text reads back as the element's value, the parser
      rebuilds that forest. */
  lemma ReadDecoderTree(f: seq<Node>, sizes: seq<nat>, values: seq<string>)
    requires Canonical(f, 0)
    requires |sizes| == |Preorder(f)| && |values| == |Preorder(f)|
    requires forall k | 0 <= k < |values| ::
               && PlainName(Preorder(f)[k].tag) && PlainName(Preorder(f)[k].typeName)
               && Strip(values[k]) == values[k]
               && ConvertValue(Preorder(f)[k].tag, Preorder(f)[k].typeName, values[k]) == Some(Preorder(f)[k].value)
    ensures Build(Items(PrintedLines(Preorder(f), sizes, values))).0 == f
  {
    var p := Preorder(f);
    var lines := PrintedLines(p, sizes, values);
    forall k | 0 <= k < |lines|
      ensures ParseLine(lines[k]) == Some(p[k])
    {
      ReadDecoderLine(p[k].indent, p[k].tag, p[k].typeName, sizes[k], values[k]);
    }
    ItemsOfParsed(lines, p);
    BuildOfPreorder(f);
  }

  /** A canonical forest followed by one more canonical node at its level. */
  lemma CanonicalSnoc(f: seq<Node>, n: Node, level: nat)
    requires Canonical(f, level) && Canonical(n.children, level + 1)
    requires n.item.indent == level && (n.children != [] ==> n.item.typeName == "STRUCTURE")
    ensures Canonical(f + [n], level)
  {
    assert forall m | m in f + [n] :: m in f || m == n;
  }

  lemma CanonicalEmpty(level: nat)
    ensures Canonical([], level)
  {
  }

  /** A nested instance: a structure holding an element and a structure,
      followed by a top-level element, is rebuilt with that nesting. */
  lemma NestedInstance(s0: Item, x1: Item, s1: Item, y2: Item, z0: Item)
    requires s0.indent == 0 && x1.indent == 1 && s1.indent == 1 && y2.indent == 2 && z0.indent == 0
    requires s0.typeName == "STRUCTURE" && s1.typeName == "STRUCTURE"
    ensures Build([s0, x1, s1, y2, z0]).0
              == [Node(s0, [Node(x1, []), Node(s1, [Node(y2, [])])]), Node(z0, [])]
  {
    hide *;
    var leafX, leafY, leafZ := Node(x1, []), Node(y2, []), Node(z0, []);
    var inner := [leafY];
    var kids := [leafX, Node(s1, inner)];
    var f := [Node(s0, kids), leafZ];
    assert [] + [leafY] == inner && [] + [leafX] == [leafX] && [leafX] + [Node(s1, inner)] == kids;
    assert [] + [Node(s0, kids)] == [Node(s0, kids)] && [Node(s0, kids)] + [leafZ] == f;
    CanonicalEmpty(3);
    CanonicalEmpty(2);
    CanonicalEmpty(1);
    CanonicalSnoc([], leafY, 2);
    CanonicalSnoc([], leafX, 1);
    CanonicalSnoc([leafX], Node(s1, inner), 1);
    CanonicalSnoc([], Node(s0, kids), 0);
    CanonicalSnoc([Node(s0, kids)], leafZ, 0);
    NodePreorderOf(leafX);
    NodePreorderOf(leafY);
    NodePreorderOf(leafZ);
    NodePreorderOf(Node(s1, inner));
    NodePreorderOf(Node(s0, kids));
    PreorderEmpty();
    PreorderAppend([], leafY);
    PreorderAppend([], leafX);
    PreorderAppend([leafX], Node(s1, inner));
    PreorderAppend([], Node(s0, kids));
    PreorderAppend([Node(s0, kids)], leafZ);
    assert Preorder(f) == [s0, x1, s1, y2, z0];
    BuildOfPreorder(f);
  }

  // ---------------------------------------------------------------------
  // The parser as the source writes it

  /** `parse_structured_text`: one pass over the lines with a stack of open
      structures, of which the model keeps the height. */
  method ParseStructuredText(text: string) returns (elements: seq<Node>)
    ensures elements == ParsedForest(text)
  {
    var lines := Lines(text);
    elements := [];
    var depth := 0;
    for k := 0 to |lines|
      invariant (elements, depth) == Build(Items(lines[..k]))
    {
      ItemsStep(lines, k);
      var parsed := ParseLine(lines[k]);
      if parsed.Some? {
        BuildStep(Items(lines[..k]), parsed.value);
        elements, depth := Place(elements, depth, parsed.value);
      }
    }
    assert lines[..|lines|] == lines;
  }

  /** The body of the parser's loop for a line it keeps. */
  method Place(forest: seq<Node>, height: nat, it: Item) returns (forest': seq<Node>, height': nat)
    requires height <= Open(forest)
    ensures (forest', height') == Placed(forest, height, it)
  {
    height' := height;
    while height' > it.indent
      invariant height' == height || it.indent <= height' < height
      decreases height'
    {
      height' := height' - 1;
    }
    forest' := AppendAt(forest, height', Node(it, []));
    if it.typeName == "STRUCTURE" {
      height' := height' + 1;
    }
  }

  // ---------------------------------------------------------------------
  // convert_structured_to_flat

  /** One element as the dictionary the encoder takes: a structure's value
      is the list of its converted children, any other value is kept. */
  function Flat(n: Node): (r: PyVal)
    ensures IsElement(r)
    ensures Get(r.entries, "tag") == PyStr(n.item.tag)
    ensures Get(r.entries, "type") == PyStr(n.item.typeName)
  {
    if n.item.typeName == "STRUCTURE" then
      Element(PyStr(n.item.tag), PyStr("STRUCTURE"), PyList(FlatAll(n.children)))
    else
      Element(PyStr(n.item.tag), PyStr(n.item.typeName), n.item.value)
  }

  /** `convert_structured_to_flat(elements)`. */
  function FlatAll(forest: seq<Node>): (r: seq<PyVal>)
    ensures |r| == |forest|
    ensures forall k :: 0 <= k < |r| ==> r[k] == Flat(forest[k])
  {
    seq(|forest|, k requires 0 <= k < |forest| => Flat(forest[k]))
  }

  /** What the encoder reads of an item: tag, type name and, except for a
      structure, the value. */
  function Signature(it: Item): (string, string, PyVal) {
    (it.tag, it.typeName, if it.typeName == "STRUCTURE" then PyNone else it.value)
  }

  function Signatures(items: seq<Item>): (r: seq<(string, string, PyVal)>)
    ensures |r| == |items|
  {
    if items == [] then [] else Signatures(items[..|items| - 1]) + [Signature(items[|items| - 1])]
  }

  /** The same, read back from element dictionaries in document order. */
  function FlatSignatures(vs: seq<PyVal>): seq<(string, string, PyVal)> {
    if vs == [] then [] else FlatSignatures(vs[..|vs| - 1]) + FlatSignature(vs[|vs| - 1])
  }

  function FlatSignature(v: PyVal): seq<(string, string, PyVal)> {
    if IsElement(v) && Get(v.entries, "tag").PyStr? && Get(v.entries, "type").PyStr? then
      var typeName := Get(v.entries, "type").s;
      var value := Get(v.entries, "value");
      if typeName == "STRUCTURE" then
        [(Get(v.entries, "tag").s, typeName, PyNone)] + (if value.PyList? then FlatSignatures(value.items) else [])
      else [(Get(v.entries, "tag").s, typeName, value)]
    else []
  }

  lemma SignaturesAppend(a: seq<Item>, b: seq<Item>)
    ensures Signatures(a + b) == Signatures(a) + Signatures(b)
    decreases |b|
  {
    if b != [] {
      var b' := b[..|b| - 1];
      assert (a + b)[..|a + b| - 1] == a + b';
      assert (a + b)[|a + b| - 1] == b[|b| - 1];
      SignaturesAppend(a, b');
      assert Signatures(b) == Signatures(b') + [Signature(b[|b| - 1])];
      assert Signatures(a + b) == Signatures(a + b') + [Signature(b[|b| - 1])];
    } else {
      assert a + b == a;
    }
  }

  lemma FlatAllSnoc(init: seq<Node>, last: Node)
    ensures FlatAll(init + [last]) == FlatAll(init) + [Flat(last)]
  {
  }

  lemma FlatSignaturesAppend(a: seq<PyVal>, v: PyVal)
    ensures FlatSignatures(a + [v]) == FlatSignatures(a) + FlatSignature(v)
  {
    assert (a + [v])[..|a|] == a;
  }

  /** Flattening loses nothing the encoder reads: every tag, type name and
      non-structure value survives, in document order. */
  lemma {:induction false} FlatKeepsSignatures(forest: seq<Node>, level: nat)
    requires WellNested(forest, level)
    ensures FlatSignatures(FlatAll(forest)) == Signatures(Preorder(forest))
    decreases forest, 0
  {
    if forest != [] {
      var init := forest[..|forest| - 1];
      var last := forest[|forest| - 1];
      assert forest == init + [last];
      assert forall n | n in init :: n in forest;
      FlatKeepsSignatures(init, level);
      assert last in forest;
      FlatKeepsSignature(last, level);
      FlatSignaturesAppend(FlatAll(init), Flat(last));
      FlatAllSnoc(init, last);
      SignaturesAppend(Preorder(init), NodePreorder(last));
    }
  }

  lemma {:induction false} FlatKeepsSignature(n: Node, level: nat)
    requires WellNested([n], level)
    ensures FlatSignature(Flat(n)) == Signatures(NodePreorder(n))
    decreases n, 1
  {
    assert n in [n];
    SignaturesAppend([n.item], Preorder(n.children));
    assert Signatures([n.item]) == [Signature(n.item)];
    if n.item.typeName == "STRUCTURE" {
      FlatKeepsSignatures(n.children, level + 1);
    }
  }

  /** What the encoder is given for a text holds every tag, type name and
      scalar value of the text's well-formed lines, in order. */
  lemma FlatOfParsedText(text: string)
    ensures FlatSignatures(FlatAll(ParsedForest(text))) == Signatures(Items(Lines(text)))
  {
    ParsedForestProperties(text);
    FlatKeepsSignatures(ParsedForest(text), 0);
  }

  /** The flat list is always made of complete element dictionaries, so
      encoding it never fails for want of a dictionary or a key. */
  lemma FlatNeverMalformed(env: Env, forest: seq<Node>)
    ensures ResolveAll(env, FlatAll(forest)).Err? ==> !Malformed(ResolveAll(env, FlatAll(forest)).error)
  {
    ElementsNeverMalformed(env, FlatAll(forest));
  }

  // ---------------------------------------------------------------------
  // encode_from_structured_text

  /** `encode_from_structured_text(text)`: parse, flatten, encode. */
  method EncodeFromStructuredText(env: Env, text: string) returns (r: Result<EncodeTtlv, EncodeError>)
    ensures var spec := ResolveAll(env, FlatAll(ParsedForest(text)));
            && (spec.Ok? ==> r.Ok? && fresh(r.value) && r.value.buffer == Frames(spec.value.0)
                             && r.value.attributeName == spec.value.1)
            && (spec.Err? ==> r == Err(spec.error))
  {
    var structured := ParseStructuredText(text);
    var flat := FlatAll(structured);
    r := EncodeTtlvStructure(env, flat);
  }
}
