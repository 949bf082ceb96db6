/** The JSON converter (convert_to_json.py; helpers/convert_structured_to_json.py
    is the same file): the lines of the indented text are parsed one by one
    and then rebuilt into nested elements `{"tag", "type", "value"}`, where
    a structure's value is the list of its children.

    `BuildJsonStructure` keeps the source's index loops and is proved to
    compute `Forest`, a recursive description of the same grouping; the
    module `JsonNesting` proves that `Forest` rebuilds a document from its
    lines. */
module JsonConvert {
  import opened Wrappers
  import opened Strings
  import opened LinePattern
  import opened StructuredText
  import Decoder

  /** A JSON value: a converted scalar or a list of elements. */
  datatype JValue = JScalar(s: Scalar) | JList(elems: seq<JsonElement>)

  /** One object `{"tag": …, "type": …, "value": …}` of the output. */
  datatype JsonElement = JsonElement(tag: string, typeName: string, value: JValue)

  /** What `parse_structured_line` returns for a line it keeps. `None` stands
      for the empty list a structure line starts out with. */
  datatype Parsed = Parsed(tag: string, typeName: string, indent: nat, value: Option<Scalar>)

  /** A structure line, and only a structure line, carries the empty list. */
  predicate Valid(p: Parsed) {
    (p.typeName == "STRUCTURE") <==> p.value.None?
  }

  /** `parse_structured_line(line)`: `None` (here `Ok(None)`) for a blank
      line or one the pattern does not match, and the `ValueError` of
      `int(value)` as `Err`. */
  function ParseLine(line: string): (r: Result<Option<Parsed>, ConvertError>)
    ensures Scan(line).None? ==> r == Ok(None)
    ensures r.Ok? && r.value.Some? ==> Valid(r.value.value) && r.value.value.typeName in LINE_TYPES
    ensures r.Err? <==> Scan(line).Some? && Scan(line).value.1.typeName in {"INTEGER", "LONG_INTEGER"}
                        && ParseInt(Scan(line).value.1.value).None?
  {
    match Scan(line)
    case None => Ok(None)
    case Some((indent, f)) =>
      if f.typeName == "STRUCTURE" then Ok(Some(Parsed(f.tag, f.typeName, indent, None)))
      else
        ConvertScalarCases(f.typeName, f.value);
        match ConvertScalar(f.typeName, f.value)
        case Err(e) => Err(e)
        case Ok(v) => Ok(Some(Parsed(f.tag, f.typeName, indent, Some(v))))
  }

  /** A line the decoder prints, `{indent}{TAG}:{TYPE}({size}):{value}`, reads
      back as its indentation, tag and type, with its value converted. */
  lemma ReadDecoderLine(depth: nat, tag: string, typeName: string, size: nat, value: string)
    requires tag != [] && TagChars(tag) && typeName in LINE_TYPES && !Contains(value, '\n')
    ensures var r := ParseLine(Decoder.Line(depth, Some(tag), typeName, size, value));
            if typeName == "STRUCTURE" then r == Ok(Some(Parsed(tag, typeName, depth, None)))
            else match ConvertScalar(typeName, value)
                 case Err(e) => r == Err(e)
                 case Ok(v) => r == Ok(Some(Parsed(tag, typeName, depth, Some(v))))
  {
    var f := Fields(tag, typeName, NatToDecimal(size), value);
    DecoderLineFields(depth, tag, typeName, size, value);
    ScanIndented(Decoder.Spaces(depth), f);
  }

  lemma DecoderLineFields(depth: nat, tag: string, typeName: string, size: nat, value: string)
    ensures Decoder.Line(depth, Some(tag), typeName, size, value)
            == Decoder.Spaces(depth) + Assembled(Fields(tag, typeName, NatToDecimal(size), value))
    ensures |Decoder.Spaces(depth)| == depth && forall i :: 0 <= i < depth ==> IsSpace(Decoder.Spaces(depth)[i])
    ensures NatToDecimal(size) != [] && Digits(NatToDecimal(size))
  {
    assert Decimal(size) == NatToDecimal(size);
  }

  /** The parsed lines of `lines`, in order, or the first error. */
  function ParsedLines(lines: seq<string>): Result<seq<Parsed>, ConvertError> {
    if lines == [] then Ok([])
    else
      match ParsedLines(lines[..|lines| - 1])
      case Err(e) => Err(e)
      case Ok(ps) =>
        match ParseLine(lines[|lines| - 1])
        case Err(e) => Err(e)
        case Ok(None) => Ok(ps)
        case Ok(Some(p)) => Ok(ps + [p])
  }

  /** Parsing fails exactly when some line fails. */
  lemma {:induction false} ParsedLinesFail(lines: seq<string>)
    ensures ParsedLines(lines).Err? <==> exists k :: 0 <= k < |lines| && ParseLine(lines[k]).Err?
  {
    hide ParseLine, Scan;
    if lines != [] {
      var init := lines[..|lines| - 1];
      ParsedLinesFail(init);
      if ParsedLines(init).Err? {
        var k :| 0 <= k < |init| && ParseLine(init[k]).Err?;
        assert lines[k] == init[k];
      } else if ParseLine(lines[|lines| - 1]).Ok? {
        forall k | 0 <= k < |lines|
          ensures ParseLine(lines[k]).Ok?
        {
          if k < |init| {
            assert lines[k] == init[k];
            assert !ParseLine(init[k]).Err?;
          } else {
            assert k == |lines| - 1;
          }
        }
      }
    }
  }

  /** At most one parsed line is kept per line, each of them valid and of
      one of the eight types. */
  lemma {:induction false} ParsedLinesKept(lines: seq<string>)
    ensures ParsedLines(lines).Ok? ==>
              |ParsedLines(lines).value| <= |lines|
              && forall p :: p in ParsedLines(lines).value ==> Valid(p) && p.typeName in LINE_TYPES
  {
    if lines != [] {
      ParsedLinesKept(lines[..|lines| - 1]);
    }
  }

  // ---------------------------------------------------------------------
  // Grouping (build_json_structure)

  /** `{"tag", "type", "value"}` copied from a parsed line. */
  function Simple(p: Parsed): JsonElement {
    JsonElement(p.tag, p.typeName, match p.value case Some(v) => JScalar(v) case None => JList([]))
  }

  /** The end of a run: the first position at or after `from`, and before
      `end`, whose indentation is below `floor`, or `end` if there is none. */
  function RunEnd(lines: seq<Parsed>, from: nat, end: nat, floor: nat): (r: nat)
    requires from <= end <= |lines|
    ensures from <= r <= end
    ensures forall k :: from <= k < r ==> lines[k].indent >= floor
    ensures r < end ==> lines[r].indent < floor
    decreases end - from
  {
    if from == end || lines[from].indent < floor then from else RunEnd(lines, from + 1, end, floor)
  }

  /** The elements `build_json_structure(lines)` returns. */
  function Forest(lines: seq<Parsed>): seq<JsonElement>
    decreases |lines|, 2
  {
    Siblings(lines, 0)
  }

  /** The elements built from position `i` on: a structure line takes as
      its children every following line indented deeper than itself, any
      other line stands alone. */
  function Siblings(lines: seq<Parsed>, i: nat): seq<JsonElement>
    requires i <= |lines|
    decreases |lines|, 1, |lines| - i
  {
    if i == |lines| then []
    else if lines[i].typeName == "STRUCTURE" then
      var t := lines[i].indent + 1;
      var end := RunEnd(lines, i + 1, |lines|, t);
      [JsonElement(lines[i].tag, lines[i].typeName, JList(Children(lines, i + 1, end, t)))]
      + Siblings(lines, end)
    else [Simple(lines[i])] + Siblings(lines, i + 1)
  }

  /** The children built from the lines `j` to `end` of a structure whose
      children sit at indentation `t`: a line at `t` opens a child that
      takes the lines indented deeper than `t` after it; a line that is not
      at `t` and not taken by a child is skipped. */
  function Children(lines: seq<Parsed>, j: nat, end: nat, t: nat): seq<JsonElement>
    requires 0 < j <= end <= |lines|
    decreases |lines|, 0, end - j
  {
    if j == end then []
    else if lines[j].indent == t then
      var childEnd := RunEnd(lines, j + 1, end, t + 1);
      (if childEnd - j == 1 then [Simple(lines[j])] else Forest(lines[j..childEnd]))
      + Children(lines, childEnd, end, t)
    else Children(lines, j + 1, end, t)
  }

  // One step of each of the functions above, for the loops below.

  lemma RunEndStep(lines: seq<Parsed>, from: nat, end: nat, floor: nat)
    requires from <= end <= |lines|
    ensures from < end && lines[from].indent >= floor ==>
              RunEnd(lines, from, end, floor) == RunEnd(lines, from + 1, end, floor)
    ensures from == end || lines[from].indent < floor ==> RunEnd(lines, from, end, floor) == from
  {
  }

  lemma SiblingsStep(lines: seq<Parsed>, i: nat)
    requires i <= |lines|
    ensures Forest(lines) == Siblings(lines, 0)
    ensures i == |lines| ==> Siblings(lines, i) == []
    ensures i < |lines| ==>
              Siblings(lines, i)
              == if lines[i].typeName == "STRUCTURE" then
                   var t := lines[i].indent + 1;
                   var end := RunEnd(lines, i + 1, |lines|, t);
                   [JsonElement(lines[i].tag, lines[i].typeName, JList(Children(lines, i + 1, end, t)))]
                   + Siblings(lines, end)
                 else [Simple(lines[i])] + Siblings(lines, i + 1)
  {
  }

  lemma ChildrenStep(lines: seq<Parsed>, j: nat, end: nat, t: nat)
    requires 0 < j <= end <= |lines|
    ensures j == end ==> Children(lines, j, end, t) == []
    ensures j < end ==>
              Children(lines, j, end, t)
              == if lines[j].indent == t then
                   var childEnd := RunEnd(lines, j + 1, end, t + 1);
                   (if childEnd - j == 1 then [Simple(lines[j])] else Forest(lines[j..childEnd]))
                   + Children(lines, childEnd, end, t)
                 else Children(lines, j + 1, end, t)
  {
  }

  /** `build_json_structure(parsed_lines)`. */
  method BuildJsonStructure(parsedLines: seq<Parsed>) returns (result: seq<JsonElement>)
    ensures result == Forest(parsedLines)
    decreases |parsedLines|, 1
  {
    hide Forest, Siblings, Children, RunEnd;
    SiblingsStep(parsedLines, 0);
    if |parsedLines| == 0 {
      return [];
    }
    if |parsedLines| == 1 {
      var element := parsedLines[0];
      SiblingsStep(parsedLines, 1);
      if element.typeName == "STRUCTURE" {
        RunEndStep(parsedLines, 1, 1, element.indent + 1);
        ChildrenStep(parsedLines, 1, 1, element.indent + 1);
        result := [JsonElement(element.tag, element.typeName, JList([]))];
      } else {
        result := [Simple(element)];
      }
      return;
    }
    result := [];
    var i := 0;
    while i < |parsedLines|
      invariant i <= |parsedLines|
      invariant Forest(parsedLines) == result + Siblings(parsedLines, i)
    {
      SiblingsStep(parsedLines, i);
      var current := parsedLines[i];
      if current.typeName == "STRUCTURE" {
        var childrenStart := i + 1;
        var childrenEnd := childrenStart;
        var targetIndent := current.indent + 1;
        while childrenEnd < |parsedLines| && parsedLines[childrenEnd].indent >= targetIndent
          invariant childrenStart <= childrenEnd <= |parsedLines|
          invariant RunEnd(parsedLines, childrenStart, |parsedLines|, targetIndent)
                    == RunEnd(parsedLines, childrenEnd, |parsedLines|, targetIndent)
        {
          RunEndStep(parsedLines, childrenEnd, |parsedLines|, targetIndent);
          childrenEnd := childrenEnd + 1;
        }
        RunEndStep(parsedLines, childrenEnd, |parsedLines|, targetIndent);
        var childrenLines := CollectChildren(parsedLines, childrenStart, childrenEnd, targetIndent);
        assert childrenLines == Children(parsedLines, i + 1, childrenEnd, targetIndent);
        var element := JsonElement(current.tag, current.typeName, JList(childrenLines));
        assert Siblings(parsedLines, i) == [element] + Siblings(parsedLines, childrenEnd);
        result := result + [element];
        i := childrenEnd;
      } else {
        result := result + [Simple(current)];
        i := i + 1;
      }
    }
    SiblingsStep(parsedLines, i);
  }

  /** The `while j < children_end` loop of `build_json_structure`: the
      children of a structure from the lines `childrenStart` to
      `childrenEnd`, whose direct children sit at `targetIndent`. */
  method CollectChildren(parsedLines: seq<Parsed>, childrenStart: nat, childrenEnd: nat, targetIndent: nat)
    returns (childrenLines: seq<JsonElement>)
    requires 0 < childrenStart <= childrenEnd <= |parsedLines|
    ensures childrenLines == Children(parsedLines, childrenStart, childrenEnd, targetIndent)
    decreases |parsedLines|, 0
  {
    hide Forest, Siblings, Children, RunEnd;
    childrenLines := [];
    var j := childrenStart;
    while j < childrenEnd
      invariant childrenStart <= j <= childrenEnd
      invariant Children(parsedLines, childrenStart, childrenEnd, targetIndent)
                == childrenLines + Children(parsedLines, j, childrenEnd, targetIndent)
    {
      ChildrenStep(parsedLines, j, childrenEnd, targetIndent);
      if parsedLines[j].indent == targetIndent {
        var childStart := j;
        var childEnd := j + 1;
        while childEnd < childrenEnd && parsedLines[childEnd].indent > targetIndent
          invariant j + 1 <= childEnd <= childrenEnd
          invariant RunEnd(parsedLines, j + 1, childrenEnd, targetIndent + 1)
                    == RunEnd(parsedLines, childEnd, childrenEnd, targetIndent + 1)
        {
          RunEndStep(parsedLines, childEnd, childrenEnd, targetIndent + 1);
          childEnd := childEnd + 1;
        }
        RunEndStep(parsedLines, childEnd, childrenEnd, targetIndent + 1);
        var childLines := parsedLines[childStart..childEnd];
        if |childLines| == 1 {
          childrenLines := childrenLines + [Simple(childLines[0])];
        } else {
          var childStructure := BuildJsonStructure(childLines);
          childrenLines := childrenLines + childStructure;
        }
        j := childEnd;
      } else {
        j := j + 1;
      }
    }
    ChildrenStep(parsedLines, j, childrenEnd, targetIndent);
  }

  // ---------------------------------------------------------------------
  // What the grouping keeps

  /** One element as it appears in a document-order listing: its tag, its
      type, and its value when that is a scalar. */
  datatype Entry = Entry(tag: string, typeName: string, value: Option<Scalar>)

  /** The elements of `es` and all their descendants, in document order. */
  function Flat(es: seq<JsonElement>): seq<Entry>
    decreases es
  {
    if es == [] then []
    else
      var e := es[0];
      assert e in es;
      match e.value
      case JScalar(v) => [Entry(e.tag, e.typeName, Some(v))] + Flat(es[1..])
      case JList(kids) => [Entry(e.tag, e.typeName, None)] + Flat(kids) + Flat(es[1..])
  }

  /** The entry of a parsed line. */
  function Sig(p: Parsed): Entry {
    Entry(p.tag, p.typeName, p.value)
  }

  function Sigs(lines: seq<Parsed>): (r: seq<Entry>)
    ensures |r| == |lines| && forall k :: 0 <= k < |lines| ==> r[k] == Sig(lines[k])
  {
    seq(|lines|, k requires 0 <= k < |lines| => Sig(lines[k]))
  }

  /** Indentation that never jumps: each line is indented at most one level
      deeper than the line before it, whatever that line's type. */
  predicate WellNested(lines: seq<Parsed>) {
    forall k :: 0 < k < |lines| ==> lines[k].indent <= lines[k - 1].indent + 1
  }

  predicate AllValid(lines: seq<Parsed>) {
    forall k :: 0 <= k < |lines| ==> Valid(lines[k])
  }

  lemma WellNestedAt(lines: seq<Parsed>, k: nat)
    requires WellNested(lines) && 0 < k < |lines|
    ensures lines[k].indent <= lines[k - 1].indent + 1
  {
  }

  lemma {:induction false} FlatAppend(a: seq<JsonElement>, b: seq<JsonElement>)
    ensures Flat(a + b) == Flat(a) + Flat(b)
    decreases a
  {
    if a != [] {
      assert (a + b)[0] == a[0] && (a + b)[1..] == a[1..] + b;
      FlatAppend(a[1..], b);
      var e := a[0];
      match e.value
      case JScalar(v) =>
        calc {
          Flat(a + b);
          [Entry(e.tag, e.typeName, Some(v))] + Flat(a[1..] + b);
          [Entry(e.tag, e.typeName, Some(v))] + (Flat(a[1..]) + Flat(b));
          Flat(a) + Flat(b);
        }
      case JList(kids) =>
        calc {
          Flat(a + b);
          [Entry(e.tag, e.typeName, None)] + Flat(kids) + Flat(a[1..] + b);
          [Entry(e.tag, e.typeName, None)] + Flat(kids) + (Flat(a[1..]) + Flat(b));
          Flat(a) + Flat(b);
        }
    } else {
      assert a + b == b;
    }
  }

  lemma FlatSimple(p: Parsed)
    ensures Flat([Simple(p)]) == [Sig(p)]
  {
    assert [Simple(p)][1..] == [];
  }

  lemma FlatStructure(tag: string, kids: seq<JsonElement>)
    ensures Flat([JsonElement(tag, "STRUCTURE", JList(kids))]) == [Entry(tag, "STRUCTURE", None)] + Flat(kids)
  {
    assert [JsonElement(tag, "STRUCTURE", JList(kids))][1..] == [];
  }

  lemma SigsSplit(lines: seq<Parsed>, a: nat, b: nat, c: nat)
    requires a <= b <= c <= |lines|
    ensures Sigs(lines[a..c]) == Sigs(lines[a..b]) + Sigs(lines[b..c])
  {
    assert Sigs(lines[a..c]) == Sigs(lines[a..b]) + Sigs(lines[b..c]);
  }

  lemma WellNestedSlice(lines: seq<Parsed>, a: nat, b: nat)
    requires a <= b <= |lines| && WellNested(lines) && AllValid(lines)
    ensures WellNested(lines[a..b]) && AllValid(lines[a..b])
  {
    var g := lines[a..b];
    forall k | 0 < k < |g|
      ensures g[k].indent <= g[k - 1].indent + 1
    {
      assert g[k] == lines[a + k] && g[k - 1] == lines[a + k - 1];
    }
    forall k | 0 <= k < |g|
      ensures Valid(g[k])
    {
      assert g[k] == lines[a + k];
    }
  }

  /** On well-nested lines the grouping loses nothing: listing the elements
      it builds in document order gives back every parsed line, in order. */
  lemma {:induction false} ForestExact(lines: seq<Parsed>)
    requires WellNested(lines) && AllValid(lines)
    ensures Flat(Forest(lines)) == Sigs(lines)
    decreases |lines|, 2, 0, 0
  {
    SiblingsExact(lines, 0);
    assert lines[0..] == lines;
  }

  lemma {:induction false} SiblingsExact(lines: seq<Parsed>, i: nat)
    requires i <= |lines| && WellNested(lines) && AllValid(lines)
    ensures Flat(Siblings(lines, i)) == Sigs(lines[i..])
    decreases |lines|, 1, |lines| - i, 1
  {
    SiblingsStep(lines, i);
    if i < |lines| {
      if lines[i].typeName == "STRUCTURE" {
        StructureExact(lines, i);
      } else {
        ScalarExact(lines, i);
      }
    }
  }

  lemma {:induction false} ScalarExact(lines: seq<Parsed>, i: nat)
    requires i < |lines| && WellNested(lines) && AllValid(lines) && lines[i].typeName != "STRUCTURE"
    ensures Flat(Siblings(lines, i)) == Sigs(lines[i..])
    decreases |lines|, 1, |lines| - i, 0
  {
    SiblingsStep(lines, i);
    assert Siblings(lines, i) == [Simple(lines[i])] + Siblings(lines, i + 1);
    hide Forest, Siblings, Children, RunEnd, Flat, Sigs, WellNested;
    SiblingsExact(lines, i + 1);
    FlatAppend([Simple(lines[i])], Siblings(lines, i + 1));
    FlatSimple(lines[i]);
    SigsSplit(lines, i, i + 1, |lines|);
    assert Sigs(lines[i..i + 1]) == [Sig(lines[i])];
    calc {
      Flat(Siblings(lines, i));
      Flat([Simple(lines[i])] + Siblings(lines, i + 1));
      Flat([Simple(lines[i])]) + Flat(Siblings(lines, i + 1));
      [Sig(lines[i])] + Sigs(lines[i + 1..]);
      Sigs(lines[i..]);
    }
  }

  lemma {:induction false} StructureExact(lines: seq<Parsed>, i: nat)
    requires i < |lines| && WellNested(lines) && AllValid(lines) && lines[i].typeName == "STRUCTURE"
    ensures Flat(Siblings(lines, i)) == Sigs(lines[i..])
    decreases |lines|, 1, |lines| - i, 0
  {
    hide Forest, Siblings, Children, RunEnd, Flat, Sigs, WellNested;
    var t := lines[i].indent + 1;
    var end := RunEnd(lines, i + 1, |lines|, t);
    var kids := Children(lines, i + 1, end, t);
    assert Flat(kids) == Sigs(lines[i + 1..end]) by {
      if i + 1 < end {
        WellNestedAt(lines, i + 1);
      }
      ChildrenExact(lines, i + 1, end, t);
    }
    assert Flat(Siblings(lines, end)) == Sigs(lines[end..]) by {
      SiblingsExact(lines, end);
    }
    StructureFlat(lines, i);
    SigsAround(lines, i, end);
  }

  lemma StructureFlat(lines: seq<Parsed>, i: nat)
    requires i < |lines| && AllValid(lines) && lines[i].typeName == "STRUCTURE"
    ensures var t := lines[i].indent + 1;
            var end := RunEnd(lines, i + 1, |lines|, t);
            Flat(Siblings(lines, i))
            == [Sig(lines[i])] + Flat(Children(lines, i + 1, end, t)) + Flat(Siblings(lines, end))
  {
    SiblingsStep(lines, i);
    hide Forest, Siblings, Children, RunEnd, Flat, Sigs, WellNested;
    var t := lines[i].indent + 1;
    var end := RunEnd(lines, i + 1, |lines|, t);
    var kids := Children(lines, i + 1, end, t);
    var element := JsonElement(lines[i].tag, "STRUCTURE", JList(kids));
    FlatAppend([element], Siblings(lines, end));
    FlatStructure(lines[i].tag, kids);
    assert Valid(lines[i]);
  }

  lemma SigsAround(lines: seq<Parsed>, i: nat, end: nat)
    requires i < end <= |lines|
    ensures Sigs(lines[i..]) == [Sig(lines[i])] + Sigs(lines[i + 1..end]) + Sigs(lines[end..])
  {
    SigsSplit(lines, i, i + 1, |lines|);
    SigsSplit(lines, i + 1, end, |lines|);
    assert Sigs(lines[i..i + 1]) == [Sig(lines[i])];
  }

  lemma {:induction false} ChildrenExact(lines: seq<Parsed>, j: nat, end: nat, t: nat)
    requires 0 < j <= end <= |lines| && WellNested(lines) && AllValid(lines)
    requires forall k :: j <= k < end ==> lines[k].indent >= t
    requires j < end ==> lines[j].indent == t
    ensures Flat(Children(lines, j, end, t)) == Sigs(lines[j..end])
    decreases |lines|, 0, end - j, 0
  {
    ChildrenStep(lines, j, end, t);
    if j < end {
      hide Forest, Siblings, Children, RunEnd;
      var childEnd := RunEnd(lines, j + 1, end, t + 1);
      var group := if childEnd - j == 1 then [Simple(lines[j])] else Forest(lines[j..childEnd]);
      if childEnd - j == 1 {
        FlatSimple(lines[j]);
        assert Sigs(lines[j..childEnd]) == [Sig(lines[j])];
      } else {
        WellNestedSlice(lines, j, childEnd);
        ForestExact(lines[j..childEnd]);
      }
      ChildrenExact(lines, childEnd, end, t);
      FlatAppend(group, Children(lines, childEnd, end, t));
      SigsSplit(lines, j, childEnd, end);
    }
  }

  /** Whatever the indentation, the grouping never makes up an element:
      it lists at most as many entries as there are parsed lines. */
  lemma {:induction false} ForestBound(lines: seq<Parsed>)
    ensures |Flat(Forest(lines))| <= |lines|
    decreases |lines|, 2
  {
    SiblingsBound(lines, 0);
  }

  lemma {:induction false} SiblingsBound(lines: seq<Parsed>, i: nat)
    requires i <= |lines|
    ensures |Flat(Siblings(lines, i))| <= |lines| - i
    decreases |lines|, 1, |lines| - i
  {
    SiblingsStep(lines, i);
    if i < |lines| {
      hide Forest, Siblings, Children, RunEnd;
      if lines[i].typeName == "STRUCTURE" {
        var t := lines[i].indent + 1;
        var end := RunEnd(lines, i + 1, |lines|, t);
        var kids := Children(lines, i + 1, end, t);
        ChildrenBound(lines, i + 1, end, t);
        SiblingsBound(lines, end);
        FlatAppend([JsonElement(lines[i].tag, lines[i].typeName, JList(kids))], Siblings(lines, end));
        assert [JsonElement(lines[i].tag, lines[i].typeName, JList(kids))][1..] == [];
      } else {
        SiblingsBound(lines, i + 1);
        FlatAppend([Simple(lines[i])], Siblings(lines, i + 1));
        FlatSimple(lines[i]);
      }
    }
  }

  lemma {:induction false} ChildrenBound(lines: seq<Parsed>, j: nat, end: nat, t: nat)
    requires 0 < j <= end <= |lines|
    ensures |Flat(Children(lines, j, end, t))| <= end - j
    decreases |lines|, 0, end - j
  {
    ChildrenStep(lines, j, end, t);
    if j < end {
      hide Forest, Siblings, Children, RunEnd;
      if lines[j].indent == t {
        var childEnd := RunEnd(lines, j + 1, end, t + 1);
        var group := if childEnd - j == 1 then [Simple(lines[j])] else Forest(lines[j..childEnd]);
        if childEnd - j == 1 {
          FlatSimple(lines[j]);
        } else {
          ForestBound(lines[j..childEnd]);
        }
        ChildrenBound(lines, childEnd, end, t);
        FlatAppend(group, Children(lines, childEnd, end, t));
      } else {
        ChildrenBound(lines, j + 1, end, t);
      }
    }
  }

  /** A line indented two levels below its structure is skipped: the
      structure comes out with no children and the line is lost. */
  lemma SkippedLineIsLost()
    ensures var lines := [Parsed("REQUEST_MESSAGE", "STRUCTURE", 0, None),
                          Parsed("BATCH_COUNT", "INTEGER", 2, Some(SInt(1)))];
            Forest(lines) == [JsonElement("REQUEST_MESSAGE", "STRUCTURE", JList([]))]
  {
    var lines := [Parsed("REQUEST_MESSAGE", "STRUCTURE", 0, None),
                  Parsed("BATCH_COUNT", "INTEGER", 2, Some(SInt(1)))];
    SiblingsStep(lines, 0);
    RunEndStep(lines, 1, 2, 1);
    RunEndStep(lines, 2, 2, 1);
    ChildrenStep(lines, 1, 2, 1);
    ChildrenStep(lines, 2, 2, 1);
    SiblingsStep(lines, 2);
  }

  /** No lines give no elements, and one line gives exactly one element; a
      structure alone gets the empty list. */
  lemma FewLines(p: Parsed)
    requires Valid(p)
    ensures Forest([]) == []
    ensures Forest([p]) == [JsonElement(p.tag, p.typeName, if p.typeName == "STRUCTURE" then JList([]) else JScalar(p.value.value))]
  {
    SiblingsStep([], 0);
    SiblingsStep([p], 0);
    SiblingsStep([p], 1);
    if p.typeName == "STRUCTURE" {
      RunEndStep([p], 1, 1, p.indent + 1);
      ChildrenStep([p], 1, 1, p.indent + 1);
    }
  }

  /** `convert_structured_to_json(structured_text)`: the text stripped and
      split into lines, every line parsed (an `int` conversion that fails
      ends the conversion) and the kept lines grouped. */
  method ConvertStructuredToJson(structuredText: string) returns (r: Result<seq<JsonElement>, ConvertError>)
    ensures ParsedLines(Lines(structuredText)).Err? ==> r == Err(ParsedLines(Lines(structuredText)).error)
    ensures ParsedLines(Lines(structuredText)).Ok? ==> r == Ok(Forest(ParsedLines(Lines(structuredText)).value))
  {
    var lines := Split(Strip(structuredText), '\n');
    hide ParsedLines, ParseLine, Scan, Forest;
    var parsedLines := [];
    var k := 0;
    ParsedLinesNone(lines);
    while k < |lines|
      invariant k <= |lines|
      invariant ParsedLines(lines[..k]) == Ok(parsedLines)
    {
      ParsedLinesNext(lines, k);
      var parsed := ParseLine(lines[k]);
      match parsed {
        case Err(e) =>
          ParsedLinesErrPersists(lines, k + 1);
          return Err(e);
        case Ok(None) =>
        case Ok(Some(p)) =>
          parsedLines := parsedLines + [p];
      }
      k := k + 1;
    }
    assert lines[..k] == lines;
    var built := BuildJsonStructure(parsedLines);
    return Ok(built);
  }

  lemma ParsedLinesNone(lines: seq<string>)
    ensures ParsedLines(lines[..0]) == Ok([])
  {
    assert lines[..0] == [];
  }

  /** One more line parsed. */
  lemma ParsedLinesNext(lines: seq<string>, k: nat)
    requires k < |lines|
    ensures ParsedLines(lines[..k + 1])
            == match ParsedLines(lines[..k])
               case Err(e) => Err(e)
               case Ok(ps) =>
                 match ParseLine(lines[k])
                 case Err(e) => Err(e)
                 case Ok(None) => Ok(ps)
                 case Ok(Some(p)) => Ok(ps + [p])
  {
    assert lines[..k + 1][..k] == lines[..k];
  }

  /** Once a prefix of the lines fails to parse, so do the lines. */
  lemma {:induction false} ParsedLinesErrPersists(lines: seq<string>, k: nat)
    requires k <= |lines| && ParsedLines(lines[..k]).Err?
    ensures ParsedLines(lines) == ParsedLines(lines[..k])
    decreases |lines| - k
  {
    if k < |lines| {
      assert lines[..k + 1][..k] == lines[..k];
      ParsedLinesErrPersists(lines, k + 1);
    } else {
      assert lines[..k] == lines;
    }
  }
}
