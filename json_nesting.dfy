/** The grouping of the JSON converter (`build_json_structure` in
    convert_to_json.py) undoes writing a nested document out as indented
    lines: the lines of any document whose structures, and only whose
    structures, hold lists group back into that very document. */
module JsonNesting {
  import opened Wrappers
  import opened LinePattern
  import opened JsonConvert

  /** Elements whose type says what their value is: a structure, and only a
      structure, holds a list, and the elements of that list are shaped the
      same way. */
  predicate Shaped(es: seq<JsonElement>) {
    forall e | e in es :: (e.typeName == "STRUCTURE" <==> e.value.JList?)
                          && (e.value.JList? ==> Shaped(e.value.elems))
  }

  /** Every line of `ps` is indented at least `floor`. */
  predicate Below(ps: seq<Parsed>, floor: nat) {
    forall p | p in ps :: p.indent >= floor
  }

  /** The parsed lines of the elements `es` at depth `level`, in document
      order: each element's line is indented by its depth and carries its
      scalar, or nothing for a list, and a list's elements follow it one
      level deeper. */
  function JLines(es: seq<JsonElement>, level: nat): (r: seq<Parsed>)
    ensures Below(r, level)
    ensures r == [] <==> es == []
    ensures es != [] ==> r[0].indent == level
    decreases es
  {
    if es == [] then []
    else
      assert es[0] in es;
      ElementLines(es[0], level) + JLines(es[1..], level)
  }

  /** The parsed lines of one element at depth `level`: its own line, then
      the lines of its children one level deeper. */
  function ElementLines(e: JsonElement, level: nat): (r: seq<Parsed>)
    ensures r != [] && r[0] == Parsed(e.tag, e.typeName, level, if e.value.JScalar? then Some(e.value.s) else None)
    ensures Below(r[1..], level + 1)
    ensures e.value.JScalar? ==> |r| == 1
    decreases e
  {
    match e.value
    case JScalar(v) => [Parsed(e.tag, e.typeName, level, Some(v))]
    case JList(kids) => [Parsed(e.tag, e.typeName, level, None)] + JLines(kids, level + 1)
  }

  /** The grouping is the inverse of writing out lines: for shaped elements,
      `build_json_structure` of their lines, at any starting depth, gives
      back exactly those elements with their nesting. */
  lemma ForestOfLines(es: seq<JsonElement>, level: nat)
    requires Shaped(es)
    ensures Forest(JLines(es, level)) == es
  {
    var lines := JLines(es, level);
    assert lines[0..] == lines;
    SiblingsOfLines(lines, 0, es, level);
  }

  /** A request: a message holding a header (itself holding a batch
      count) and a batch item (holding an operation). */
  const RequestDocument: seq<JsonElement> :=
    [JsonElement("REQUEST_MESSAGE", "STRUCTURE", JList([
       JsonElement("REQUEST_HEADER", "STRUCTURE", JList([
         JsonElement("BATCH_COUNT", "INTEGER", JScalar(SInt(1)))])),
       JsonElement("BATCH_ITEM", "STRUCTURE", JList([
         JsonElement("OPERATION", "ENUMERATION", JScalar(SStr("CREATE")))]))]))]

  /** The same request as the parsed lines of its indented text. */
  const RequestLines: seq<Parsed> :=
    [Parsed("REQUEST_MESSAGE", "STRUCTURE", 0, None),
     Parsed("REQUEST_HEADER", "STRUCTURE", 1, None),
     Parsed("BATCH_COUNT", "INTEGER", 2, Some(SInt(1))),
     Parsed("BATCH_ITEM", "STRUCTURE", 1, None),
     Parsed("OPERATION", "ENUMERATION", 2, Some(SStr("CREATE")))]

  /** The grouping nests the header's and the item's lines under the
      message, and their own children under them, rather than listing the
      five lines side by side. */
  lemma NestedRequest()
    ensures Forest(RequestLines) == RequestDocument
  {
    RequestShaped();
    RequestWrittenOut();
    ForestOfLines(RequestDocument, 0);
  }

  lemma RequestShaped()
    ensures Shaped(RequestDocument)
  {
    var message := RequestDocument[0];
    var header, item := message.value.elems[0], message.value.elems[1];
    assert Shaped(header.value.elems) && Shaped(item.value.elems);
    assert Shaped(message.value.elems);
  }

  lemma RequestWrittenOut()
    ensures JLines(RequestDocument, 0) == RequestLines
  {
    var message := RequestDocument[0];
    var header, item := message.value.elems[0], message.value.elems[1];
    var count, operation := header.value.elems[0], item.value.elems[0];
    var m, h, c := RequestLines[0], RequestLines[1], RequestLines[2];
    var i, o := RequestLines[3], RequestLines[4];
    hide *;
    assert ElementLines(header, 1) == [h, c] by {
      LinesOfOne(header, 1);
      LinesOfOne(count, 2);
    }
    assert ElementLines(item, 1) == [i, o] by {
      LinesOfOne(item, 1);
      LinesOfOne(operation, 2);
    }
    assert JLines(RequestDocument, 0) == [m] + (ElementLines(header, 1) + ElementLines(item, 1)) by {
      LinesOfOne(message, 0);
      LinesOfTwo(header, item, 1);
    }
    assert [m] + ([h, c] + [i, o]) == RequestLines;
  }

  lemma LinesOfOne(e: JsonElement, level: nat)
    ensures JLines([e], level) == ElementLines(e, level)
    ensures ElementLines(e, level)
            == if e.value.JScalar? then [Parsed(e.tag, e.typeName, level, Some(e.value.s))]
               else [Parsed(e.tag, e.typeName, level, None)] + JLines(e.value.elems, level + 1)
  {
    assert [e][1..] == [];
  }

  lemma LinesOfTwo(a: JsonElement, b: JsonElement, level: nat)
    ensures JLines([a, b], level) == ElementLines(a, level) + ElementLines(b, level)
  {
    assert [a, b][1..] == [b];
    LinesOfOne(b, level);
  }

  /** A lone element's lines group back into that element. */
  lemma {:induction false} ElementForest(e: JsonElement, level: nat)
    requires Shaped([e])
    ensures Forest(ElementLines(e, level)) == [e]
    decreases e, 1
  {
    var lines := ElementLines(e, level);
    hide *;
    LinesOfFirst([e], level);
    ForestIsSiblings(lines);
    SiblingsAtEnd(lines);
    assert [e][0] == e;
    if e.value.JScalar? {
      ScalarStep(lines, 0);
    } else {
      assert lines[1..|lines|] == JLines(e.value.elems, level + 1);
      StructureSibling(lines, 0, |lines|, e, level);
    }
  }

  /** The run from `from` ends after `n` lines when those `n` lines are all
      indented at least `floor` and the next one, if any, is not. */
  lemma {:induction false} RunEndOver(lines: seq<Parsed>, from: nat, end: nat, floor: nat, n: nat)
    requires from + n <= end <= |lines|
    requires Below(lines[from..from + n], floor)
    requires from + n < end ==> lines[from + n].indent < floor
    ensures RunEnd(lines, from, end, floor) == from + n
    decreases n
  {
    RunEndStep(lines, from, end, floor);
    if n > 0 {
      assert lines[from] in lines[from..from + n];
      assert lines[from + 1..from + n] == lines[from..from + n][1..];
      RunEndOver(lines, from + 1, end, floor, n - 1);
    }
  }

  lemma {:induction false} SiblingsOfLines(lines: seq<Parsed>, i: nat, es: seq<JsonElement>, level: nat)
    requires i <= |lines| && lines[i..] == JLines(es, level) && Shaped(es)
    ensures Siblings(lines, i) == es
    decreases es, 1
  {
    if es == [] {
      SiblingsStep(lines, i);
    } else {
      var next := FirstSibling(lines, i, es, level);
      SiblingsOfLines(lines, next, es[1..], level);
      assert es == [es[0]] + es[1..];
    }
  }

  /** The first element's lines, from `i`, group into that element. */
  lemma {:induction false} FirstSibling(lines: seq<Parsed>, i: nat, es: seq<JsonElement>, level: nat) returns (next: nat)
    requires i <= |lines| && lines[i..] == JLines(es, level) && Shaped(es) && es != []
    ensures i < next <= |lines| && lines[next..] == JLines(es[1..], level) && Shaped(es[1..])
    ensures Siblings(lines, i) == [es[0]] + Siblings(lines, next)
    decreases es, 0
  {
    hide *;
    var e, rest := es[0], es[1..];
    var own := ElementLines(e, level);
    next := i + |own|;
    assert i < next <= |lines| && lines[next..] == JLines(rest, level) && Shaped(rest) by {
      LinesOfFirst(es, level);
      SliceSplit(lines, i, |lines|, own, JLines(rest, level));
    }
    assert Siblings(lines, i) == [e] + Siblings(lines, next) by {
      LinesOfFirst(es, level);
      SliceSplit(lines, i, |lines|, own, JLines(rest, level));
      if e.value.JScalar? {
        ScalarStep(lines, i);
        assert Simple(lines[i]) == e;
      } else {
        assert lines[i + 1..next] == JLines(e.value.elems, level + 1);
        assert next < |lines| ==> lines[next].indent == level;
        StructureSibling(lines, i, next, e, level);
      }
    }
  }

  /** A structure's line and its descendants' lines group into that
      structure. */
  lemma {:induction false} StructureSibling(lines: seq<Parsed>, i: nat, next: nat, e: JsonElement, level: nat)
    requires e.value.JList? && e.typeName == "STRUCTURE" && Shaped(e.value.elems)
    requires i < next <= |lines| && lines[i] == Parsed(e.tag, e.typeName, level, None)
    requires lines[i + 1..next] == JLines(e.value.elems, level + 1)
    requires next < |lines| ==> lines[next].indent == level
    ensures Siblings(lines, i) == [e] + Siblings(lines, next)
    decreases e, 0
  {
    var t := level + 1;
    hide *;
    assert RunEnd(lines, i + 1, |lines|, t) == next by {
      RunEndOver(lines, i + 1, |lines|, t, next - i - 1);
    }
    StructureStep(lines, i, next - i - 1);
    ChildrenOfLines(lines, i + 1, next, t, e.value.elems);
  }

  lemma {:induction false} ChildrenOfLines(lines: seq<Parsed>, j: nat, end: nat, t: nat, kids: seq<JsonElement>)
    requires 0 < j <= end <= |lines| && lines[j..end] == JLines(kids, t) && Shaped(kids)
    ensures Children(lines, j, end, t) == kids
    decreases kids, 1
  {
    if kids == [] {
      ChildrenStep(lines, j, end, t);
    } else {
      var next := FirstChild(lines, j, end, t, kids);
      ChildrenOfLines(lines, next, end, t, kids[1..]);
      assert kids == [kids[0]] + kids[1..];
    }
  }

  /** The first child's lines, from `j`, group into that child. */
  lemma {:induction false} FirstChild(lines: seq<Parsed>, j: nat, end: nat, t: nat, kids: seq<JsonElement>) returns (next: nat)
    requires 0 < j <= end <= |lines| && lines[j..end] == JLines(kids, t) && Shaped(kids) && kids != []
    ensures j < next <= end && lines[next..end] == JLines(kids[1..], t) && Shaped(kids[1..])
    ensures Children(lines, j, end, t) == [kids[0]] + Children(lines, next, end, t)
    decreases kids, 0
  {
    hide *;
    var k, rest := kids[0], kids[1..];
    var own := ElementLines(k, t);
    next := j + |own|;
    assert j < next <= end && lines[next..end] == JLines(rest, t) && Shaped(rest)
           && lines[j].indent == t && RunEnd(lines, j + 1, end, t + 1) == next by {
      LinesOfFirst(kids, t);
      SliceSplit(lines, j, end, own, JLines(rest, t));
      RunEndOver(lines, j + 1, end, t + 1, |own| - 1);
    }
    assert (if next - j == 1 then [Simple(lines[j])] else Forest(lines[j..next])) == [k] by {
      LinesOfFirst(kids, t);
      SliceSplit(lines, j, end, own, JLines(rest, t));
      ChildGroup(lines[j..next], k, t);
    }
    ChildStep(lines, j, end, t, next);
  }

  /** The lines of one child group into that child, whether they are its
      line alone or its line and its descendants'. */
  lemma {:induction false} ChildGroup(group: seq<Parsed>, k: JsonElement, t: nat)
    requires Shaped([k]) && group == ElementLines(k, t)
    requires |group| == 1 ==> Simple(group[0]) == k
    ensures (if |group| == 1 then [Simple(group[0])] else Forest(group)) == [k]
    decreases k, 2
  {
    if |group| != 1 {
      ElementForest(k, t);
    }
  }

  lemma ForestIsSiblings(lines: seq<Parsed>)
    ensures Forest(lines) == Siblings(lines, 0)
  {
  }

  lemma SiblingsAtEnd(lines: seq<Parsed>)
    ensures Siblings(lines, |lines|) == []
  {
  }

  lemma ScalarStep(lines: seq<Parsed>, i: nat)
    requires i < |lines| && lines[i].typeName != "STRUCTURE"
    ensures Siblings(lines, i) == [Simple(lines[i])] + Siblings(lines, i + 1)
  {
  }

  lemma StructureStep(lines: seq<Parsed>, i: nat, n: nat)
    requires i < |lines| && lines[i].typeName == "STRUCTURE"
    requires i + 1 + n <= |lines| && RunEnd(lines, i + 1, |lines|, lines[i].indent + 1) == i + 1 + n
    ensures Siblings(lines, i)
            == [JsonElement(lines[i].tag, "STRUCTURE", JList(Children(lines, i + 1, i + 1 + n, lines[i].indent + 1)))]
               + Siblings(lines, i + 1 + n)
  {
  }

  lemma ChildStep(lines: seq<Parsed>, j: nat, end: nat, t: nat, childEnd: nat)
    requires 0 < j < end <= |lines| && lines[j].indent == t
    requires j < childEnd <= end && RunEnd(lines, j + 1, end, t + 1) == childEnd
    ensures Children(lines, j, end, t)
            == (if childEnd - j == 1 then [Simple(lines[j])] else Forest(lines[j..childEnd]))
               + Children(lines, childEnd, end, t)
  {
  }

  /** The first element of `es` written out, and what is left of `es`. */
  lemma LinesOfFirst(es: seq<JsonElement>, level: nat)
    requires es != [] && Shaped(es)
    ensures JLines(es, level) == ElementLines(es[0], level) + JLines(es[1..], level)
    ensures Shaped([es[0]]) && Shaped(es[1..])
    ensures es[0].typeName == "STRUCTURE" <==> es[0].value.JList?
    ensures es[0].value.JList? ==> Shaped(es[0].value.elems)
    ensures var e := es[0]; e.value.JList? ==> ElementLines(e, level)[1..] == JLines(e.value.elems, level + 1)
    ensures var e := es[0]; |ElementLines(e, level)| == 1 ==> Simple(ElementLines(e, level)[0]) == e
  {
    var e := es[0];
    assert e in es;
    assert Shaped(es[1..]) by {
      forall x | x in es[1..] ensures x in es {
      }
    }
    if e.value.JList? && |ElementLines(e, level)| == 1 {
      assert JLines(e.value.elems, level + 1) == [];
    }
  }

  /** Lines `from` to `to` written as `a` followed by `b`. */
  lemma SliceSplit(lines: seq<Parsed>, from: nat, to: nat, a: seq<Parsed>, b: seq<Parsed>)
    requires from <= to <= |lines| && lines[from..to] == a + b && a != []
    ensures lines[from] == a[0]
    ensures lines[from + 1..from + |a|] == a[1..]
    ensures lines[from..from + |a|] == a
    ensures lines[from + |a|..to] == b
    ensures to == |lines| ==> lines[from + |a|..] == b
  {
    assert lines[from..to][..|a|] == a;
    assert lines[from..to][|a|..] == b;
    assert lines[from + 1..from + |a|] == a[1..] by {
      forall k | 0 <= k < |a| - 1 ensures lines[from + 1 + k] == a[1..][k] {
        assert lines[from + 1 + k] == lines[from..to][k + 1];
      }
    }
  }
}
