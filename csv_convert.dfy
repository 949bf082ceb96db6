/** The CSV converter (helpers/convert_to_csv.py): every line of the indented
    text that holds a scalar becomes a row `[TAG, TYPE, str(value)]`;
    structure lines and lines the pattern does not match are left out. */
module CsvConvert {
  import opened Wrappers
  import opened Strings
  import opened LinePattern
  import opened StructuredText
  import Json = JsonConvert

  /** What `parse_structured_line` returns for a line it keeps. */
  datatype CsvItem = CsvItem(tag: string, typeName: string, value: Scalar)

  /** `parse_structured_line(line)`: `None` (here `Ok(None)`) for a blank line,
      a line the pattern does not match and a structure line; the
      `ValueError` of `int(value)` as `Err`. */
  function ParseLine(line: string): (r: Result<Option<CsvItem>, ConvertError>)
    ensures r.Ok? && r.value.Some? ==> r.value.value.typeName in LINE_TYPES && r.value.value.typeName != "STRUCTURE"
  {
    match Scan(line)
    case None => Ok(None)
    case Some((_, f)) =>
      if f.typeName == "STRUCTURE" then Ok(None)
      else
        match ConvertScalar(f.typeName, f.value)
        case Err(e) => Err(e)
        case Ok(v) => Ok(Some(CsvItem(f.tag, f.typeName, v)))
  }

  /** The CSV reading of what the JSON converter's parser returns: the
      indentation dropped and a structure line not kept. */
  function Kept(r: Result<Option<Json.Parsed>, ConvertError>): Result<Option<CsvItem>, ConvertError> {
    match r
    case Err(e) => Err(e)
    case Ok(None) => Ok(None)
    case Ok(Some(p)) =>
      match p.value
      case None => Ok(None)
      case Some(v) => Ok(Some(CsvItem(p.tag, p.typeName, v)))
  }

  /** The two `parse_structured_line` functions agree: the CSV one is the
      JSON one with the indentation dropped and structure lines skipped, and
      the two fail on the same lines. */
  lemma ParseAgreesWithJson(line: string)
    ensures ParseLine(line) == Kept(Json.ParseLine(line))
    ensures ParseLine(line).Err? <==> Json.ParseLine(line).Err?
  {
    match Scan(line) {
      case None =>
      case Some((indent, f)) =>
        hide Scan, ConvertScalar;
        if f.typeName == "STRUCTURE" {
          assert Json.ParseLine(line) == Ok(Some(Json.Parsed(f.tag, f.typeName, indent, None)));
        } else {
          match ConvertScalar(f.typeName, f.value) {
            case Err(e) =>
              assert Json.ParseLine(line) == Err(e);
            case Ok(v) =>
              assert Json.ParseLine(line) == Ok(Some(Json.Parsed(f.tag, f.typeName, indent, Some(v))));
          }
        }
    }
  }

  /** `[parsed["tag"], parsed["type"], str(parsed["value"])]`. */
  function Row(it: CsvItem): seq<string> {
    [it.tag, it.typeName, ScalarText(it.value)]
  }

  /** The rows of `lines`, in order, or the first error. */
  function CsvRows(lines: seq<string>): Result<seq<seq<string>>, ConvertError> {
    if lines == [] then Ok([])
    else
      match CsvRows(lines[..|lines| - 1])
      case Err(e) => Err(e)
      case Ok(rows) =>
        match ParseLine(lines[|lines| - 1])
        case Err(e) => Err(e)
        case Ok(None) => Ok(rows)
        case Ok(Some(it)) => Ok(rows + [Row(it)])
  }

  /** `convert_structured_to_csv(structured_text)`. */
  method ConvertStructuredToCsv(structuredText: string) returns (r: Result<seq<seq<string>>, ConvertError>)
    ensures r == CsvRows(Lines(structuredText))
  {
    var lines := Split(Strip(structuredText), '\n');
    hide CsvRows, ParseLine, Scan;
    var csvRows := [];
    var k := 0;
    CsvRowsNone(lines);
    while k < |lines|
      invariant k <= |lines|
      invariant CsvRows(lines[..k]) == Ok(csvRows)
    {
      CsvRowsNext(lines, k);
      var parsed := ParseLine(lines[k]);
      match parsed {
        case Err(e) =>
          CsvRowsErrPersists(lines, k + 1);
          return Err(e);
        case Ok(None) =>
        case Ok(Some(it)) =>
          csvRows := csvRows + [Row(it)];
      }
      k := k + 1;
    }
    assert lines[..k] == lines;
    return Ok(csvRows);
  }

  lemma CsvRowsNone(lines: seq<string>)
    ensures CsvRows(lines[..0]) == Ok([])
  {
    assert lines[..0] == [];
  }

  /** One more line converted. */
  lemma CsvRowsNext(lines: seq<string>, k: nat)
    requires k < |lines|
    ensures CsvRows(lines[..k + 1])
            == match CsvRows(lines[..k])
               case Err(e) => Err(e)
               case Ok(rows) =>
                 match ParseLine(lines[k])
                 case Err(e) => Err(e)
                 case Ok(None) => Ok(rows)
                 case Ok(Some(it)) => Ok(rows + [Row(it)])
  {
    assert lines[..k + 1][..k] == lines[..k];
  }

  /** Once a prefix of the lines fails, so do the lines. */
  lemma {:induction false} CsvRowsErrPersists(lines: seq<string>, k: nat)
    requires k <= |lines| && CsvRows(lines[..k]).Err?
    ensures CsvRows(lines) == CsvRows(lines[..k])
    decreases |lines| - k
  {
    if k < |lines| {
      assert lines[..k + 1][..k] == lines[..k];
      CsvRowsErrPersists(lines, k + 1);
    } else {
      assert lines[..k] == lines;
    }
  }

  /** Every row has three fields, the second one the type of a scalar, and
      there is at most one row per line. */
  lemma {:induction false} CsvRowsShape(lines: seq<string>)
    ensures CsvRows(lines).Ok? ==>
              |CsvRows(lines).value| <= |lines|
              && forall row :: row in CsvRows(lines).value ==>
                   |row| == 3 && row[1] in LINE_TYPES && row[1] != "STRUCTURE"
  {
    if lines != [] {
      CsvRowsShape(lines[..|lines| - 1]);
    }
  }

  // ---------------------------------------------------------------------
  // The CSV rows are the scalar leaves of the JSON elements

  /** The rows of the scalar entries of a document-order listing. */
  function EntryRows(es: seq<Json.Entry>): seq<seq<string>> {
    if es == [] then []
    else
      (match es[0].value
       case Some(v) => [[es[0].tag, es[0].typeName, ScalarText(v)]]
       case None => [])
      + EntryRows(es[1..])
  }

  lemma {:induction false} EntryRowsAppend(a: seq<Json.Entry>, b: seq<Json.Entry>)
    ensures EntryRows(a + b) == EntryRows(a) + EntryRows(b)
  {
    if a == [] {
      assert a + b == b;
    } else {
      assert (a + b)[0] == a[0] && (a + b)[1..] == a[1..] + b;
      EntryRowsAppend(a[1..], b);
    }
  }

  /** The CSV converter fails exactly when the JSON converter's parsing
      fails, and otherwise its rows are the scalar lines the JSON converter
      parsed, in order. */
  lemma {:induction false} CsvRowsAreParsedScalars(lines: seq<string>)
    ensures CsvRows(lines).Err? <==> Json.ParsedLines(lines).Err?
    ensures Json.ParsedLines(lines).Ok? ==>
              CsvRows(lines) == Ok(EntryRows(Json.Sigs(Json.ParsedLines(lines).value)))
  {
    if lines == [] {
      assert Json.Sigs([]) == [];
    } else {
      var init := lines[..|lines| - 1];
      var last := lines[|lines| - 1];
      CsvRowsAreParsedScalars(init);
      ParseAgreesWithJson(last);
      UnfoldBoth(lines);
      hide CsvRows, Json.ParsedLines, ParseLine, Json.ParseLine, Scan, EntryRows, Json.Sigs;
      if Json.ParsedLines(init).Ok? && Json.ParseLine(last).Ok? {
        var ps := Json.ParsedLines(init).value;
        var rows := EntryRows(Json.Sigs(ps));
        assert CsvRows(init) == Ok(rows);
        match Json.ParseLine(last).value {
          case None =>
            assert ParseLine(last) == Ok(None);
            assert CsvRows(lines) == Ok(rows);
            assert Json.ParsedLines(lines) == Ok(ps);
          case Some(p) =>
            SigsSnoc(ps, p);
            assert Json.ParsedLines(lines) == Ok(ps + [p]);
            match p.value {
              case None =>
                assert ParseLine(last) == Ok(None);
                assert CsvRows(lines) == Ok(rows);
                assert EntryRows(Json.Sigs(ps + [p])) == rows + [] == rows;
              case Some(v) =>
                assert ParseLine(last) == Ok(Some(CsvItem(p.tag, p.typeName, v)));
                assert CsvRows(lines) == Ok(rows + [Row(CsvItem(p.tag, p.typeName, v))]);
            }
        }
      }
    }
  }

  /** One step of `CsvRows` and of the JSON converter's `ParsedLines`. */
  lemma UnfoldBoth(lines: seq<string>)
    requires lines != []
    ensures var init, last := lines[..|lines| - 1], lines[|lines| - 1];
            CsvRows(lines)
            == match CsvRows(init)
               case Err(e) => Err(e)
               case Ok(rows) =>
                 match ParseLine(last)
                 case Err(e) => Err(e)
                 case Ok(None) => Ok(rows)
                 case Ok(Some(it)) => Ok(rows + [Row(it)])
    ensures var init, last := lines[..|lines| - 1], lines[|lines| - 1];
            Json.ParsedLines(lines)
            == match Json.ParsedLines(init)
               case Err(e) => Err(e)
               case Ok(ps) =>
                 match Json.ParseLine(last)
                 case Err(e) => Err(e)
                 case Ok(None) => Ok(ps)
                 case Ok(Some(p)) => Ok(ps + [p])
  {
  }

  /** A parsed line added at the end adds its row, if it has one, at the end. */
  lemma SigsSnoc(ps: seq<Json.Parsed>, p: Json.Parsed)
    ensures EntryRows(Json.Sigs(ps + [p]))
            == EntryRows(Json.Sigs(ps)) + (match p.value case Some(v) => [Row(CsvItem(p.tag, p.typeName, v))] case None => [])
  {
    assert Json.Sigs(ps + [p]) == Json.Sigs(ps) + [Json.Sig(p)];
    EntryRowsAppend(Json.Sigs(ps), [Json.Sig(p)]);
    assert [Json.Sig(p)][1..] == [];
  }

  /** For text whose lines are never indented more than one level below the
      line before them, the CSV rows are exactly the scalar elements of the
      JSON output, in document order. */
  lemma CsvRowsAreJsonLeaves(text: string)
    requires Json.ParsedLines(Lines(text)).Ok?
    requires Json.WellNested(Json.ParsedLines(Lines(text)).value)
    ensures CsvRows(Lines(text)) == Ok(EntryRows(Json.Flat(Json.Forest(Json.ParsedLines(Lines(text)).value))))
  {
    var ps := Json.ParsedLines(Lines(text)).value;
    Json.ParsedLinesKept(Lines(text));
    assert Json.AllValid(ps) by {
      forall k | 0 <= k < |ps|
        ensures Json.Valid(ps[k])
      {
        assert ps[k] in ps;
      }
    }
    Json.ForestExact(ps);
    CsvRowsAreParsedScalars(Lines(text));
  }
}
