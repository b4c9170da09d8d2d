/**
 * `toString` of csvmatrix: every row's fields re-quoted by `quote_escape`,
 * each row written by the array's own `toString` (fields joined by `,`,
 * whatever the delimiter), the header names in front unescaped, lines joined
 * by a line break and one more line break at the end.
 */
module Serializer {
  import opened Wrappers
  import opened Strings
  import opened Fields
  import opened Table

  /** One row as an output line. */
  function EscapeRow(row: Row, delim: char): string
  {
    Join(EscapeAll(row, delim), ',')
  }

  /** The header line, if there are header names. */
  function HeaderLines(colNames: Option<seq<string>>): seq<string>
  {
    match colNames
    case None => []
    case Some(names) => [Join(names, ',')]
  }

  /** One output line per row. */
  function BodyLines(rows: seq<Row>, delim: char): (ls: seq<string>)
    ensures |ls| == |rows|
    ensures forall i :: 0 <= i < |rows| ==> ls[i] == EscapeRow(rows[i], delim)
  {
    seq(|rows|, i requires 0 <= i < |rows| => EscapeRow(rows[i], delim))
  }

  /** The output lines, before they are joined. */
  function RecordLines(rows: seq<Row>, colNames: Option<seq<string>>, delim: char): (ls: seq<string>)
    ensures |ls| == |rows| + |HeaderLines(colNames)|
  {
    HeaderLines(colNames) + BodyLines(rows, delim)
  }

  /** The order of the output lines: the header names joined by `,` first
      when there are any, then each row's escaped values joined by `,`, in
      the order of the rows. */
  lemma RecordLinesLayout(rows: seq<Row>, colNames: Option<seq<string>>, delim: char)
    ensures |RecordLines(rows, colNames, delim)| == |rows| + (if colNames.Some? then 1 else 0)
    ensures colNames.Some? ==> RecordLines(rows, colNames, delim)[0] == Join(colNames.value, ',')
    ensures var h := if colNames.Some? then 1 else 0;
      forall i :: 0 <= i < |rows| ==> RecordLines(rows, colNames, delim)[h + i] == Join(EscapeAll(rows[i], delim), ',')
  {
    var ls, h := RecordLines(rows, colNames, delim), |HeaderLines(colNames)|;
    forall i | 0 <= i < |rows| ensures ls[h + i] == Join(EscapeAll(rows[i], delim), ',') {
      assert ls[h + i] == BodyLines(rows, delim)[i];
    }
  }

  /** The serialised text; it always ends in a line break. */
  function Serialize(rows: seq<Row>, colNames: Option<seq<string>>, delim: char): (text: string)
    ensures |text| > 0 && text[|text| - 1] == '\n'
  {
    Join(RecordLines(rows, colNames, delim), '\n') + "\n"
  }

  /** A row's output line holds no line break when its values hold none. */
  lemma EscapeRowFlat(row: Row, delim: char)
    requires forall k :: 0 <= k < |row| ==> '\n' !in row[k]
    ensures '\n' !in EscapeRow(row, delim)
  {
    forall k | 0 <= k < |row| ensures '\n' !in EscapeAll(row, delim)[k] {
      EscapeExcludes(row[k], delim, '\n');
    }
    JoinExcludes(EscapeAll(row, delim), ',', '\n');
  }

  /** The output lines hold no line break when the values hold none. */
  lemma RecordLinesFlat(rows: seq<Row>, colNames: Option<seq<string>>, delim: char)
    requires NoLineBreaks(rows, colNames)
    ensures forall k :: 0 <= k < |RecordLines(rows, colNames, delim)| ==> '\n' !in RecordLines(rows, colNames, delim)[k]
  {
    var ls := RecordLines(rows, colNames, delim);
    var h := |HeaderLines(colNames)|;
    if colNames.Some? {
      JoinExcludes(colNames.value, ',', '\n');
    }
    forall k | 0 <= k < |ls| ensures '\n' !in ls[k] {
      if k >= h {
        EscapeRowFlat(rows[k - h], delim);
        assert ls[k] == EscapeRow(rows[k - h], delim);
      }
    }
  }

  /** The layout: the header line if any, then one line per row, each ended
      by exactly one line break. */
  lemma SerializeLayout(rows: seq<Row>, colNames: Option<seq<string>>, delim: char)
    requires |rows| > 0 || colNames.Some?
    requires NoLineBreaks(rows, colNames)
    ensures Split(Serialize(rows, colNames, delim), '\n') == RecordLines(rows, colNames, delim) + [""]
  {
    var ls := RecordLines(rows, colNames, delim);
    RecordLinesFlat(rows, colNames, delim);
    JoinSnoc(ls, "", '\n');
    assert Join(ls, '\n') + "\n" == Join(ls + [""], '\n');
    SplitJoin(ls + [""], '\n');
  }

  /** The escaped row is the first escaped value, then the others. */
  lemma EscapeAllCons(row: Row, delim: char)
    requires |row| > 0
    ensures EscapeAll(row, delim) == [QuoteEscape(row[0], delim)] + EscapeAll(row[1..], delim)
  {
    var es, rest := EscapeAll(row, delim), EscapeAll(row[1..], delim);
    forall k | 0 <= k < |es| ensures es[k] == ([QuoteEscape(row[0], delim)] + rest)[k] {
      if k > 0 {
        assert row[1..][k - 1] == row[k];
      }
    }
  }

  /** The output line of a row of two or more values: the first escaped
      value, a comma, then the line of the other values. */
  lemma EscapeRowCons(row: Row, delim: char)
    requires |row| > 1
    ensures EscapeRow(row, delim) == QuoteEscape(row[0], delim) + ([','] + EscapeRow(row[1..], delim))
  {
    EscapeAllCons(row, delim);
    var es := EscapeAll(row, delim);
    assert es[1..] == EscapeAll(row[1..], delim);
  }

  /** A row of rescannable values tokenizes back into its escaped fields. */
  lemma {:induction false} TokenizeEscapedRow(row: Row, delim: char)
    requires |row| > 0
    requires forall k :: 0 <= k < |row| ==> Rescannable(row[k], delim)
    ensures Tokenize(EscapeRow(row, delim)) == EscapeAll(row, delim)
  {
    var e := QuoteEscape(row[0], delim);
    EscapeAllCons(row, delim);
    if |row| == 1 {
      assert EscapeAll(row[1..], delim) == [];
      assert EscapeRow(row, delim) == e;
      EscapedMatch(row[0], delim, []);
      assert e + [] == e;
      assert Tokenize(e) == [e[..|e|]] + Tokenize(e[|e|..]);
      assert e[..|e|] == e && e[|e|..] == [];
    } else {
      TokenizeEscapedRow(row[1..], delim);
      var j := EscapeRow(row[1..], delim);
      EscapeRowCons(row, delim);
      EscapedMatch(row[0], delim, [','] + j);
      TokenizeFront(e, [','] + j);
      SkipComma(j);
    }
  }

  /** Such a row decodes back into itself. */
  lemma ReparseRow(row: Row, delim: char)
    requires |row| > 0
    requires forall k :: 0 <= k < |row| ==> Rescannable(row[k], delim)
    ensures LineRow(Tokenize(EscapeRow(row, delim))) == [row]
  {
    TokenizeEscapedRow(row, delim);
    assert DecodeAll(EscapeAll(row, delim)) == row;
  }

  /** Lines that each give back one known row give back those rows. */
  lemma {:induction false} RowsOfRows(scanned: seq<seq<string>>, rows: seq<Row>)
    requires |scanned| == |rows|
    requires forall i :: 0 <= i < |rows| ==> LineRow(scanned[i]) == [rows[i]]
    ensures Rows(scanned) == rows
  {
    if rows != [] {
      var n := |rows| - 1;
      RowsOfRows(scanned[..n], rows[..n]);
      assert rows[..n] + [rows[n]] == rows;
    }
  }

  /** The values that survive a re-parse: every row holds a field, and every
      field comes back as one token.  With a header, the delimiter is `,`
      and no name holds `,` or a line break. */
  predicate Reparseable(rows: seq<Row>, colNames: Option<seq<string>>, delim: char)
  {
    (forall i :: 0 <= i < |rows| ==> |rows[i]| > 0) &&
    (forall i, k :: 0 <= i < |rows| && 0 <= k < |rows[i]| ==> Rescannable(rows[i][k], delim)) &&
    (colNames.Some? ==>
      delim == ',' && |colNames.value| > 0 &&
      forall k :: 0 <= k < |colNames.value| ==> ',' !in colNames.value[k] && '\n' !in colNames.value[k])
  }

  /** Parsing the serialised text, with the same delimiter and header mode,
      gives back the header names and the rows. */
  lemma ReparseSerialized(rows: seq<Row>, colNames: Option<seq<string>>, delim: char)
    requires |rows| > 0
    requires Reparseable(rows, colNames, delim)
    ensures var text := Serialize(rows, colNames, delim);
      var opts := Options(Some(delim), colNames.Some?, None);
      HeaderOf(text, opts) == colNames &&
      Rows(Scanned(DataLines(text, colNames.Some?))) == rows
  {
    SerializedLines(rows, colNames, delim);
    BodyRows(rows, delim);
  }

  /** The text lines of the serialised text: the header line as given, then
      the body lines and the empty piece after the final line break. */
  lemma SerializedLines(rows: seq<Row>, colNames: Option<seq<string>>, delim: char)
    requires |rows| > 0
    requires Reparseable(rows, colNames, delim)
    ensures var text := Serialize(rows, colNames, delim);
      var opts := Options(Some(delim), colNames.Some?, None);
      HeaderOf(text, opts) == colNames &&
      DataLines(text, colNames.Some?) == BodyLines(rows, delim) + [""]
  {
    var text := Serialize(rows, colNames, delim);
    var pieces := Split(text, '\n');
    var body := BodyLines(rows, delim) + [""];
    assert NoLineBreaks(rows, colNames) by {
      forall i, k | 0 <= i < |rows| && 0 <= k < |rows[i]| ensures '\n' !in rows[i][k] {
        assert Rescannable(rows[i][k], delim);
      }
    }
    SerializeLayout(rows, colNames, delim);
    assert pieces == HeaderLines(colNames) + body;
    if colNames.Some? {
      assert pieces[0] == Join(colNames.value, ',');
      assert pieces[1..] == body;
      SplitJoin(colNames.value, ',');
    } else {
      assert pieces == body;
    }
  }

  /** The body lines, and the empty last piece, parse back into the rows. */
  lemma BodyRows(rows: seq<Row>, delim: char)
    requires Reparseable(rows, None, delim)
    ensures Rows(Scanned(BodyLines(rows, delim) + [""])) == rows
  {
    var body := BodyLines(rows, delim);
    ScannedAppend(body, [""]);
    assert Scanned([""]) == [[]] by {
      assert Tokenize("") == [];
    }
    forall i | 0 <= i < |rows| ensures LineRow(Scanned(body)[i]) == [rows[i]] {
      ReparseRow(rows[i], delim);
    }
    RowsOfRows(Scanned(body), rows);
    RowsAppend(Scanned(body), [[]]);
    RowsSingle([]);
  }

  /** An empty field leaves no token behind, so a re-parse loses it. */
  lemma EmptyFieldVanishes()
    ensures Tokenize(EscapeRow(["", "x"], ',')) == ["x"]
  {
    var line := EscapeRow(["", "x"], ',');
    assert EscapeAll(["", "x"], ',') == ["", "x"];
    assert line == [','] + "x";
    SkipComma("x");
    assert MatchLength("x") == 1 by {
      RunMatch("x", []);
      assert "x" + [] == "x";
    }
    assert "x"[..1] == "x" && "x"[1..] == [];
    assert Tokenize("x") == ["x"];
  }

  /** A pipe in a value that needs no quoting becomes a field separator. */
  lemma PipeSplitsField()
    ensures Tokenize(EscapeRow(["a|b"], ',')) == ["a", "b"]
  {
    var line := EscapeRow(["a|b"], ',');
    assert EscapeAll(["a|b"], ',') == ["a|b"];
    assert line == "a|b";
    RunMatch("a", "|b");
    assert "a" + "|b" == line;
    assert line[1..] == "|b" && "|b"[1..] == "b";
    RunMatch("b", []);
    assert "b" + [] == "b";
  }
}
