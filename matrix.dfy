/**
 * The `CSVMatrix` class: the rows (`_lines`), their transpose (`_columns`),
 * the header names (`col_names`) and the lookups the original attaches to the
 * object as properties, here held as explicit maps: composite key → row,
 * text-line index → row, header name → column.
 */
module Matrix {
  import opened Wrappers
  import opened Strings
  import opened Fields
  import opened Table
  import opened Serializer

  /** The outcome of a read: a value, `undefined`, or a thrown TypeError. */
  datatype Access<T> = Found(value: T) | Undefined | TypeError

  class CSVMatrix {
    /** `_lines`: the rows, in input order. */
    var lines: seq<Row>
    /** `_columns`: the transpose, rebuilt by SyncTranspose. */
    var columns: seq<seq<string>>
    var delim: char
    /** `col_names`, or `null` (None) without the header option. */
    var colNames: Option<seq<string>>
    /** `this[line_array_key]` and `this[line_array_key.join("|")]`: key to row position. */
    var keyIndex: map<string, nat>
    /** `this[index]`: text-line index to row position. */
    var lineIndex: map<nat, nat>
    /** `this[col_names[icol]]`: header name to column position. */
    var colIndex: map<string, nat>
    /** The tokens of each text line read, header excluded. */
    ghost var scanned: seq<seq<string>>
    /** `opts.keys`. */
    ghost var keyCols: Option<seq<nat>>

    /** The transpose and the header lookups agree with the current rows. */
    ghost predicate Valid()
      reads this
    {
      |lines| > 0 && Rectangular(lines) &&
      columns == Transpose(lines) &&
      colIndex == NameIndex(colNames, |lines[0]|)
    }

    /** The rows and the two lookups the constructor fills are those of the
        text lines read. */
    ghost predicate Indexed()
      reads this`lines, this`lineIndex, this`keyIndex, this`scanned, this`keyCols
    {
      lines == Rows(scanned) &&
      lineIndex == LineIndex(scanned) &&
      keyIndex == (if keyCols.Some? then KeyIndex(lines, keyCols.value) else map[])
    }

    /** `new CSVMatrix(csv_text, opts)`.  The original reads `_lines[0]` when
        it builds the transpose, so text without a data row throws; rows of
        different lengths are not supported. */
    constructor (text: string, opts: Options)
      requires |Rows(Scanned(DataLines(text, opts.header)))| > 0
      requires Rectangular(Rows(Scanned(DataLines(text, opts.header))))
      ensures Valid()
      ensures delim == DelimOf(opts)
      ensures colNames == HeaderOf(text, opts)
      ensures lines == Rows(Scanned(DataLines(text, opts.header)))
      ensures keyIndex == if opts.keys.Some? then KeyIndex(lines, opts.keys.value) else map[]
      ensures lineIndex == LineIndex(Scanned(DataLines(text, opts.header)))
      ensures NoLineBreaks(lines, colNames)
      ensures scanned == Scanned(DataLines(text, opts.header)) && keyCols == opts.keys && Indexed()
    {
      var textLines := Split(text, '\n');
      var d := DelimOf(opts);
      var names := if opts.header then Some(Split(textLines[0], d)) else None;
      assert names == HeaderOf(text, opts);
      delim := d;
      colNames := names;
      if opts.header {
        textLines := textLines[1..];
      }
      lines := [];
      keyIndex := map[];
      lineIndex := map[];
      assert textLines == DataLines(text, opts.header);
      new;
      Load(textLines, opts.keys);
      NoLineBreaksRead(text, opts);
    }

    /** The constructor's work once the header line is taken: the `forEach`
        over the text lines, from an object with no rows, then
        `_sync_transpose`. */
    method Load(textLines: seq<string>, keys: Option<seq<nat>>)
      requires lines == [] && keyIndex == map[] && lineIndex == map[]
      requires |Rows(Scanned(textLines))| > 0 && Rectangular(Rows(Scanned(textLines)))
      modifies this`lines, this`keyIndex, this`lineIndex, this`columns, this`colIndex
      modifies this`scanned, this`keyCols
      ensures Valid() && Indexed()
      ensures scanned == Scanned(textLines) && keyCols == keys
    {
      ReadLines(textLines, keys);
      Remember(textLines, keys);
      SyncTranspose();
    }

    /** Record, for the proofs, the tokens of the lines read and the key
        columns. */
    ghost method Remember(textLines: seq<string>, keys: Option<seq<nat>>)
      requires lines == Rows(Scanned(textLines))
      requires keyIndex == if keys.Some? then KeyIndex(lines, keys.value) else map[]
      requires lineIndex == LineIndex(Scanned(textLines))
      modifies this`scanned, this`keyCols
      ensures scanned == Scanned(textLines) && keyCols == keys && Indexed()
    {
      scanned := Scanned(textLines);
      keyCols := keys;
    }

    /** The constructor's `forEach` over the text lines, from an object with
        no rows. */
    method ReadLines(textLines: seq<string>, keys: Option<seq<nat>>)
      requires lines == [] && keyIndex == map[] && lineIndex == map[]
      modifies this`lines, this`keyIndex, this`lineIndex
      ensures lines == Rows(Scanned(textLines))
      ensures keyIndex == if keys.Some? then KeyIndex(lines, keys.value) else map[]
      ensures lineIndex == LineIndex(Scanned(textLines))
    {
      ghost var scanned := Scanned(textLines);
      var index := 0;
      assert scanned[..index] == [];
      while index < |textLines|
        invariant 0 <= index <= |textLines|
        invariant ReadUpTo(scanned, index, keys, lines, keyIndex, lineIndex)
      {
        AddLine(textLines[index], index, keys, scanned);
        index := index + 1;
      }
      assert scanned[..index] == scanned;
    }

    /** The body of the constructor's `forEach` over the text lines: a line
        that yields tokens becomes a row; its keys, if any, and its text-line
        index are registered under the row's position. */
    method AddLine(lineStr: string, index: nat, keys: Option<seq<nat>>, ghost scanned: seq<seq<string>>)
      requires index < |scanned| && scanned[index] == Tokenize(lineStr)
      requires ReadUpTo(scanned, index, keys, lines, keyIndex, lineIndex)
      modifies this`lines, this`keyIndex, this`lineIndex
      ensures ReadUpTo(scanned, index + 1, keys, lines, keyIndex, lineIndex)
      ensures Tokenize(lineStr) == [] ==>
        lines == old(lines) && keyIndex == old(keyIndex) && lineIndex == old(lineIndex)
      ensures Tokenize(lineStr) != [] ==>
        var line := DecodeAll(Tokenize(lineStr));
        lines == old(lines) + [line] &&
        keyIndex == ReadKey(keys, old(keyIndex), line, |old(lines)|) &&
        lineIndex == old(lineIndex)[index := |old(lines)|]
    {
      ReadStep(scanned, index, keys, lines, keyIndex, lineIndex);
      var fields := Tokenize(lineStr);
      if fields == [] {
        return;
      }
      var line := DecodeAll(fields);
      if keys.Some? {
        var lineArrayKey := KeyValues(line, keys.value);
        keyIndex := keyIndex[Join(lineArrayKey, ',') := |lines|][Join(lineArrayKey, '|') := |lines|];
      }
      lineIndex := lineIndex[index := |lines|];
      lines := lines + [line];
    }

    /** `_sync_transpose`: rebuild the columns from the current rows, one
        column per position of row 0, and register each column under its
        header name. */
    method SyncTranspose()
      requires |lines| > 0 && Rectangular(lines)
      modifies this`columns, this`colIndex
      ensures Valid()
      ensures |columns| == |lines[0]|
      ensures forall j :: 0 <= j < |columns| ==> |columns[j]| == |lines|
      ensures forall j, i :: 0 <= j < |columns| && 0 <= i < |lines| ==> columns[j][i] == lines[i][j]
    {
      columns := [];
      colIndex := map[];
      var icol := 0;
      while icol < |lines[0]|
        invariant 0 <= icol <= |lines[0]|
        invariant |columns| == icol
        invariant forall j :: 0 <= j < icol ==> |columns[j]| == |lines|
        invariant forall j, i :: 0 <= j < icol && 0 <= i < |lines| ==> columns[j][i] == lines[i][j]
        invariant colIndex == NameIndex(colNames, icol)
      {
        var column := [];
        var i := 0;
        while i < |lines|
          invariant 0 <= i <= |lines|
          invariant |column| == i
          invariant forall k :: 0 <= k < i ==> column[k] == lines[k][icol]
        {
          column := column + [lines[i][icol]];
          i := i + 1;
        }
        columns := columns + [column];
        if colNames.Some? && icol < |colNames.value| {
          colIndex := colIndex[colNames.value[icol] := icol];
        }
        icol := icol + 1;
      }
      TransposeUnique(lines, columns);
    }

    /** `get(index)`: the row at 0-based position `index`, or `undefined`. */
    function Get(index: int): (r: Option<Row>)
      reads this
      ensures r.Some? <==> 0 <= index < |lines|
      ensures r.Some? ==> r.value == lines[index]
      ensures Valid() && r.Some? ==>
        |r.value| == |columns| && forall j :: 0 <= j < |columns| ==> r.value[j] == columns[j][index]
    {
      if 0 <= index < |lines| then Some(lines[index]) else None
    }

    /** `get array()`: the rows. */
    function Array(): (rows: seq<Row>)
      reads this
      ensures rows == lines
      ensures Valid() ==> (|rows| > 0 &&
        (forall i :: 0 <= i < |rows| ==> |rows[i]| == |columns|) &&
        forall i, j :: 0 <= i < |rows| && 0 <= j < |rows[i]| ==>
          j < |columns| && i < |columns[j]| && rows[i][j] == columns[j][i])
    {
      lines
    }

    /** `get transp()`: the columns, the transpose of the rows when valid. */
    function Transp(): (cols: seq<seq<string>>)
      reads this
      ensures Valid() ==> cols == Transpose(lines)
      ensures Valid() ==> (|cols| == |lines[0]| &&
        (forall j :: 0 <= j < |cols| ==> |cols[j]| == |lines|) &&
        forall j, i :: 0 <= j < |cols| && 0 <= i < |lines| ==> i < |cols[j]| && cols[j][i] == lines[i][j])
    {
      columns
    }

    /** `m[index]`: the row registered under text-line index `index`, which
        the skipped lines before it make differ from `get(index)`. */
    function At(index: int): (r: Option<Row>)
      reads this
      ensures r.Some? <==> index >= 0 && index in lineIndex && lineIndex[index] < |lines|
      ensures r.Some? ==> r.value == lines[lineIndex[index]]
      ensures Indexed() ==> (r.Some? <==> 0 <= index < |scanned| && scanned[index] != [])
      ensures Indexed() && r.Some? ==> r.value == DecodeAll(scanned[index])
    {
      if index < 0 then None
      else
        LineIndexAt(scanned, index);
        if index in lineIndex && lineIndex[index] < |lines| then Some(lines[lineIndex[index]]) else None
    }

    /** `lin(n)` with a number: the row at 1-based position `n`. */
    function Lin(n: int): (r: Option<Row>)
      reads this
      ensures r.Some? <==> 1 <= n <= |lines|
      ensures r.Some? ==> r.value == lines[n - 1]
    {
      Get(n - 1)
    }

    /** `lin(k1, k2, ...)`, `lin([k1, k2])` or `lin("k1|k2")`: the arguments,
        flattened, name the property `String(args)`, their `,`-join. */
    function LinByKey(args: seq<string>): (r: Option<Row>)
      reads this
      ensures r.Some? <==> Join(args, ',') in keyIndex && keyIndex[Join(args, ',')] < |lines|
      ensures r.Some? ==> r.value == lines[keyIndex[Join(args, ',')]]
      ensures Indexed() && keyCols.None? ==> r.None?
      ensures Indexed() && keyCols.Some? ==>
        (r.Some? <==> exists i :: 0 <= i < |lines| && IsKeyOf(lines[i], keyCols.value, Join(args, ',')))
      ensures Indexed() && keyCols.Some? && r.Some? ==>
        exists i :: 0 <= i < |lines| && r.value == lines[i] && IsKeyOf(lines[i], keyCols.value, Join(args, ',')) &&
          forall j :: i < j < |lines| ==> !IsKeyOf(lines[j], keyCols.value, Join(args, ','))
    {
      var k := Join(args, ',');
      KeyIndexLastWins(lines, if keyCols.Some? then keyCols.value else [], k);
      if k in keyIndex && keyIndex[k] < |lines| then Some(lines[keyIndex[k]]) else None
    }

    /** `col(n)` with a number: the column at 1-based position `n`. */
    function Col(n: int): (r: Option<seq<string>>)
      reads this
      ensures r.Some? <==> 1 <= n <= |columns|
      ensures r.Some? ==> r.value == columns[n - 1]
      ensures Valid() && r.Some? ==>
        |r.value| == |lines| && forall i :: 0 <= i < |lines| ==> r.value[i] == lines[i][n - 1]
    {
      if 1 <= n <= |columns| then Some(columns[n - 1]) else None
    }

    /** `col(name)`: the column registered under a header name. */
    function ColByName(name: string): (r: Option<seq<string>>)
      reads this
      ensures r.Some? <==> name in colIndex && colIndex[name] < |columns|
      ensures r.Some? ==> r.value == columns[colIndex[name]]
      ensures Valid() && colNames.None? ==> r.None?
      ensures Valid() && colNames.Some? ==>
        (r.Some? <==> exists j :: 0 <= j < |lines[0]| && j < |colNames.value| && colNames.value[j] == name)
      ensures Valid() && r.Some? ==>
        var j := colIndex[name];
        colNames.Some? && j < |colNames.value| && colNames.value[j] == name &&
        (forall j' :: j < j' < |lines[0]| && j' < |colNames.value| ==> colNames.value[j'] != name) &&
        |r.value| == |lines| && forall i :: 0 <= i < |lines| ==> r.value[i] == lines[i][j]
    {
      ColumnName(colNames, if |lines| > 0 then |lines[0]| else 0, name);
      if name in colIndex && colIndex[name] < |columns| then Some(columns[colIndex[name]]) else None
    }

    /** `cell(nlin, ncol)`: reading past the rows throws (`undefined` has no
        fields); reading past the fields of a row is `undefined`. */
    function Cell(nlin: int, ncol: int): (r: Access<string>)
      reads this
      ensures r.TypeError? <==> !(1 <= nlin <= |lines|)
      ensures r.Found? <==> 1 <= nlin <= |lines| && 1 <= ncol <= |lines[nlin - 1]|
      ensures r.Found? ==> r.value == lines[nlin - 1][ncol - 1]
      ensures Valid() && r.Found? ==> r.value == columns[ncol - 1][nlin - 1]
    {
      if !(1 <= nlin <= |lines|) then TypeError
      else if 1 <= ncol <= |lines[nlin - 1]| then Found(lines[nlin - 1][ncol - 1])
      else Undefined
    }

    /** `toString()`: the header line, then one escaped line per row, each
        followed by a line break. */
    function ToString(): (text: string)
      reads this
      ensures |text| > 0 && text[|text| - 1] == '\n'
      ensures (|lines| > 0 || colNames.Some?) && NoLineBreaks(lines, colNames) ==>
        Split(text, '\n') == RecordLines(lines, colNames, delim) + [""]
    {
      if (|lines| > 0 || colNames.Some?) && NoLineBreaks(lines, colNames) then
        SerializeLayout(lines, colNames, delim);
        Serialize(lines, colNames, delim)
      else
        Serialize(lines, colNames, delim)
    }
  }

  /** What the header lookup holds for a name, for the first `n` columns. */
  lemma ColumnName(colNames: Option<seq<string>>, n: nat, name: string)
    ensures colNames.None? ==> name !in NameIndex(colNames, n)
    ensures colNames.Some? ==>
      (name in NameIndex(colNames, n) <==> exists j :: 0 <= j < n && j < |colNames.value| && colNames.value[j] == name)
    ensures colNames.Some? && name in NameIndex(colNames, n) ==>
      var j := NameIndex(colNames, n)[name];
      j < n && j < |colNames.value| && colNames.value[j] == name &&
      forall j' :: j < j' < n && j' < |colNames.value| ==> colNames.value[j'] != name
  {
    if colNames.Some? {
      var names := colNames.value;
      NamesUpToLastWins(names, if n < |names| then n else |names|, name);
    }
  }

  /** The state after the constructor's loop has read the first `index` text
      lines (their tokens in `scanned`). */
  ghost predicate ReadUpTo(scanned: seq<seq<string>>, index: nat, keys: Option<seq<nat>>,
                           lines: seq<Row>, keyIndex: map<string, nat>, lineIndex: map<nat, nat>)
    requires index <= |scanned|
  {
    lines == Rows(scanned[..index]) &&
    keyIndex == (if keys.Some? then KeyIndex(lines, keys.value) else map[]) &&
    lineIndex == LineIndex(scanned[..index])
  }

  /** The key map after registering `row` at `position`, if keys are on. */
  function ReadKey(keys: Option<seq<nat>>, keyIndex: map<string, nat>, row: Row, position: nat): (r: map<string, nat>)
    ensures keys.Some? ==> CommaKey(row, keys.value) in r && PipeKey(row, keys.value) in r
    ensures keys.Some? ==> r[CommaKey(row, keys.value)] == position && r[PipeKey(row, keys.value)] == position
    ensures keys.None? ==> r == keyIndex
    ensures keys.Some? ==> r.Keys == keyIndex.Keys + {CommaKey(row, keys.value), PipeKey(row, keys.value)}
    ensures keys.Some? ==> forall k :: k in keyIndex && k != CommaKey(row, keys.value) && k != PipeKey(row, keys.value) ==>
      r[k] == keyIndex[k]
  {
    if keys.Some? then keyIndex[CommaKey(row, keys.value) := position][PipeKey(row, keys.value) := position]
    else keyIndex
  }

  /** One turn of the constructor's loop keeps ReadUpTo. */
  lemma ReadStep(scanned: seq<seq<string>>, index: nat, keys: Option<seq<nat>>,
                 lines: seq<Row>, keyIndex: map<string, nat>, lineIndex: map<nat, nat>)
    requires index < |scanned|
    requires ReadUpTo(scanned, index, keys, lines, keyIndex, lineIndex)
    ensures scanned[index] == [] ==> ReadUpTo(scanned, index + 1, keys, lines, keyIndex, lineIndex)
    ensures scanned[index] != [] ==>
      var line := DecodeAll(scanned[index]);
      ReadUpTo(scanned, index + 1, keys, lines + [line],
               ReadKey(keys, keyIndex, line, |lines|), lineIndex[index := |lines|])
  {
    BuildStep(scanned, index);
    if scanned[index] != [] && keys.Some? {
      KeyIndexStep(lines, DecodeAll(scanned[index]), keys.value);
    }
  }

  /** What one more text line adds to the rows and to the line index. */
  lemma BuildStep(scanned: seq<seq<string>>, index: nat)
    requires index < |scanned|
    ensures Rows(scanned[..index + 1]) == Rows(scanned[..index]) + LineRow(scanned[index])
    ensures LineIndex(scanned[..index + 1]) ==
      if scanned[index] == [] then LineIndex(scanned[..index])
      else LineIndex(scanned[..index])[index := |Rows(scanned[..index])|]
  {
    assert scanned[..index + 1][..index] == scanned[..index];
  }

  /** What one more row adds to the key registrations. */
  lemma KeyIndexStep(rows: seq<Row>, row: Row, keys: seq<nat>)
    ensures KeyIndex(rows + [row], keys) ==
      KeyIndex(rows, keys)[CommaKey(row, keys) := |rows|][PipeKey(row, keys) := |rows|]
  {
    assert (rows + [row])[..|rows|] == rows;
  }

  /** `col(name)` equals `col(i + 1)` for the header name at position `i`,
      when the header names are distinct. */
  lemma ColByNameIsCol(m: CSVMatrix, j: nat)
    requires m.Valid() && m.colNames.Some?
    requires forall a, b :: 0 <= a < b < |m.colNames.value| ==> m.colNames.value[a] != m.colNames.value[b]
    requires j < |m.colNames.value| && j < |m.columns|
    ensures m.ColByName(m.colNames.value[j]) == m.Col(j + 1) != None
  {
    NameIndexDistinct(m.colNames.value, |m.lines[0]|, j);
  }

  /** A row is found by its key, as an argument list (`lin(k1, k2)`,
      `lin([k1, k2])`) or as one pipe-joined string (`lin("k1|k2")`), when no
      later row has the same key. */
  lemma LinByKeyIsLin(m: CSVMatrix, keys: seq<nat>, i: nat)
    requires m.keyIndex == KeyIndex(m.lines, keys)
    requires i < |m.lines|
    requires forall j :: i < j < |m.lines| ==>
      !IsKeyOf(m.lines[j], keys, CommaKey(m.lines[i], keys)) &&
      !IsKeyOf(m.lines[j], keys, PipeKey(m.lines[i], keys))
    ensures m.LinByKey(KeyValues(m.lines[i], keys)) == m.Lin(i + 1) != None
    ensures m.LinByKey([PipeKey(m.lines[i], keys)]) == m.Lin(i + 1)
  {
    KeyLookup(m.lines, keys, i, CommaKey(m.lines[i], keys));
    KeyLookup(m.lines, keys, i, PipeKey(m.lines[i], keys));
  }

  /** `m[index]` equals `get(index)` when no line up to it was skipped. */
  lemma AtIsGet(m: CSVMatrix, textLines: seq<string>, index: nat)
    requires m.lines == Rows(Scanned(textLines)) && m.lineIndex == LineIndex(Scanned(textLines))
    requires index < |textLines|
    requires forall u :: 0 <= u <= index ==> Tokenize(textLines[u]) != []
    ensures m.At(index) == m.Get(index) != None
  {
    LineIndexDense(Scanned(textLines), index);
    LineIndexAt(Scanned(textLines), index);
  }
}
