/**
 * The matrix store of csvmatrix, as values: what construction produces from
 * a text and its options.  The class in the Matrix module is proved to build
 * exactly these values step by step.
 */
module Table {
  import opened Wrappers
  import opened Strings
  import opened Fields

  /** One decoded data record. */
  type Row = seq<string>

  /** `DEFAULT_DELIM`. */
  const DefaultDelim: char := ','

  /** The recognised options: `delim`, `header` and `keys` (key columns as
      0-based positions).  An absent option is `None` or `false`. */
  datatype Options = Options(delim: Option<char>, header: bool, keys: Option<seq<nat>>)

  /** `opts?.delim || DEFAULT_DELIM`. */
  function DelimOf(opts: Options): char
  {
    if opts.delim.Some? then opts.delim.value else DefaultDelim
  }

  /** The header names: the first text line split on the delimiter, with no
      quote processing; absent without the header option. */
  function HeaderOf(text: string, opts: Options): Option<seq<string>>
  {
    if opts.header then Some(Split(Split(text, '\n')[0], DelimOf(opts))) else None
  }

  /** The text lines that may hold data: all of them, or all but the first
      in header mode. */
  function DataLines(text: string, header: bool): seq<string>
  {
    var textLines := Split(text, '\n');
    if header then textLines[1..] else textLines
  }

  // ---------------------------------------------------------------------
  // Rows
  // ---------------------------------------------------------------------

  /** Each text line's tokens (`line_str.match(FIELD_REGEX)`), in order. */
  function Scanned(textLines: seq<string>): (scanned: seq<seq<string>>)
    ensures |scanned| == |textLines|
    ensures forall t :: 0 <= t < |textLines| ==> scanned[t] == Tokenize(textLines[t])
  {
    seq(|textLines|, t requires 0 <= t < |textLines| => Tokenize(textLines[t]))
  }

  /** The lines of two texts one after the other are scanned one after the
      other. */
  lemma ScannedAppend(a: seq<string>, b: seq<string>)
    ensures Scanned(a + b) == Scanned(a) + Scanned(b)
  {
    var l, r := Scanned(a + b), Scanned(a) + Scanned(b);
    forall t | 0 <= t < |a + b| ensures l[t] == r[t] {
      if t < |a| {
        assert (a + b)[t] == a[t];
      } else {
        assert (a + b)[t] == b[t - |a|];
      }
    }
  }

  /** The row one line's tokens contribute: the decoded tokens, or no row
      at all when the line yielded no token. */
  function LineRow(fields: seq<string>): (r: seq<Row>)
    ensures |r| <= 1
    ensures |r| == 1 <==> fields != []
  {
    if fields == [] then [] else [DecodeAll(fields)]
  }

  /** The rows pushed, in order, for the tokens of the text lines. */
  function Rows(scanned: seq<seq<string>>): (rows: seq<Row>)
    ensures |rows| <= |scanned|
  {
    if scanned == [] then []
    else Rows(scanned[..|scanned| - 1]) + LineRow(scanned[|scanned| - 1])
  }

  /** Every row holds at least one field. */
  lemma {:induction false} RowsNonEmpty(scanned: seq<seq<string>>, i: nat)
    requires i < |Rows(scanned)|
    ensures |Rows(scanned)[i]| > 0
    decreases |scanned|
  {
    var before := scanned[..|scanned| - 1];
    if i < |Rows(before)| {
      RowsNonEmpty(before, i);
    }
  }

  lemma {:induction false} RowsAppend(a: seq<seq<string>>, b: seq<seq<string>>)
    ensures Rows(a + b) == Rows(a) + Rows(b)
    decreases |b|
  {
    if b == [] {
      assert a + b == a;
    } else {
      var b' := b[..|b| - 1];
      assert (a + b)[..|a + b| - 1] == a + b';
      RowsAppend(a, b');
    }
  }

  lemma RowsSingle(fields: seq<string>)
    ensures Rows([fields]) == LineRow(fields)
  {
    assert [fields][..0] == [];
  }

  /** A sequence cut around one of its elements. */
  lemma Cut<T>(s: seq<T>, t: nat)
    requires t < |s|
    ensures s == s[..t] + ([s[t]] + s[t + 1..])
  {
  }

  /** A prefix of a prefix. */
  lemma TakeTake<T>(s: seq<T>, n: nat, t: nat)
    requires t < n <= |s|
    ensures s[..n][..t] == s[..t] && s[..n][t] == s[t]
  {
  }

  lemma RowsAround(s: seq<seq<string>>, a: seq<seq<string>>, x: seq<string>, c: seq<seq<string>>)
    requires s == a + ([x] + c)
    ensures Rows(s) == Rows(a) + LineRow(x) + Rows(c)
  {
    RowsAppend(a, [x] + c);
    RowsAppend([x], c);
    RowsSingle(x);
  }

  /** The rows of the lines before line `t`, then the row of line `t`, then
      the rows of the lines after it. */
  lemma RowsAt(scanned: seq<seq<string>>, t: nat)
    requires t < |scanned|
    ensures Rows(scanned) == Rows(scanned[..t]) + LineRow(scanned[t]) + Rows(scanned[t + 1..])
  {
    Cut(scanned, t);
    RowsAround(scanned, scanned[..t], scanned[t], scanned[t + 1..]);
  }

  /** When every line yields tokens, there is one row per line. */
  lemma {:induction false} RowsAllFilled(scanned: seq<seq<string>>)
    requires forall u :: 0 <= u < |scanned| ==> scanned[u] != []
    ensures |Rows(scanned)| == |scanned|
  {
    if scanned != [] {
      RowsAllFilled(scanned[..|scanned| - 1]);
    }
  }

  /** The positions of the text lines that yield a token. */
  function FilledLines(scanned: seq<seq<string>>): set<nat>
  {
    set t: nat | t < |scanned| && scanned[t] != []
  }

  /** The token-bearing lines of a text with one more line. */
  lemma FilledLinesSnoc(scanned: seq<seq<string>>)
    requires scanned != []
    ensures var n := |scanned| - 1;
      n !in FilledLines(scanned[..n]) &&
      FilledLines(scanned) == FilledLines(scanned[..n]) + (if scanned[n] == [] then {} else {n})
  {
    var n := |scanned| - 1;
    var before := scanned[..n];
    var extra: set<nat> := if scanned[n] == [] then {} else {n};
    forall t: nat ensures t in FilledLines(scanned) <==> t in FilledLines(before) + extra {
      if t < n { assert before[t] == scanned[t]; }
    }
  }

  /** There is one row per token-bearing text line. */
  lemma {:induction false} RowsCount(scanned: seq<seq<string>>)
    ensures |Rows(scanned)| == |FilledLines(scanned)|
  {
    if scanned == [] {
      assert FilledLines(scanned) == {};
    } else {
      var n := |scanned| - 1;
      RowsCount(scanned[..n]);
      FilledLinesSnoc(scanned);
    }
  }

  // ---------------------------------------------------------------------
  // Direct 0-based access: the text-line index of each row
  // ---------------------------------------------------------------------

  /** `this[index] = line`: the text-line index (after the header is
      removed) of each token-bearing line, mapped to its row position. */
  function LineIndex(scanned: seq<seq<string>>): map<nat, nat>
  {
    if scanned == [] then map[]
    else
      var last := |scanned| - 1;
      var before := scanned[..last];
      if scanned[last] == [] then LineIndex(before)
      else LineIndex(before)[last := |Rows(before)|]
  }

  /** Exactly the token-bearing lines are registered, each under the number
      of token-bearing lines before it. */
  lemma {:induction false} LineIndexKeys(scanned: seq<seq<string>>, t: nat)
    ensures t in LineIndex(scanned) <==> t < |scanned| && scanned[t] != []
    ensures t in LineIndex(scanned) ==> LineIndex(scanned)[t] == |Rows(scanned[..t])|
    decreases |scanned|
  {
    if scanned != [] {
      var last := |scanned| - 1;
      LineIndexKeys(scanned[..last], t);
      if t < last {
        TakeTake(scanned, last, t);
      }
    }
  }

  /** Each registered line leads to its own decoded row. */
  lemma LineIndexAt(scanned: seq<seq<string>>, t: nat)
    ensures t in LineIndex(scanned) <==> t < |scanned| && scanned[t] != []
    ensures t in LineIndex(scanned) ==>
      LineIndex(scanned)[t] == |Rows(scanned[..t])| &&
      LineIndex(scanned)[t] < |Rows(scanned)| &&
      Rows(scanned)[LineIndex(scanned)[t]] == DecodeAll(scanned[t])
  {
    LineIndexKeys(scanned, t);
    if t in LineIndex(scanned) {
      RowsAt(scanned, t);
    }
  }

  /** Rows keep the order of their lines. */
  lemma LineIndexOrdered(scanned: seq<seq<string>>, t: nat, u: nat)
    requires t in LineIndex(scanned) && u in LineIndex(scanned) && t < u
    ensures LineIndex(scanned)[t] < LineIndex(scanned)[u]
  {
    LineIndexKeys(scanned, t);
    LineIndexKeys(scanned, u);
    var p := scanned[..u];
    TakeTake(scanned, u, t);
    RowsAt(p, t);
  }

  /** Every row comes from some text line: it is registered under that
      line's index. */
  lemma {:induction false} LineIndexOnto(scanned: seq<seq<string>>, i: nat)
    requires i < |Rows(scanned)|
    ensures exists t :: t in LineIndex(scanned) && LineIndex(scanned)[t] == i
    decreases |scanned|
  {
    var last := |scanned| - 1;
    var before := scanned[..last];
    if i < |Rows(before)| {
      LineIndexOnto(before, i);
      var t :| t in LineIndex(before) && LineIndex(before)[t] == i;
      LineIndexKeys(before, t);
      assert t != last;
      assert LineIndex(scanned)[t] == i;
    } else {
      assert LineIndex(scanned)[last] == i;
    }
  }

  /** Direct 0-based access agrees with the row position when no line up to
      it was skipped. */
  lemma LineIndexDense(scanned: seq<seq<string>>, t: nat)
    requires t < |scanned|
    requires forall u :: 0 <= u <= t ==> scanned[u] != []
    ensures t in LineIndex(scanned) && LineIndex(scanned)[t] == t
  {
    LineIndexKeys(scanned, t);
    RowsAllFilled(scanned[..t]);
  }

  /** A character that no token holds is in no field of any row. */
  lemma {:induction false} RowsExclude(scanned: seq<seq<string>>, c: char)
    requires forall t, k :: 0 <= t < |scanned| && 0 <= k < |scanned[t]| ==> c !in scanned[t][k]
    ensures forall i, k :: 0 <= i < |Rows(scanned)| && 0 <= k < |Rows(scanned)[i]| ==> c !in Rows(scanned)[i][k]
    decreases |scanned|
  {
    if scanned != [] {
      var last := |scanned| - 1;
      RowsExclude(scanned[..last], c);
      forall k | 0 <= k < |scanned[last]| ensures c !in Decode(scanned[last][k]) {
        DecodeExcludes(scanned[last][k], c);
      }
    }
  }

  /** No field and no header name holds a line break. */
  predicate NoLineBreaks(rows: seq<Row>, colNames: Option<seq<string>>)
  {
    (forall i, k :: 0 <= i < |rows| && 0 <= k < |rows[i]| ==> '\n' !in rows[i][k]) &&
    (colNames.Some? ==> forall k :: 0 <= k < |colNames.value| ==> '\n' !in colNames.value[k])
  }

  /** No field read from the text holds a line break, and neither does a
      header name. */
  lemma NoLineBreaksRead(text: string, opts: Options)
    ensures NoLineBreaks(Rows(Scanned(DataLines(text, opts.header))), HeaderOf(text, opts))
  {
    var textLines := Split(text, '\n');
    var data := DataLines(text, opts.header);
    var scanned := Scanned(data);
    forall t | 0 <= t < |scanned| ensures forall k :: 0 <= k < |scanned[t]| ==> '\n' !in scanned[t][k] {
      TokensExclude(data[t], '\n');
    }
    RowsExclude(scanned, '\n');
    if opts.header {
      SplitExcludes(textLines[0], DelimOf(opts), '\n');
    }
  }

  // ---------------------------------------------------------------------
  // Composite keys
  // ---------------------------------------------------------------------

  /** `opts.keys.map(k => line[k])`; a position past the row reads
      `undefined`, which both joins write as the empty string. */
  function KeyValues(row: Row, keys: seq<nat>): (vals: seq<string>)
    ensures |vals| == |keys|
  {
    seq(|keys|, k requires 0 <= k < |keys| => if keys[k] < |row| then row[keys[k]] else "")
  }

  /** The property name of the key array (`String(array)` joins with `,`). */
  function CommaKey(row: Row, keys: seq<nat>): string
  {
    Join(KeyValues(row, keys), ',')
  }

  /** The pipe-joined key string. */
  function PipeKey(row: Row, keys: seq<nat>): string
  {
    Join(KeyValues(row, keys), '|')
  }

  /** `k` is one of the two names a row is registered under. */
  predicate IsKeyOf(row: Row, keys: seq<nat>, k: string)
  {
    k == CommaKey(row, keys) || k == PipeKey(row, keys)
  }

  /** The key registrations after the rows are pushed in order: each row
      writes its comma form, then its pipe form, to its position. */
  function KeyIndex(rows: seq<Row>, keys: seq<nat>): map<string, nat>
  {
    if rows == [] then map[]
    else
      var n := |rows| - 1;
      KeyIndex(rows[..n], keys)[CommaKey(rows[n], keys) := n][PipeKey(rows[n], keys) := n]
  }

  /** The rows before the last one are a prefix: they keep their keys. */
  lemma KeyIndexPrefix(rows: seq<Row>, keys: seq<nat>, k: string)
    requires rows != []
    ensures forall i :: 0 <= i < |rows| - 1 ==>
      (IsKeyOf(rows[..|rows| - 1][i], keys, k) <==> IsKeyOf(rows[i], keys, k))
  {
  }

  /** A name is registered exactly when some row has it. */
  lemma {:induction false} KeyIndexDomain(rows: seq<Row>, keys: seq<nat>, k: string)
    ensures k in KeyIndex(rows, keys) <==> exists i :: 0 <= i < |rows| && IsKeyOf(rows[i], keys, k)
    decreases |rows|
  {
    if rows != [] {
      var n := |rows| - 1;
      KeyIndexDomain(rows[..n], keys, k);
      KeyIndexPrefix(rows, keys, k);
      if !IsKeyOf(rows[n], keys, k) && exists i :: 0 <= i < |rows| && IsKeyOf(rows[i], keys, k) {
        var i :| 0 <= i < |rows| && IsKeyOf(rows[i], keys, k);
        assert IsKeyOf(rows[..n][i], keys, k);
      }
    }
  }

  /** A registered name leads to a row that has it, and no later row has it. */
  lemma {:induction false} KeyIndexLast(rows: seq<Row>, keys: seq<nat>, k: string)
    requires k in KeyIndex(rows, keys)
    ensures var i := KeyIndex(rows, keys)[k];
      i < |rows| && IsKeyOf(rows[i], keys, k) &&
      forall j :: i < j < |rows| ==> !IsKeyOf(rows[j], keys, k)
    decreases |rows|
  {
    var n := |rows| - 1;
    if !IsKeyOf(rows[n], keys, k) {
      KeyIndexLast(rows[..n], keys, k);
      KeyIndexPrefix(rows, keys, k);
      var i := KeyIndex(rows, keys)[k];
      assert i == KeyIndex(rows[..n], keys)[k];
      assert IsKeyOf(rows[..n][i], keys, k);
      forall j | i < j < |rows| ensures !IsKeyOf(rows[j], keys, k) {
        if j < n { assert !IsKeyOf(rows[..n][j], keys, k); }
      }
    }
  }

  /** Last write wins: a name is registered exactly when some row has it, and
      it leads to the last row that has it. */
  lemma KeyIndexLastWins(rows: seq<Row>, keys: seq<nat>, k: string)
    ensures k in KeyIndex(rows, keys) <==> exists i :: 0 <= i < |rows| && IsKeyOf(rows[i], keys, k)
    ensures k in KeyIndex(rows, keys) ==>
      var i := KeyIndex(rows, keys)[k];
      i < |rows| && IsKeyOf(rows[i], keys, k) &&
      forall j :: i < j < |rows| ==> !IsKeyOf(rows[j], keys, k)
  {
    KeyIndexDomain(rows, keys, k);
    if k in KeyIndex(rows, keys) {
      KeyIndexLast(rows, keys, k);
    }
  }

  /** A row whose key no later row repeats is found by that key. */
  lemma KeyLookup(rows: seq<Row>, keys: seq<nat>, i: nat, k: string)
    requires i < |rows| && IsKeyOf(rows[i], keys, k)
    requires forall j :: i < j < |rows| ==> !IsKeyOf(rows[j], keys, k)
    ensures k in KeyIndex(rows, keys) && KeyIndex(rows, keys)[k] == i
  {
    KeyIndexLastWins(rows, keys, k);
    var found := KeyIndex(rows, keys)[k];
    assert !(i < found) && !(found < i);
  }

  // ---------------------------------------------------------------------
  // Header names
  // ---------------------------------------------------------------------

  /** The header registrations for the first `m` names, written in order. */
  function NamesUpTo(names: seq<string>, m: nat): map<string, nat>
    requires m <= |names|
  {
    if m == 0 then map[] else NamesUpTo(names, m - 1)[names[m - 1] := m - 1]
  }

  /** `this[col_names[icol]] = column` for the columns `0 .. n-1` that have a
      name. */
  function NameIndex(colNames: Option<seq<string>>, n: nat): map<string, nat>
  {
    match colNames
    case None => map[]
    case Some(names) => NamesUpTo(names, if n < |names| then n else |names|)
  }

  /** A registered header name leads to the last column of that name. */
  lemma {:induction false} NamesUpToLastWins(names: seq<string>, m: nat, name: string)
    requires m <= |names|
    ensures name in NamesUpTo(names, m) <==> exists j :: 0 <= j < m && names[j] == name
    ensures name in NamesUpTo(names, m) ==>
      var j := NamesUpTo(names, m)[name];
      j < m && names[j] == name && forall j' :: j < j' < m ==> names[j'] != name
  {
    if m > 0 {
      NamesUpToLastWins(names, m - 1, name);
    }
  }

  /** With distinct names, every named column among the first `n` is
      registered under its own name, and every registration is right. */
  lemma NameIndexDistinct(names: seq<string>, n: nat, j: nat)
    requires forall a, b :: 0 <= a < b < |names| ==> names[a] != names[b]
    requires j < n && j < |names|
    ensures names[j] in NameIndex(Some(names), n) && NameIndex(Some(names), n)[names[j]] == j
  {
    var m := if n < |names| then n else |names|;
    NamesUpToLastWins(names, m, names[j]);
  }

  // ---------------------------------------------------------------------
  // Transpose
  // ---------------------------------------------------------------------

  /** All rows have the same length. */
  predicate Rectangular(rows: seq<Row>)
  {
    forall i, j :: 0 <= i < j < |rows| ==> |rows[i]| == |rows[j]|
  }

  /** The column-major view: one column per position of row 0, holding that
      position of every row. */
  function Transpose(rows: seq<Row>): (cols: seq<seq<string>>)
    requires |rows| > 0 && Rectangular(rows)
    ensures |cols| == |rows[0]|
    ensures forall j :: 0 <= j < |cols| ==> |cols[j]| == |rows|
    ensures forall j, i :: 0 <= j < |cols| && 0 <= i < |rows| ==> cols[j][i] == rows[i][j]
  {
    seq(|rows[0]|, j requires 0 <= j < |rows[0]| =>
      seq(|rows|, i requires 0 <= i < |rows| => rows[i][j]))
  }

  /** Anything with the shape and entries of the transpose is the transpose. */
  lemma TransposeUnique(rows: seq<Row>, cols: seq<seq<string>>)
    requires |rows| > 0 && Rectangular(rows)
    requires |cols| == |rows[0]|
    requires forall j :: 0 <= j < |cols| ==> |cols[j]| == |rows|
    requires forall j, i :: 0 <= j < |cols| && 0 <= i < |rows| ==> cols[j][i] == rows[i][j]
    ensures cols == Transpose(rows)
  {
    var t := Transpose(rows);
    forall j | 0 <= j < |cols| ensures cols[j] == t[j] {
      assert |cols[j]| == |t[j]|;
    }
  }

  /** Transposing twice gives back the rows. */
  lemma TransposeTwice(rows: seq<Row>)
    requires |rows| > 0 && Rectangular(rows) && |rows[0]| > 0
    ensures Rectangular(Transpose(rows))
    ensures Transpose(Transpose(rows)) == rows
  {
    var t := Transpose(rows);
    var tt := Transpose(t);
    assert |tt| == |rows|;
    forall i | 0 <= i < |rows| ensures tt[i] == rows[i] {
      assert |tt[i]| == |rows[i]|;
    }
  }
}
