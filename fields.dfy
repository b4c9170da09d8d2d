/**
 * Field tokenizer, field decoder and field re-quoting of csvmatrix.
 *
 * The tokenizer is the global regular expression `(?:[^,"|]+|"[^"]*")+`
 * applied to one text line, written out as a left-to-right scanner.  A match
 * is a maximal concatenation of "pieces": an unquoted run of characters other
 * than `,`, `"` and `|`, or a quoted run from a `"` to the next `"`.  Where no
 * match starts (a `,`, a `|`, or a `"` with no closing quote after it) the
 * scanner moves on by one character.  The comma is fixed here: the
 * configurable delimiter plays no part in tokenizing.
 */
module Fields {
  import opened Wrappers

  /** A character an unquoted run may hold: `[^,"|]`. */
  predicate IsRunChar(c: char)
  {
    c != ',' && c != '"' && c != '|'
  }

  /** Length of the greedy unquoted run at the start of `s`. */
  function RunLength(s: string): (n: nat)
    ensures n <= |s|
    ensures forall k :: 0 <= k < n ==> IsRunChar(s[k])
    ensures n < |s| ==> !IsRunChar(s[n])
  {
    if s != [] && IsRunChar(s[0]) then 1 + RunLength(s[1..]) else 0
  }

  /** Position of the first `"` in `s`, if there is one. */
  function FirstQuote(s: string): (r: Option<nat>)
    ensures r.Some? ==> r.value < |s| && s[r.value] == '"'
    ensures r.Some? ==> forall k :: 0 <= k < r.value ==> s[k] != '"'
    ensures r.None? ==> forall k :: 0 <= k < |s| ==> s[k] != '"'
  {
    if s == [] then None
    else if s[0] == '"' then Some(0)
    else match FirstQuote(s[1..])
      case Some(k) => Some(k + 1)
      case None => None
  }

  /** Length of one alternative of the group at the start of `s`: the
      unquoted run `[^,"|]+`, tried first, or the quoted run `"[^"]*"`. */
  function PieceLength(s: string): (r: Option<nat>)
    ensures r.Some? ==> 0 < r.value <= |s|
  {
    if s == [] then None
    else if IsRunChar(s[0]) then Some(RunLength(s))
    else if s[0] == '"' then
      match FirstQuote(s[1..])
      case Some(k) => Some(k + 2)
      case None => None
    else None
  }

  /** Length of the match of the whole expression at the start of `s`, or 0
      when none starts there: pieces are taken for as long as one fits. */
  function MatchLength(s: string): (n: nat)
    ensures n <= |s|
    decreases |s|
  {
    match PieceLength(s)
    case Some(p) => p + MatchLength(s[p..])
    case None => 0
  }

  /** `line.match(FIELD_REGEX)` with the missing result read as no tokens. */
  function Tokenize(line: string): (tokens: seq<string>)
    ensures forall k :: 0 <= k < |tokens| ==> |tokens[k]| > 0
    decreases |line|
  {
    if line == [] then []
    else
      var n := MatchLength(line);
      if n == 0 then Tokenize(line[1..]) else [line[..n]] + Tokenize(line[n..])
  }

  /** A line in which no match can start: no run character at all, and no
      two quotes that could open and close a quoted run. */
  predicate HasNoField(line: string)
  {
    (forall i :: 0 <= i < |line| ==> !IsRunChar(line[i])) &&
    (forall i, j :: 0 <= i < j < |line| ==> !(line[i] == '"' && line[j] == '"'))
  }

  /** MatchLength is 0 exactly when no piece starts at the front. */
  lemma MatchLengthZero(s: string)
    ensures MatchLength(s) == 0 <==> PieceLength(s).None?
  {
  }

  /** A line yields no tokens exactly when no field can start in it, so a
      line made only of `,` and `|` (a blank line included) gives no row. */
  lemma {:induction false} TokenizeEmpty(line: string)
    ensures Tokenize(line) == [] <==> HasNoField(line)
    decreases |line|
  {
    if line != [] {
      MatchLengthZero(line);
      if MatchLength(line) == 0 {
        TokenizeEmpty(line[1..]);
        var q := FirstQuote(line[1..]);
        assert !IsRunChar(line[0]);
        assert line[0] == '"' ==> q.None?;
        if HasNoField(line[1..]) {
          forall i, j | 0 <= i < j < |line| ensures !(line[i] == '"' && line[j] == '"') {
            if i > 0 {
              assert line[1..][i - 1] == line[i] && line[1..][j - 1] == line[j];
            } else if line[0] == '"' {
              assert line[1..][j - 1] == line[j];
            }
          }
        } else {
          assert !HasNoField(line);
        }
      } else {
        var p := PieceLength(line).value;
        if IsRunChar(line[0]) {
          assert !HasNoField(line);
        } else {
          var k := FirstQuote(line[1..]).value;
          assert line[0] == '"' && line[k + 1] == '"';
          assert !HasNoField(line);
        }
      }
    }
  }

  /** A quote that no later quote closes starts no field: the scanner steps
      over it. */
  lemma UnmatchedQuote(rest: string)
    requires '"' !in rest
    ensures Tokenize(['"'] + rest) == Tokenize(rest)
  {
    var line := ['"'] + rest;
    assert line[1..] == rest;
    assert FirstQuote(rest).None?;
    MatchLengthZero(line);
  }

  /** Corollary used for blank lines: a line of separators only yields nothing. */
  lemma SeparatorsOnly(line: string)
    requires forall i :: 0 <= i < |line| ==> line[i] == ',' || line[i] == '|'
    ensures Tokenize(line) == []
  {
    TokenizeEmpty(line);
  }

  /** The two characters the tokenizer treats as separators. */
  predicate IsSeparator(c: char)
  {
    c == ',' || c == '|'
  }

  /** `s.split(/[,|]/)`: the fragments between separators, empty ones kept. */
  function Fragments(s: string): (r: seq<string>)
    ensures |r| > 0
  {
    if s == [] then [[]]
    else
      var rest := Fragments(s[1..]);
      if IsSeparator(s[0]) then [[]] + rest else [[s[0]] + rest[0]] + rest[1..]
  }

  /** `.filter(f => f != "")`. */
  function NonEmpty(fs: seq<string>): (r: seq<string>)
    ensures forall k :: 0 <= k < |r| ==> r[k] != []
  {
    if fs == [] then []
    else (if fs[0] == [] then [] else [fs[0]]) + NonEmpty(fs[1..])
  }

  /** Fragments of a separator-free prefix followed by more text: the prefix
      joins the first fragment of the rest. */
  lemma {:induction false} FragmentsPrefix(v: string, t: string)
    requires forall k :: 0 <= k < |v| ==> !IsSeparator(v[k])
    ensures Fragments(v + t) == [v + Fragments(t)[0]] + Fragments(t)[1..]
  {
    if v == [] {
      assert v + t == t;
      assert v + Fragments(t)[0] == Fragments(t)[0];
      assert Fragments(t) == [Fragments(t)[0]] + Fragments(t)[1..];
    } else {
      var rest := Fragments(v[1..] + t);
      FragmentsPrefix(v[1..], t);
      assert (v + t)[1..] == v[1..] + t;
      assert rest[0] == v[1..] + Fragments(t)[0] && rest[1..] == Fragments(t)[1..];
      assert Fragments(v + t) == [[v[0]] + rest[0]] + rest[1..];
      assert [v[0]] + (v[1..] + Fragments(t)[0]) == v + Fragments(t)[0];
    }
  }

  /** On a line without quotes the tokenizer is `split(/[,|]/)` with the
      empty fragments dropped. */
  lemma {:induction false} TokenizeUnquoted(line: string)
    requires '"' !in line
    ensures Tokenize(line) == NonEmpty(Fragments(line))
    decreases |line|
  {
    if line != [] {
      if IsSeparator(line[0]) {
        assert PieceLength(line).None?;
        TokenizeUnquoted(line[1..]);
      } else {
        var n := RunLength(line);
        var v, t := line[..n], line[n..];
        assert line == v + t;
        assert Stops(t) by {
          if t != [] { assert t[0] == line[n]; }
        }
        RunMatch(v, t);
        assert Tokenize(line) == [v] + Tokenize(t);
        FragmentsPrefix(v, t);
        assert Fragments(t)[0] == [];
        assert Fragments(t) == [[]] + Fragments(t)[1..];
        TokenizeUnquoted(t);
        assert v + [] == v;
      }
    }
  }

  // ---------------------------------------------------------------------
  // Field decoder
  // ---------------------------------------------------------------------

  /** `s.replaceAll('""', '"')`: every doubled quote, read left to right
      without overlap, becomes one quote. */
  function Unescape(s: string): (r: string)
    ensures |r| <= |s|
  {
    if |s| >= 2 && s[0] == '"' && s[1] == '"' then ['"'] + Unescape(s[2..])
    else if s == [] then []
    else [s[0]] + Unescape(s[1..])
  }

  /** A token that starts and ends with a quote. */
  predicate IsQuoted(t: string)
  {
    |t| >= 2 && t[0] == '"' && t[|t| - 1] == '"'
  }

  /** The field-decode function of the constructor.  For the one-character
      token `"` JavaScript's `substring(1, 0)` swaps its bounds and yields
      `"` again, which is what the else branch gives. */
  function Decode(token: string): string
  {
    if IsQuoted(token) then Unescape(token[1..|token| - 1]) else token
  }

  /** `fields.map(decode)`. */
  function DecodeAll(tokens: seq<string>): (values: seq<string>)
    ensures |values| == |tokens|
    ensures forall k :: 0 <= k < |tokens| ==> values[k] == Decode(tokens[k])
  {
    seq(|tokens|, k requires 0 <= k < |tokens| => Decode(tokens[k]))
  }

  /** A quoted token loses exactly its two outer quotes, and a token with no
      doubled quote inside them is not otherwise changed. */
  lemma DecodeQuotedPlain(token: string)
    requires IsQuoted(token)
    requires forall k :: 1 <= k < |token| - 2 ==> !(token[k] == '"' && token[k + 1] == '"')
    ensures Decode(token) == token[1..|token| - 1]
  {
    UnescapePlain(token[1..|token| - 1]);
  }

  /** Unescape leaves a text with no doubled quote unchanged. */
  lemma {:induction false} UnescapePlain(s: string)
    requires forall k :: 0 <= k < |s| - 1 ==> !(s[k] == '"' && s[k + 1] == '"')
    ensures Unescape(s) == s
  {
    if s != [] {
      UnescapePlain(s[1..]);
    }
  }

  /** A token with no quote at all decodes to itself. */
  lemma DecodeUnquoted(token: string)
    requires '"' !in token
    ensures Decode(token) == token
  {
  }

  // ---------------------------------------------------------------------
  // quote_escape
  // ---------------------------------------------------------------------

  /** `v.replaceAll('"', '""')`. */
  function DoubleQuotes(v: string): (r: string)
    ensures |r| >= |v|
  {
    if v == [] then []
    else (if v[0] == '"' then ['"', '"'] else [v[0]]) + DoubleQuotes(v[1..])
  }

  /** The value wrapped in quotes with its quotes doubled. */
  function Enquote(v: string): string
  {
    ['"'] + DoubleQuotes(v) + ['"']
  }

  /** `valor.includes('"') || valor.includes(delim)`. */
  predicate NeedsQuoting(v: string, delim: char)
  {
    '"' in v || delim in v
  }

  /** `quote_escape` on one value: quoted exactly when it holds a quote or the
      delimiter, and always decoded back to the value it came from. */
  function QuoteEscape(v: string, delim: char): (r: string)
    ensures NeedsQuoting(v, delim) <==> r != v
    ensures NeedsQuoting(v, delim) ==> IsQuoted(r)
    ensures Decode(r) == v
  {
    if NeedsQuoting(v, delim) then
      UnescapeDoubleQuotes(v);
      assert Enquote(v)[1..|Enquote(v)| - 1] == DoubleQuotes(v);
      Enquote(v)
    else
      v
  }

  /** Unescape undoes DoubleQuotes. */
  lemma {:induction false} UnescapeDoubleQuotes(v: string)
    ensures Unescape(DoubleQuotes(v)) == v
  {
    if v != [] {
      UnescapeDoubleQuotes(v[1..]);
      var d := DoubleQuotes(v[1..]);
      if v[0] == '"' {
        assert DoubleQuotes(v) == ['"', '"'] + d;
        assert (['"', '"'] + d)[2..] == d;
      } else {
        assert DoubleQuotes(v) == [v[0]] + d;
        assert ([v[0]] + d)[1..] == d;
      }
      assert [v[0]] + v[1..] == v;
    }
  }

  /** `quote_escape` on a row; decoding the escaped row gives back the row. */
  function EscapeAll(row: seq<string>, delim: char): (r: seq<string>)
    ensures |r| == |row|
    ensures forall k :: 0 <= k < |row| ==> r[k] == QuoteEscape(row[k], delim)
    ensures DecodeAll(r) == row
  {
    seq(|row|, k requires 0 <= k < |row| => QuoteEscape(row[k], delim))
  }

  // ---------------------------------------------------------------------
  // Re-tokenizing escaped fields
  // ---------------------------------------------------------------------

  /** What may follow a field so that the match ends there: nothing, `,` or `|`. */
  predicate Stops(t: string)
  {
    t == [] || t[0] == ',' || t[0] == '|'
  }

  /** A value that comes back from `quote_escape` as exactly one token: it is
      not empty, holds no line break, and if it is left unquoted it holds no
      `,` and no `|` either. */
  predicate Rescannable(v: string, delim: char)
  {
    |v| > 0 && '\n' !in v && (NeedsQuoting(v, delim) || (',' !in v && '|' !in v))
  }

  lemma {:induction false} RunLengthPrefix(v: string, t: string)
    requires forall k :: 0 <= k < |v| ==> IsRunChar(v[k])
    requires Stops(t)
    ensures RunLength(v + t) == |v|
  {
    if v != [] {
      assert (v + t)[1..] == v[1..] + t;
      RunLengthPrefix(v[1..], t);
    }
  }

  lemma {:induction false} FirstQuoteAfter(a: string, t: string)
    requires '"' !in a
    ensures FirstQuote(a + ['"'] + t) == Some(|a|)
  {
    if a != [] {
      assert (a + ['"'] + t)[1..] == a[1..] + ['"'] + t;
      FirstQuoteAfter(a[1..], t);
    }
  }

  lemma {:induction false} DoubleQuotesAppend(a: string, b: string)
    ensures DoubleQuotes(a + b) == DoubleQuotes(a) + DoubleQuotes(b)
  {
    if a != [] {
      assert (a + b)[0] == a[0];
      assert (a + b)[1..] == a[1..] + b;
      DoubleQuotesAppend(a[1..], b);
      var h := if a[0] == '"' then ['"', '"'] else [a[0]];
      assert DoubleQuotes(a + b) == h + (DoubleQuotes(a[1..]) + DoubleQuotes(b));
      assert DoubleQuotes(a) == h + DoubleQuotes(a[1..]);
    } else {
      assert a + b == b;
    }
  }

  lemma {:induction false} DoubleQuotesPlain(a: string)
    requires '"' !in a
    ensures DoubleQuotes(a) == a
  {
    if a != [] {
      DoubleQuotesPlain(a[1..]);
      assert [a[0]] + a[1..] == a;
    }
  }

  /** An unquoted value of run characters is matched whole. */
  lemma RunMatch(v: string, t: string)
    requires |v| > 0 && forall k :: 0 <= k < |v| ==> IsRunChar(v[k])
    requires Stops(t)
    ensures MatchLength(v + t) == |v|
  {
    RunLengthPrefix(v, t);
    assert (v + t)[|v|..] == t;
  }

  /** A quoted run with no quote inside is one piece. */
  lemma QuotedPiece(a: string, rest: string)
    requires '"' !in a
    ensures MatchLength(['"'] + a + ['"'] + rest) == |a| + 2 + MatchLength(rest)
  {
    var s := ['"'] + a + ['"'] + rest;
    assert s[1..] == a + ['"'] + rest;
    FirstQuoteAfter(a, rest);
    assert PieceLength(s) == Some(|a| + 2);
    assert s[|a| + 2..] == rest;
  }

  /** DoubleQuotes around the first quote of a value. */
  lemma DoubleQuotesSplit(a: string, b: string)
    requires '"' !in a
    ensures DoubleQuotes(a + (['"'] + b)) == a + ['"', '"'] + DoubleQuotes(b)
  {
    DoubleQuotesAppend(a, ['"'] + b);
    DoubleQuotesAppend(['"'], b);
    DoubleQuotesPlain(a);
    assert DoubleQuotes(['"']) == ['"', '"'] by {
      assert ['"'][1..] == [];
    }
  }

  /** The escaped value around its first quote: a quoted run, then the
      escaped rest of the value. */
  lemma EnquoteSplit(a: string, b: string, t: string)
    requires '"' !in a
    ensures Enquote(a + (['"'] + b)) + t == ['"'] + a + ['"'] + (Enquote(b) + t)
  {
    DoubleQuotesSplit(a, b);
    var d := DoubleQuotes(b);
    calc {
      Enquote(a + (['"'] + b)) + t;
      ['"'] + (a + ['"', '"'] + d) + ['"'] + t;
      { assert ['"', '"'] == ['"'] + ['"']; }
      ['"'] + a + ['"'] + ((['"'] + d + ['"']) + t);
    }
  }

  /** A quoted value is matched whole: each doubled quote closes one quoted
      run and opens the next. */
  lemma {:induction false} EnquoteMatch(v: string, t: string)
    requires Stops(t)
    ensures MatchLength(Enquote(v) + t) == |Enquote(v)|
    decreases |v|
  {
    match FirstQuote(v)
    case None =>
      DoubleQuotesPlain(v);
      assert Enquote(v) + t == ['"'] + v + ['"'] + t;
      QuotedPiece(v, t);
    case Some(i) =>
      var a, b := v[..i], v[i + 1..];
      assert v == a + (['"'] + b);
      EnquoteSplit(a, b, t);
      QuotedPiece(a, Enquote(b) + t);
      EnquoteMatch(b, t);
  }

  /** An escaped rescannable value is matched whole. */
  lemma EscapedMatch(v: string, delim: char, t: string)
    requires Rescannable(v, delim)
    requires Stops(t)
    ensures MatchLength(QuoteEscape(v, delim) + t) == |QuoteEscape(v, delim)| > 0
  {
    if NeedsQuoting(v, delim) {
      EnquoteMatch(v, t);
    } else {
      RunMatch(v, t);
    }
  }

  /** A match at the front of a line is the line's first token. */
  lemma TokenizeFront(token: string, rest: string)
    requires |token| > 0 && MatchLength(token + rest) == |token|
    ensures Tokenize(token + rest) == [token] + Tokenize(rest)
  {
    var line := token + rest;
    assert line[..|token|] == token && line[|token|..] == rest;
  }

  /** A line starting with `,` tokenizes as the rest of the line. */
  lemma SkipComma(rest: string)
    ensures Tokenize([','] + rest) == Tokenize(rest)
  {
    assert ([','] + rest)[1..] == rest;
  }

  // ---------------------------------------------------------------------
  // Characters a token or a decoded value can hold
  // ---------------------------------------------------------------------

  /** Tokens are pieces of their line: a character not in the line is in no token. */
  lemma {:induction false} TokensExclude(line: string, c: char)
    requires c !in line
    ensures forall k :: 0 <= k < |Tokenize(line)| ==> c !in Tokenize(line)[k]
    decreases |line|
  {
    if line != [] {
      var n := MatchLength(line);
      if n == 0 {
        TokensExclude(line[1..], c);
      } else {
        TokensExclude(line[n..], c);
        assert Tokenize(line) == [line[..n]] + Tokenize(line[n..]);
      }
    }
  }

  lemma {:induction false} UnescapeExcludes(s: string, c: char)
    requires c !in s
    ensures c !in Unescape(s)
  {
    if |s| >= 2 && s[0] == '"' && s[1] == '"' {
      UnescapeExcludes(s[2..], c);
    } else if s != [] {
      UnescapeExcludes(s[1..], c);
    }
  }

  /** Decoding adds no character that was not in the token. */
  lemma DecodeExcludes(token: string, c: char)
    requires c !in token
    ensures c !in Decode(token)
  {
    if IsQuoted(token) {
      UnescapeExcludes(token[1..|token| - 1], c);
    }
  }

  lemma {:induction false} DoubleQuotesExcludes(v: string, c: char)
    requires c != '"' && c !in v
    ensures c !in DoubleQuotes(v)
  {
    if v != [] {
      DoubleQuotesExcludes(v[1..], c);
    }
  }

  /** Escaping adds no character other than the quote. */
  lemma EscapeExcludes(v: string, delim: char, c: char)
    requires c != '"' && c !in v
    ensures c !in QuoteEscape(v, delim)
  {
    DoubleQuotesExcludes(v, c);
  }
}
