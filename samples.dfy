/**
 * The sample text of the package's test, field by field: how its quoted,
 * comma-holding and quote-holding values are read and written.  Each fact
 * is proved for any values of the same shape, then instantiated.
 */
module Samples {
  import opened Fields

  /** Quote doubling of a value with two quotes, each after a quote-free part. */
  lemma DoubleQuotesTwice(a: string, b: string)
    requires '"' !in a && '"' !in b
    ensures DoubleQuotes(a + ['"'] + b + ['"']) == a + ['"', '"'] + b + ['"', '"']
  {
    var q := ['"'];
    assert a + q + b + q == a + (q + (b + q));
    DoubleQuotesSplit(a, b + q);
    DoubleQuotesSplit(b, []);
    assert b + (q + []) == b + q;
    assert DoubleQuotes([]) == [];
  }

  /** Escaping, and decoding back, a value with two quotes. */
  lemma EscapeTwice(a: string, b: string, delim: char)
    requires '"' !in a && '"' !in b
    ensures var v := a + ['"'] + b + ['"'];
      var e := ['"'] + a + ['"', '"'] + b + ['"', '"'] + ['"'];
      QuoteEscape(v, delim) == e && Decode(e) == v
  {
    var v := a + ['"'] + b + ['"'];
    DoubleQuotesTwice(a, b);
    assert v[|a|] == '"';
    assert QuoteEscape(v, delim) == ['"'] + (a + ['"', '"'] + b + ['"', '"']) + ['"'];
  }

  /** `eliane "chefe"` is written as `"eliane ""chefe"""` and read back. */
  lemma ChefeRoundTrip()
    ensures QuoteEscape("eliane " + ['"'] + "chefe" + ['"'], ',') == ['"'] + "eliane " + ['"', '"'] + "chefe" + ['"', '"'] + ['"']
    ensures Decode(['"'] + "eliane " + ['"', '"'] + "chefe" + ['"', '"'] + ['"']) == "eliane " + ['"'] + "chefe" + ['"']
  {
    EscapeTwice("eliane ", "chefe", ',');
  }

  /** A quote-free value holding the delimiter is only wrapped in quotes. */
  lemma EscapeWithDelim(v: string, delim: char)
    requires '"' !in v && delim in v
    ensures QuoteEscape(v, delim) == ['"'] + v + ['"']
  {
    DoubleQuotesPlain(v);
  }

  /** `figueiredo, jorge` is written inside quotes. */
  lemma EscapeJorge()
    ensures QuoteEscape("figueiredo, jorge", ',') == ['"'] + "figueiredo, jorge" + ['"']
  {
    EscapeWithDelim("figueiredo, jorge", ',');
  }

  /** `dalton` is written as it is. */
  lemma EscapePlain()
    ensures QuoteEscape("dalton", ',') == "dalton"
  {
  }

  /** A quoted field without inner quotes, then a comma. */
  lemma QuotedField(a: string, rest: string)
    requires '"' !in a
    ensures Tokenize(['"'] + a + ['"'] + ([','] + rest)) == [['"'] + a + ['"']] + Tokenize(rest)
  {
    QuotedPiece(a, [','] + rest);
    assert MatchLength([','] + rest) == 0;
    TokenizeFront(['"'] + a + ['"'], [','] + rest);
    SkipComma(rest);
  }

  /** A field the unquoted alternative of the tokenizer reads whole: the
      requires of `Fields.RunMatch` as one predicate, so that the lemmas
      below take it without a quantifier in their own requires. */
  predicate Plain(x: string)
  {
    |x| > 0 && forall k :: 0 <= k < |x| ==> IsRunChar(x[k])
  }

  /** A plain field, then a comma. */
  lemma PlainField(x: string, rest: string)
    requires Plain(x)
    ensures Tokenize(x + ([','] + rest)) == [x] + Tokenize(rest)
  {
    RunMatch(x, [','] + rest);
    TokenizeFront(x, [','] + rest);
    SkipComma(rest);
  }

  /** A plain field ending the line. */
  lemma PlainLast(y: string)
    requires Plain(y)
    ensures Tokenize(y) == [y]
  {
    RunMatch(y, []);
    assert y + [] == y;
    TokenizeFront(y, []);
  }

  /** A line `"a",x,"b",y` with quote-free `a`, `b` and plain `x`, `y`. */
  lemma TokenizeQuotedPlain(a: string, x: string, b: string, y: string)
    requires '"' !in a && '"' !in b
    requires Plain(x)
    requires Plain(y)
    ensures var q := ['"'];
      Tokenize(q + a + q + ([','] + (x + ([','] + (q + b + q + ([','] + y)))))) == [q + a + q, x, q + b + q, y]
  {
    var q := ['"'];
    var s3 := q + b + q + ([','] + y);
    var s2 := x + ([','] + s3);
    var s1 := q + a + q + ([','] + s2);
    QuotedField(b, y);
    PlainLast(y);
    var t3 := [q + b + q] + [y];
    assert Tokenize(s3) == t3;
    PlainField(x, s3);
    var t2 := [x] + t3;
    assert Tokenize(s2) == t2;
    QuotedField(a, s2);
    var t1 := [q + a + q] + t2;
    assert Tokenize(s1) == t1;
    assert t1 == [q + a + q, x, q + b + q, y];
  }

  /** A quoted token with no quote inside decodes to what the quotes hold. */
  lemma DecodeQuoteFree(a: string)
    requires '"' !in a
    ensures Decode(['"'] + a + ['"']) == a
  {
    var token := ['"'] + a + ['"'];
    assert token[1..|token| - 1] == a;
    forall k | 1 <= k < |token| - 2
      ensures !(token[k] == '"' && token[k + 1] == '"')
    {
      assert token[k] == a[k - 1];
    }
    DecodeQuotedPlain(token);
  }

  /** The row such a line gives: the quotes are gone, the comma inside `b`
      stays. */
  lemma RowQuotedPlain(a: string, x: string, b: string, y: string)
    requires '"' !in a && '"' !in b
    requires Plain(x)
    requires Plain(y)
    ensures var q := ['"'];
      DecodeAll(Tokenize(q + a + q + ([','] + (x + ([','] + (q + b + q + ([','] + y))))))) == [a, x, b, y]
  {
    var q := ['"'];
    TokenizeQuotedPlain(a, x, b, y);
    DecodeQuoteFree(a);
    DecodeQuoteFree(b);
    assert '"' !in x by { assert forall k :: 0 <= k < |x| ==> x[k] != '"'; }
    assert '"' !in y by { assert forall k :: 0 <= k < |y| ==> y[k] != '"'; }
    DecodeUnquoted(x);
    DecodeUnquoted(y);
    var values := DecodeAll([q + a + q, x, q + b + q, y]);
    assert values[0] == a && values[1] == x && values[2] == b && values[3] == y;
  }

  /** The second data line of the sample text reads as four fields, the
      third holding a comma. */
  lemma TokenizeJorge()
    ensures var q := ['"'];
      Tokenize(q + "lp1" + q + ([','] + ("1" + ([','] + (q + "figueiredo, jorge" + q + ([','] + "4")))))) ==
        [q + "lp1" + q, "1", q + "figueiredo, jorge" + q, "4"]
    ensures var q := ['"'];
      DecodeAll(Tokenize(q + "lp1" + q + ([','] + ("1" + ([','] + (q + "figueiredo, jorge" + q + ([','] + "4"))))))) ==
        ["lp1", "1", "figueiredo, jorge", "4"]
  {
    TokenizeQuotedPlain("lp1", "1", "figueiredo, jorge", "4");
    RowQuotedPlain("lp1", "1", "figueiredo, jorge", "4");
  }
}
