# csvmatrix in Dafny

A model of `CSVMatrix`, the one class of the csvmatrix JavaScript module. It
reads CSV text into a matrix of strings and lets a caller read it back:
- rows and columns, 1-based (`lin`, `col`, `cell`) or 0-based (`get`, `array`, `transp`);
- rows by the text-line index (`m[i]`);
- rows by composite key (`lin("eda", "3")`, `lin("eda|3")`);
- columns by header name (`col("nome")`).

It also writes the matrix back out as CSV (`toString`).

The project has seven modules, one per file:

| file | module | what it holds |
|---|---|---|
| `wrappers.dfy` | `Wrappers` | `Option` |
| `strings.dfy` | `Strings` | JavaScript's `String.prototype.split` on one character (always at least one piece) and `Array.prototype.join` |
| `fields.dfy` | `Fields` | the field tokenizer, the field decoder, `quote_escape`, and the facts that tie them together |
| `table.dfy` | `Table` | the constructor's results as functions of the text: options, header names, rows, the text-line index, the key registrations, the header-name registrations, and the transpose |
| `serializer.dfy` | `Serializer` | `toString`: its layout, and when a re-parse of its output gives the matrix back |
| `matrix.dfy` | `Matrix` | the class `CSVMatrix` with its mutable fields, the constructor's loop, `_sync_transpose` with its two nested loops, and the accessors |
| `samples.dfy` | `Samples` | the values of the package's sample text (tests/test-01.js), read and written field by field |

The tokenizer regex `/(?:[^,"|]+|"[^"]*")+/g` is written out as a scanner:
- A *piece* is a maximal run of characters other than `,` `"` `|`, or a quoted run `"…"` with no quote inside.
- A *token* is a maximal sequence of pieces.
- A position where no piece starts is skipped.

This is how JavaScript's global `match` walks a line. The quantified groups are greedy and a plain run is tried first. None of the alternatives can match the empty string, so the search never backtracks into a shorter token.

The object's dynamically added properties are explicit maps in the model:
- `this[line_array_key]` and the pipe form map a key string to a row position;
- `this[index]` maps a text-line index to a row position;
- `this[col_name]` maps a header name to a column position.

Some definitions only compute and carry no contract of their own; the lemmas about them hold their meaning:
- `Strings.Join` (`Array.prototype.join`, and the comma form an array takes as a property key). `Strings.JoinSplit`, `Strings.SplitJoin`, `Strings.JoinSnoc` and `Strings.JoinExcludes` are about it.
- `Fields.Decode` (the field map's decoder). `Fields.EscapeAll`, `Fields.DecodeQuotedPlain` and `Fields.DecodeUnquoted` are about it.
- `Fields.Enquote` and `Fields.NeedsQuoting` (the two branches of `quote_escape`). `Fields.QuoteEscape` is about them.
- `Table.DelimOf`, `Table.HeaderOf` and `Table.DataLines` (the options and the header line). The constructor and `Table.NoLineBreaksRead` are about them.
- `Table.KeyValues`, `Table.CommaKey`, `Table.PipeKey` and `Table.KeyIndex` (the key registrations). `Table.KeyIndexDomain`, `Table.KeyIndexLast`, `Table.KeyIndexLastWins` and `Table.KeyLookup` are about them.
- `Table.LineIndex` (the text-line registrations). `Table.LineIndexKeys` and `Table.LineIndexAt` are about it.
- `Table.NamesUpTo` and `Table.NameIndex` (the header-name registrations). `Table.NamesUpToLastWins`, `Table.NameIndexDistinct` and `Matrix.ColumnName` are about them.
- `Serializer.EscapeRow` and `Serializer.HeaderLines` (one output line). `Serializer.RecordLinesLayout` states the layout they make.

`Fields.DecodeAll`, `Table.Scanned` and `Serializer.BodyLines` apply one of these position by position. `Fields.EscapeAll`, `Table.ScannedAppend` and `Serializer.RecordLinesLayout` state what they mean.

The constructor, its `forEach` body (`AddLine`) and `_sync_transpose` are methods on the class. Each is proved against the functions in `Table`. The specification functions carry the properties as lemmas.

Where what csvmatrix promises and what its code does differ, the model follows the code:
- The `delim` option (csvmatrix/csvmatrix.js:20) reads as the field separator, and the module comment (csvmatrix/csvmatrix.js:1-10) presents a CSV parser. The field regex (csvmatrix/csvmatrix.js:14) always splits on `,` and on `|`. The delimiter is used only to split the header line and to decide quoting in `toString`.
- The comment at tests/test-01.js:50-52 says that `toString` gives CSV text equivalent to the original. As written it does not always: see `Serializer.EmptyFieldVanishes` and `Serializer.PipeSplitsField`. `Serializer.ReparseSerialized` states the condition under which it does hold.

## Model

| member | source | states |
|---|---|---|
| Strings.Split | csvmatrix/csvmatrix.js:19 | `split` on one character returns at least one piece, and no piece holds the separator |
| Strings.JoinSplit | csvmatrix/csvmatrix.js:19 | joining the pieces of a split with the same separator gives back the string |
| Strings.SplitJoin | csvmatrix/csvmatrix.js:19-21 | splitting a join of separator-free pieces gives back those pieces |
| Strings.SplitCons | csvmatrix/csvmatrix.js:19 | a separator-free prefix followed by the separator is the first piece |
| Strings.SplitNone | csvmatrix/csvmatrix.js:19 | a string without the separator splits into itself |
| Strings.JoinSnoc | csvmatrix/csvmatrix.js:112 | joining one more element appends the separator and that element |
| Strings.JoinExcludes | csvmatrix/csvmatrix.js:112 | a character other than the separator that is in no element is not in the join |
| Strings.SplitExcludes | csvmatrix/csvmatrix.js:21 | a character missing from the string is missing from every piece |
| Fields.RunLength | csvmatrix/csvmatrix.js:14 | the plain run `[^,"\|]+` at the start of a string: every character in it is a run character, and the one after it is not |
| Fields.FirstQuote | csvmatrix/csvmatrix.js:14 | the position of the first `"`, and no `"` before it; none when the string has no `"` |
| Fields.PieceLength | csvmatrix/csvmatrix.js:14 | one alternative of the regex group, when one matches, has positive length within the string |
| Fields.MatchLength | csvmatrix/csvmatrix.js:14 | the greedy repetition of pieces stays within the string |
| Fields.Tokenize | csvmatrix/csvmatrix.js:14-24 | `line_str.match(FIELD_REGEX)`: every token is non-empty |
| Fields.MatchLengthZero | csvmatrix/csvmatrix.js:14 | no token starts at a position exactly when no piece starts there |
| Fields.TokenizeEmpty | csvmatrix/csvmatrix.js:23-24 | a line yields no token (`match` returns `null`) exactly when no piece starts anywhere in it |
| Fields.Fragments | csvmatrix/csvmatrix.js:14 | a reference definition for quote-free lines: splitting on `,` and `\|` always gives at least one fragment |
| Fields.NonEmpty | csvmatrix/csvmatrix.js:14 | a reference definition: dropping the empty fragments leaves only non-empty ones |
| Fields.FragmentsPrefix | csvmatrix/csvmatrix.js:14 | a separator-free prefix joins the first fragment of the text after it |
| Fields.TokenizeUnquoted | csvmatrix/csvmatrix.js:14 | on a line without `"` the tokens are exactly the non-empty fragments between `,` and `\|`, in order |
| Fields.TokenizeFront | csvmatrix/csvmatrix.js:14-24 | a match at the front of a line is its first token, and the rest of the line gives the remaining tokens |
| Fields.UnmatchedQuote | csvmatrix/csvmatrix.js:14 | a `"` that no later `"` closes is stepped over: the line gives the tokens of what follows it |
| Fields.SeparatorsOnly | csvmatrix/csvmatrix.js:23-24 | a line made of `,` and `\|` only, the empty line included, yields no token |
| Fields.TokensExclude | csvmatrix/csvmatrix.js:22-24 | tokens are taken from the line: a character not in the line is in no token |
| Fields.Unescape | csvmatrix/csvmatrix.js:27 | `replaceAll('""', '"')` never lengthens the string |
| Fields.DecodeQuotedPlain | csvmatrix/csvmatrix.js:26-27 | a quoted token without a doubled quote inside loses exactly its two outer quotes |
| Fields.UnescapePlain | csvmatrix/csvmatrix.js:27 | a string with no `""` is left unchanged by the quote replacement |
| Fields.DecodeUnquoted | csvmatrix/csvmatrix.js:26-29 | a token without `"` is returned unchanged |
| Fields.UnescapeDoubleQuotes | csvmatrix/csvmatrix.js:27 | replacing `""` by `"` undoes doubling every quote |
| Fields.QuoteEscape | csvmatrix/csvmatrix.js:100-106 | a value changes exactly when it holds `"` or the delimiter, and then it is quoted; decoding the result gives the value back |
| Fields.EscapeAll | csvmatrix/csvmatrix.js:100-106 | `quote_escape` maps every value of a row, position by position, and the field map's decoder (`DecodeAll`) gives the row back |
| Fields.DoubleQuotes | csvmatrix/csvmatrix.js:103 | doubling the quotes never shortens the value |
| Fields.DoubleQuotesAppend | csvmatrix/csvmatrix.js:103 | quote doubling distributes over concatenation |
| Fields.DoubleQuotesPlain | csvmatrix/csvmatrix.js:103 | a value without `"` is not changed by quote doubling |
| Fields.RunLengthPrefix | csvmatrix/csvmatrix.js:14 | a plain run ends where a stopping character or the end of the line follows it |
| Fields.FirstQuoteAfter | csvmatrix/csvmatrix.js:14 | the first quote after a quote-free prefix sits right after it |
| Fields.RunMatch | csvmatrix/csvmatrix.js:14 | a non-empty plain value followed by a stop is matched whole |
| Fields.QuotedPiece | csvmatrix/csvmatrix.js:14 | `"a"` with no quote in `a` is one piece of length `\|a\| + 2`, and matching continues after it |
| Fields.DoubleQuotesSplit | csvmatrix/csvmatrix.js:103 | quote doubling around the first quote of a value |
| Fields.EnquoteSplit | csvmatrix/csvmatrix.js:103 | an escaped value around its first quote is a quoted run followed by the escaped rest |
| Fields.EnquoteMatch | csvmatrix/csvmatrix.js:14 | a quoted, quote-doubled value followed by a stop is matched as one token |
| Fields.EscapedMatch | csvmatrix/csvmatrix.js:100-106 | a rescannable escaped value followed by a stop is matched as one non-empty token |
| Fields.SkipComma | csvmatrix/csvmatrix.js:14 | a leading `,` is skipped by the tokenizer |
| Fields.UnescapeExcludes | csvmatrix/csvmatrix.js:27 | the quote replacement adds no character |
| Fields.DecodeExcludes | csvmatrix/csvmatrix.js:25-31 | decoding adds no character |
| Fields.DoubleQuotesExcludes | csvmatrix/csvmatrix.js:103 | quote doubling adds no character other than `"` |
| Fields.EscapeExcludes | csvmatrix/csvmatrix.js:100-106 | `quote_escape` adds no character other than `"` |
| Table.ScannedAppend | csvmatrix/csvmatrix.js:22-23 | scanning the lines of two texts one after the other gives their token lists one after the other |
| Table.LineRow | csvmatrix/csvmatrix.js:24-31 | a line gives one row exactly when it yields a token |
| Table.Rows | csvmatrix/csvmatrix.js:22-38 | the rows pushed are never more than the text lines |
| Table.RowsNonEmpty | csvmatrix/csvmatrix.js:22-38 | every row holds at least one field |
| Table.RowsAppend | csvmatrix/csvmatrix.js:22-38 | rows of concatenated lines are the concatenated rows: input order is kept |
| Table.RowsSingle | csvmatrix/csvmatrix.js:22-38 | one text line gives the row of its tokens, or none |
| Table.RowsAround | csvmatrix/csvmatrix.js:22-38 | the rows of the lines before, at and after any split point |
| Table.RowsAt | csvmatrix/csvmatrix.js:22-38 | the rows are those of the lines before a line, then that line's row, then the rows after it |
| Table.FilledLinesSnoc | csvmatrix/csvmatrix.js:22-38 | one more text line adds its own position to the token-bearing lines when it yields a token, and nothing otherwise |
| Table.RowsCount | csvmatrix/csvmatrix.js:22-38 | there are exactly as many rows as text lines that yield a token, so with LineIndexKeys there are as many rows as `this[index]` registrations |
| Table.RowsAllFilled | csvmatrix/csvmatrix.js:22-38 | when every data line yields a token there is one row per data line |
| Table.LineIndexKeys | csvmatrix/csvmatrix.js:38 | `this[index]` is set exactly for the token-bearing text lines, to the number of rows pushed before that line |
| Table.LineIndexAt | csvmatrix/csvmatrix.js:38 | `this[index]` is that line's decoded row |
| Table.LineIndexOrdered | csvmatrix/csvmatrix.js:22-38 | later text lines lead to later rows |
| Table.LineIndexOnto | csvmatrix/csvmatrix.js:38 | every row is registered under some text-line index |
| Table.LineIndexDense | csvmatrix/csvmatrix.js:38 | with no skipped line up to `t`, `this[t]` is row `t` |
| Table.RowsExclude | csvmatrix/csvmatrix.js:23-31 | a character in no token is in no field |
| Table.NoLineBreaksRead | csvmatrix/csvmatrix.js:19-31 | no field and no header name read from the text holds a line break |
| Table.KeyValues | csvmatrix/csvmatrix.js:34 | one key value per key column |
| Table.KeyIndexDomain | csvmatrix/csvmatrix.js:33-37 | a key string is registered exactly when some row has it, in comma or pipe form |
| Table.KeyIndexLast | csvmatrix/csvmatrix.js:35-37 | a registered key string leads to a row that has it, and no later row has it |
| Table.KeyIndexLastWins | csvmatrix/csvmatrix.js:33-37 | both: the later row overwrites the earlier one when keys collide |
| Table.KeyLookup | csvmatrix/csvmatrix.js:33-37 | a row whose key no later row repeats is found by that key |
| Table.NamesUpToLastWins | csvmatrix/csvmatrix.js:59-61 | a header name is registered exactly when some column has it, and it leads to the last such column |
| Table.NameIndexDistinct | csvmatrix/csvmatrix.js:59-61 | with distinct names, each name leads to its own column |
| Table.Transpose | csvmatrix/csvmatrix.js:50-63 | one column per position of row 0, each with one entry per row, entry `[j][i]` being `rows[i][j]` |
| Table.TransposeUnique | csvmatrix/csvmatrix.js:50-63 | anything with that shape and those entries is the transpose |
| Table.TransposeTwice | csvmatrix/csvmatrix.js:50-63 | the transpose of the transpose is the rows |
| Serializer.RecordLines | csvmatrix/csvmatrix.js:108-111 | one output line per row, plus one for the header names when there are any |
| Serializer.RecordLinesLayout | csvmatrix/csvmatrix.js:108-111 | the output lines are the header names joined by `,` when there are any, then, in the order of the rows, each row's `quote_escape`d values joined by `,` |
| Serializer.Serialize | csvmatrix/csvmatrix.js:112 | the text always ends in a line break |
| Serializer.EscapeRowFlat | csvmatrix/csvmatrix.js:100-108 | a row's output line holds no line break when its values hold none |
| Serializer.RecordLinesFlat | csvmatrix/csvmatrix.js:100-111 | no output line holds a line break when no value does |
| Serializer.SerializeLayout | csvmatrix/csvmatrix.js:98-113 | split at line breaks, the text is exactly the output lines followed by one empty piece, so each line ends in exactly one line break |
| Serializer.EscapeAllCons | csvmatrix/csvmatrix.js:101-106 | escaping a row escapes its first value, then the rest of the row |
| Serializer.EscapeRowCons | csvmatrix/csvmatrix.js:108 | a row of two or more values is written as its first escaped value, a comma, then the line of the other values |
| Serializer.TokenizeEscapedRow | csvmatrix/csvmatrix.js:100-108 | a row of rescannable values tokenizes back into its escaped values |
| Serializer.ReparseRow | csvmatrix/csvmatrix.js:98-108 | such a row's output line reads back as that row |
| Serializer.RowsOfRows | csvmatrix/csvmatrix.js:22-38 | lines that each read back as a known row give those rows in order |
| Serializer.SerializedLines | csvmatrix/csvmatrix.js:109-112 | the output's header line splits back into the header names, and the data lines are the row lines plus an empty one |
| Serializer.BodyRows | csvmatrix/csvmatrix.js:108-112 | the row lines and the final empty line read back as the rows |
| Serializer.ReparseSerialized | tests/test-01.js:50-53 | reading the output of `toString` gives back the header names and rows, for rescannable values |
| Serializer.EmptyFieldVanishes | csvmatrix/csvmatrix.js:100-106 | the row `["", "x"]` is written as `,x`, which reads back as `["x"]` |
| Serializer.PipeSplitsField | csvmatrix/csvmatrix.js:100-106 | a value `a\|b` is written unquoted and reads back as two fields |
| Matrix.CSVMatrix.constructor | csvmatrix/csvmatrix.js:17-48 | delimiter, header names, rows, key map and line map are those of the text, and the transpose agrees with the rows; the header line is not a data row; the object keeps the lookups tied to the text lines read |
| Matrix.CSVMatrix.Load | csvmatrix/csvmatrix.js:22-47 | the `forEach` over the data lines then `_sync_transpose`, from an empty object, gives the rows and maps of those lines with a valid transpose |
| Matrix.CSVMatrix.ReadLines | csvmatrix/csvmatrix.js:22-46 | the `forEach` over the data lines gives their rows, key map and line map |
| Matrix.CSVMatrix.AddLine | csvmatrix/csvmatrix.js:22-38 | one turn of the `forEach`: a line with no token changes nothing; otherwise its decoded row is pushed, and its key strings and its line index map to the new row's position |
| Matrix.CSVMatrix.SyncTranspose | csvmatrix/csvmatrix.js:50-63 | the columns become the transpose of the rows, and the header names map to their column positions |
| Matrix.CSVMatrix.Get | csvmatrix/csvmatrix.js:65-68 | `get(i)` is row `i` exactly when `i` is in range, and it agrees with the columns |
| Matrix.CSVMatrix.Array | csvmatrix/csvmatrix.js:72-74 | exactly `_lines`; when valid, each row is as wide as there are columns and agrees with them entry by entry |
| Matrix.CSVMatrix.Transp | csvmatrix/csvmatrix.js:76-78 | exactly the transpose of the rows when valid: one column per position of row 0, each with one entry per row, entry `[j][i]` being row `i`'s field `j` |
| Matrix.CSVMatrix.At | csvmatrix/csvmatrix.js:38 | `m[i]` is present exactly when text line `i` (header excluded) yields a token, and is then that line's decoded tokens |
| Matrix.CSVMatrix.Lin | csvmatrix/csvmatrix.js:80-83 | `lin(n)` for a number is row `n - 1` exactly when `1 <= n <= rows` |
| Matrix.CSVMatrix.LinByKey | csvmatrix/csvmatrix.js:80-85 | `lin(args)` for non-numbers finds a row exactly when keys are on and some row has the comma join of the arguments as its comma or pipe key, and then it is the last such row; without keys it finds nothing |
| Matrix.CSVMatrix.Col | csvmatrix/csvmatrix.js:87-92 | `col(n)` for a number is column `n - 1` exactly when in range, and is that position of every row |
| Matrix.CSVMatrix.ColByName | csvmatrix/csvmatrix.js:87-90 | `col(name)` finds a column exactly when some header name of a column is `name`; it is then the last such column, whose header name is `name`, and it holds that position of every row |
| Matrix.CSVMatrix.Cell | csvmatrix/csvmatrix.js:94-96 | `cell(r, c)` throws exactly when row `r` is missing, is `undefined` exactly when the row has no field `c`, and is field `c - 1` of row `r - 1`, that is, entry `r - 1` of column `c - 1` |
| Matrix.CSVMatrix.ToString | csvmatrix/csvmatrix.js:98-113 | the text ends in a line break, and without line breaks in the values it is the header line and one line per row, each ended by one line break |
| Matrix.ColumnName | csvmatrix/csvmatrix.js:59-61 | a name is registered for the first `n` columns exactly when one of them carries it, and it leads to the last of them |
| Matrix.ReadKey | csvmatrix/csvmatrix.js:33-37 | after one row is registered, both of its key strings lead to its position, the registered keys grow by exactly those two, and every other key keeps its position |
| Matrix.ReadStep | csvmatrix/csvmatrix.js:22-38 | one turn of the `forEach` keeps the loop's state equal to that of the lines read so far |
| Matrix.BuildStep | csvmatrix/csvmatrix.js:22-38 | one more text line adds its row and, if it yields tokens, its line index |
| Matrix.KeyIndexStep | csvmatrix/csvmatrix.js:33-37 | one more row writes its comma form, then its pipe form, to its position |
| Matrix.ColByNameIsCol | tests/test-01.js:89-94 | `col(name)` equals `col(i + 1)` for the name at header position `i`, when the names are distinct |
| Matrix.LinByKeyIsLin | tests/test-01.js:114-120 | `lin(k1, k2)` and `lin("k1\|k2")` equal `lin(i + 1)` for the row `i` with those keys, when no later row has them |
| Matrix.AtIsGet | tests/test-01.js:73-76 | `m[i]` equals `get(i)` when no text line up to `i` was skipped |
| Samples.DoubleQuotesTwice | csvmatrix/csvmatrix.js:103 | each of two quotes in a value is doubled and nothing else changes |
| Samples.EscapeTwice | csvmatrix/csvmatrix.js:100-106 | a value with two quotes is quoted with its quotes doubled, and decoding gives it back |
| Samples.ChefeRoundTrip | tests/test-01.js:45 | `eliane "chefe"` is written as `"eliane ""chefe"""`, which decodes back to it |
| Samples.EscapeWithDelim | csvmatrix/csvmatrix.js:100-106 | a quote-free value holding the delimiter is only wrapped in quotes |
| Samples.EscapeJorge | tests/test-01.js:43 | `figueiredo, jorge` is written inside quotes |
| Samples.EscapePlain | tests/test-01.js:42 | `dalton` is written unchanged |
| Samples.QuotedField | csvmatrix/csvmatrix.js:14 | a quoted field with no quote inside, then a comma, is one token followed by the tokens of the rest |
| Samples.PlainField | csvmatrix/csvmatrix.js:14 | a plain field, then a comma, is one token followed by the tokens of the rest |
| Samples.PlainLast | csvmatrix/csvmatrix.js:14 | a plain field alone is one token |
| Samples.TokenizeQuotedPlain | csvmatrix/csvmatrix.js:14-24 | a line `"a",x,"b",y` gives four tokens, a comma inside `b` included |
| Samples.DecodeQuoteFree | csvmatrix/csvmatrix.js:26-27 | a quoted token with no quote inside decodes to what the quotes enclose |
| Samples.RowQuotedPlain | csvmatrix/csvmatrix.js:22-31 | such a line decodes to the row `[a, x, b, y]` |
| Samples.TokenizeJorge | tests/test-01.js:7 | the line `"lp1",1,"figueiredo, jorge",4` gives four tokens and decodes to the row at tests/test-01.js:20 |

## Left out

- The input is a whole string. Reading files and the module system are not part of this model.
- `delim` is one character. The original accepts any string, used by `split` and `includes`. `opts.delim` that is empty or otherwise falsy falls back to `,` in the original. The model's `None` stands for that case.
- Characters are Dafny `char`s, which are not UTF-16 code units. The model has no notion of surrogate pairs.
- The object's dynamic properties share one namespace in JavaScript: a key string, a text-line index, a header name and a method name can overwrite each other. The model keeps three separate maps and does not model those collisions.
- Key map entries are row positions rather than the row arrays themselves.
- A second `_sync_transpose` with header names throws in the original, because `Object.defineProperty` makes the column properties non-configurable. For the same reason, duplicate header names throw during construction. The model recomputes the columns, and it registers a repeated header name at its last column.
- Column properties for positions past the header names are left out. The original registers them under the name `"undefined"`. Call the row width minus the number of header names the excess. With an excess of two or more, the second `Object.defineProperty(this, undefined, …)` redefines a non-configurable property (csvmatrix/csvmatrix.js:60), so the original constructor throws a TypeError. The model's constructor accepts that input.
- The per-row named accessors are left out. The original defines each header name as a property of the row array itself (csvmatrix/csvmatrix.js:39-45), so some names change the rows or make the original throw, while the model's constructor accepts them and leaves the rows as read:
  - a name that is an array index below the row width (header `a,0` over `x,y`) overwrites that field, so the original's row 0 is `["y","y"]`;
  - a name equal to the row width (header `a,2` over `x,y`) extends the row by one field, which widens the transpose;
  - a name that is a larger index (header `a,3` over `x,y`) makes the excess two or more, so the constructor throws as described above;
  - the name `length` throws, because an array's `length` cannot be redefined;
  - a name of an `Array.prototype` method used later, such as `map`, shadows it, so `toString` throws where it calls `line.map` (csvmatrix/csvmatrix.js:101).
- Header names used as keys are left out. The key values are read before the named accessors are attached, so in the original such keys read `undefined`.
- `get` with a non-number returns `"Ops!!"`. The model takes integer indices only, and key lookup is the separate `LinByKey`.
- `lin` with a numeric first argument and further arguments is modelled as `Lin` of the first argument.
- Matrix.CSVMatrix.constructor: requires at least one data row and rows of one length. Without a data row, the original throws reading `_lines[0].length`. With ragged rows, the original's transpose holds `undefined` for the fields missing from rows shorter than row 0, and silently drops the fields of rows wider than row 0. It also accepts header names that the original turns into changed rows or a throw: array indices, `length` and `Array.prototype` method names, as listed under the per-row accessors above.
- Matrix.CSVMatrix.Cell: reading past the fields of a row is `Undefined`. The model does not carry `undefined` into the columns.
- Multi-line quoted fields do not exist in the original (it splits at every `\n`). CRLF is not processed: a `\r` stays in the last field. The model follows the code in both.
- A general regular-expression engine is left out; the one regex is a hand-written scanner.
- Serializer.ReparseSerialized: the round trip is proved when every value is non-empty, holds no line break, and is either quoted by `quote_escape` or free of `,` and `|`; with a header, the delimiter must be `,` and no header name may hold `,` or a line break. Serializer.EmptyFieldVanishes and Serializer.PipeSplitsField show two inputs where it fails. These conditions are sufficient, not necessary: a header name may hold `,`, for instance, when the delimiter is another character.
