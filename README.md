# query_csv_duckdb — a Dafny model of the SQL-building core

`query_csv_duckdb.py` runs SQL against a CSV file through DuckDB's `read_csv_auto`. Before any
SQL reaches the database, the script builds it as text. This project models that text-building
core and proves what it guarantees:

- **Column-name sanitiser** (`sanitize_identifier`, written twice with the same body). It turns any
  CSV header into a bare SQL identifier: strip whitespace, turn each run of non-`[0-9A-Za-z]`
  characters into `_`, collapse `__+`, strip `_` from both ends, lower-case, use `col` when
  nothing is left, and prefix `c_` when the result starts with a digit. Module `Identifiers` gives
  the pipeline step by step. It proves the pipeline equal to an independent reference definition
  (the name's letter-and-digit words, joined by `_`), proves that every output is a safe
  identifier, and proves that the sanitiser is idempotent and keeps the letters and digits.
- **Mapping builders**: the loops that pair each column with its alias, for `--show-safe` and for
  `--sanitize`. Module `Aliases` models them as one method with loop invariants. It shows that two
  columns can receive the same alias unnoticed.
- **Select list, subquery and rewrite** (module `QueryRewrite`). The list is built as
  `"orig" AS safe, …` and wrapped as `(SELECT … FROM read_csv_auto('{csv}'))`. Python's
  `str.replace` then substitutes it for every reader call in the user's query. The `--show-safe`
  example uses lower-case `as`, at most twenty entries, the escaped path and `AS data`.
- **Path escaping and `{csv}` substitution**:
  - module `SqlPath` doubles every backslash and leaves every other character alone;
  - module `PlaceholderFormat` models the part of `str.format` that the script's templates use;
  - module `SubqueryFormat` covers what `format` does to a rewritten query;
  - module `QueryCli` covers the command paths that produce SQL.

Python's `str` operations (`strip`, `join`, `replace`, `split`) are in module `Text`. Character
classes are in `Ascii`, and `Option`/`Result` are in `Wrappers`.

Some example lemmas take the words of a literal header as parameters fixed by `requires`
(`SanitizeFieldGoalsMade("Field", "Goals", "Made")` stands for the header `Field Goals Made`).
This keeps the proofs from unfolding long string constants.

## Model

| member | source | states |
|---|---|---|
| Ascii.ToLower | query_csv_duckdb.py:97 | an upper-case ASCII letter becomes its lower-case letter (code point + 32); every other character is unchanged |
| Ascii.LowerAscii | query_csv_duckdb.py:97 | each upper-case ASCII letter becomes its own lower-case letter (code point + 32) and every other character is kept, so the result has the input's length, holds no upper-case letter and keeps each position's class: letter or digit, `_`, or other |
| Text.TrimStart | query_csv_duckdb.py:92 | drops only characters of the class, and the result is empty or starts outside the class (the left half of `strip`) |
| Text.TrimEnd | query_csv_duckdb.py:97 | keeps a prefix of the input, drops only class characters, and the result is empty or ends outside the class (the right half of `strip`) |
| Text.Strip | query_csv_duckdb.py:92 | `strip` (here and for `_` at line 97): the result is one slice of the input that neither starts nor ends with a stripped character, and every character before and after that slice is one |
| Text.ReplaceAll | query_csv_duckdb.py:157 | `str.replace` with a non-empty pattern: one left-to-right scan that replaces non-overlapping occurrences and never rescans inserted text; it has no contract of its own, and the three `Text.ReplaceAll…` lemmas below pin it down |
| Text.ReplaceAllIsSplitJoin | query_csv_duckdb.py:157 | `replace` is `split` on the pattern followed by `join` with the replacement |
| Text.SplitPiecesAvoidPattern | query_csv_duckdb.py:157 | no piece between the cut points still contains the pattern, so every occurrence is replaced |
| Text.ReplaceAllUnchangedIff | query_csv_duckdb.py:157 | with a longer replacement, the text is unchanged exactly when it does not contain the pattern |
| Identifiers.ReplaceNonAlnumRuns | query_csv_duckdb.py:94 | the result holds only letters, digits and `_`, has no `__`, is empty exactly when the input is, and starts with the input's first character or `_` |
| Identifiers.CollapseUnderscores | query_csv_duckdb.py:96 | the result has no `__`, is empty exactly when the input is, and keeps the first character |
| Identifiers.CollapseMatchesFilter | query_csv_duckdb.py:96 | collapsing `__+` equals an independent character filter that keeps every character except a `_` directly after a `_` |
| Identifiers.CollapseKeepsOtherCharacters | query_csv_duckdb.py:96 | every character other than `_` survives the collapse, in order: only underscores are removed |
| Identifiers.Sanitize | query_csv_duckdb.py:91-103 | the step-by-step pipeline; every result is a safe identifier: non-empty, starts with a lower-case letter, only `[a-z0-9_]`, no `__`, no trailing `_` (the second copy at lines 140-149 is the same function) |
| Identifiers.Finish | query_csv_duckdb.py:98-102 | on a lower-case string of letters, digits and single inner underscores, the `col` and `c_` steps always give a safe identifier |
| Identifiers.SanitizeMatchesReference | query_csv_duckdb.py:91-103 | the sanitiser equals the reference: lower-cased letter-and-digit words joined by `_`, `col` when there are none, `c_` before a leading digit |
| Identifiers.SanitizeFixedPoint | query_csv_duckdb.py:140-149 | a name is returned unchanged exactly when it already is such a safe identifier |
| Identifiers.SanitizeIdempotent | query_csv_duckdb.py:140-149 | sanitising twice gives the same name as sanitising once |
| Identifiers.SanitizeWithoutAlnums | query_csv_duckdb.py:97-99 | a name with no ASCII letter or digit (empty, blank or punctuation) becomes `col` |
| Identifiers.SanitizeKeepsAlnums | query_csv_duckdb.py:92-103 | the output's letters and digits, after any `c_`, are the input's lower-cased letters and digits in order; `c_` appears exactly when the first of them is a digit |
| Identifiers.SanitizeTwoWords | query_csv_duckdb.py:94-97 | two words of letters and digits, the first starting with a letter, around any one non-alphanumeric separator become the lower-cased words joined by `_` (a first word starting with a digit also gets `c_`, see `Identifiers.SanitizeThreePointPercent`) |
| Identifiers.SanitizeFieldGoalsMade | query_csv_duckdb.py:91-103 | `Field Goals Made` becomes `field_goals_made` |
| Identifiers.SanitizeThreePointPercent | query_csv_duckdb.py:101-102 | `3P%` becomes `c_3p` |
| Identifiers.SanitizeEmptyName | query_csv_duckdb.py:98-99 | the empty name becomes `col` |
| Identifiers.SanitizeBlankName | query_csv_duckdb.py:92-99 | a name of blanks becomes `col` |
| Identifiers.SanitizeAlreadySafe | query_csv_duckdb.py:91-103 | `already_safe` is kept as it is |
| Identifiers.SanitizeGameId | query_csv_duckdb.py:91-103 | `Game ID` becomes `game_id` |
| Aliases.AliasesOf | query_csv_duckdb.py:109-112 | the mapping has one entry per column in column order; entry i keeps column i and carries a safe identifier |
| Aliases.BuildAliases | query_csv_duckdb.py:151-154 | the loop returns as many entries as columns, and entry i is (column i, sanitised column i) |
| Aliases.AliasesKeepColumns | query_csv_duckdb.py:110-112 | the mapping's original names are the column list itself: nothing dropped, merged or reordered |
| Aliases.AliasesCanCollide | query_csv_duckdb.py:151-154 | a column and a second column already named like its alias get the same alias, and nothing detects it |
| QueryRewrite.AliasItem | query_csv_duckdb.py:155 | one select-list item, `"<original>" <keyword> <alias>`, with the name unescaped; no contract of its own: `QueryRewrite.ParseItem` shows the name is read back up to the first `"` |
| QueryRewrite.SelectList | query_csv_duckdb.py:155 | the items joined by `, `, in mapping order; no contract of its own: `QueryRewrite.SelectListRoundTrip` and `QueryRewrite.UnescapedQuoteAmbiguity` state what it preserves and what it loses |
| QueryRewrite.Subquery | query_csv_duckdb.py:156 | `(SELECT <list> FROM read_csv_auto('{csv}'))`, still reading the placeholder; no contract of its own: `SubqueryFormat.SubqueryFormats` states what `format` makes of it |
| QueryRewrite.Rewrite | query_csv_duckdb.py:157 | the rewritten query is the query's pieces between reader calls, in order, joined by the subquery |
| QueryRewrite.RewriteReplacesEveryMarker | query_csv_duckdb.py:157 | the pieces that `Rewrite` joins hold no reader call, and joined by the reader call they give back the query, so every call and nothing else is replaced |
| QueryRewrite.RewriteUnchangedIff | query_csv_duckdb.py:157 | a query is left unchanged exactly when it has no `read_csv_auto('{csv}')` |
| QueryRewrite.RewriteMarkerAtEnd | query_csv_duckdb.py:156-157 | a query whose only reader call is at its end gets exactly one subquery there, whatever text precedes it |
| QueryRewrite.RewriteOneColumn | query_csv_duckdb.py:155-157 | over one column, a query whose only reader call is at its end gets that call replaced by the one-item subquery `(SELECT "<name>" AS <alias> FROM read_csv_auto('{csv}'))` |
| QueryRewrite.SelectListRoundTrip | query_csv_duckdb.py:155 | when no name holds `"` and no alias holds `,`, the select list reads back to the whole mapping, in order, with each name verbatim |
| QueryRewrite.UnescapedQuoteAmbiguity | query_csv_duckdb.py:155 | names are not escaped: one column whose name holds `"` yields the same select list as two other columns |
| QueryRewrite.ShowSafeSnippet | query_csv_duckdb.py:117-119 | the `--show-safe` example subquery; no contract of its own: `QueryRewrite.ShowSafeListsFirstTwenty` states its content |
| QueryRewrite.ShowSafeListsFirstTwenty | query_csv_duckdb.py:117-119 | the `--show-safe` example opens with `(SELECT `, ends with the reader call on the path and `AS data`, and the select list between them, with lower-case `as`, reads back to exactly the first twenty entries (all when fewer) |
| SqlPath.ProbeSql | query_csv_duckdb.py:50-51 | the `LIMIT 0` probe starts with `SELECT * FROM read_csv_auto('`, ends with `') LIMIT 0`, is longer than the path by that text and one character per backslash, and its quoted part decodes back to the path |
| SqlPath.Escape | query_csv_duckdb.py:38 | the escaped path is longer than the path by exactly its number of backslashes |
| SqlPath.UnescapeEscape | query_csv_duckdb.py:50 | halving the doubled backslashes gives back the original path |
| SqlPath.EscapeInjective | query_csv_duckdb.py:76 | two paths escape to the same text only when they are equal |
| SqlPath.EscapeKeepsOtherCharacters | query_csv_duckdb.py:118 | apart from backslashes, the escaped path holds the same characters in the same order |
| SqlPath.EscapeCounts | query_csv_duckdb.py:38 | backslashes double in number, and every other character, `'` included, keeps its count |
| SqlPath.EscapeUnchangedIff | query_csv_duckdb.py:38 | a path is unchanged exactly when it holds no backslash |
| PlaceholderFormat.Format | query_csv_duckdb.py:39 | `query.format(csv=escaped)` for `{{`, `}}` and `{csv}`, any other brace an error; a template without braces formats to itself |
| PlaceholderFormat.FormatSinglePlaceholder | query_csv_duckdb.py:39 | `{csv}` between brace-free texts becomes the value, inserted verbatim |
| PlaceholderFormat.FormatFillsEveryPlaceholder | query_csv_duckdb.py:39 | every `{csv}` between brace-free pieces receives the value |
| PlaceholderFormat.FormatConcat | query_csv_duckdb.py:39 | a template that formats on its own formats the same way in front of any other text |
| PlaceholderFormat.FormatJoin | query_csv_duckdb.py:39 | formatting a join is the join of the formatted pieces around the formatted separator |
| PlaceholderFormat.FormatEscapeBracesRoundTrip | query_csv_duckdb.py:156 | any text whose braces are doubled, as the f-string's `{{csv}}`, formats back to the text |
| SubqueryFormat.SubqueryFormats | query_csv_duckdb.py:156 | with brace-free names, `format` turns the subquery's `{csv}` into the path and leaves the select list as it is |
| SubqueryFormat.BraceInColumnNameFails | query_csv_duckdb.py:155 | the column `a{b` gets alias `a_b`, and `format` fails on its subquery |
| SubqueryFormat.EscapedSubqueryFormats | query_csv_duckdb.py:155-156 | with the names' braces doubled, every subquery formats to the select list over the path, whatever the names hold |
| SubqueryFormat.RewriteThenFormat | query_csv_duckdb.py:157-159 | with brace-free names, when the query text between reader calls formats piece by piece (it may hold `{csv}`, `{{` or `}}`), the rewritten query formats to those pieces joined by the subquery reading the path |
| SubqueryFormat.EscapedRewriteThenFormat | query_csv_duckdb.py:155-159 | the same with brace-escaped names, for every column list |
| QueryCli.RunQuerySql | query_csv_duckdb.py:38-39 | the SQL `run_query` executes: the template formatted with the escaped path; no contract of its own: `QueryCli.DefaultQuerySql`, `QueryCli.CountQuerySql` and `QueryCli.SanitizedSqlReadsEscapedPath` state it for each command |
| QueryCli.DefaultQuerySql | query_csv_duckdb.py:167 | without a query, the first ten rows are read from the escaped path |
| QueryCli.CountQuerySql | query_csv_duckdb.py:125-126 | `--count` counts the rows of the CSV at the escaped path |
| QueryCli.SanitizedQuery | query_csv_duckdb.py:133-157 | no or empty column list gives the exit error (and only then); otherwise the query with every reader call replaced by the subquery over the full mapping |
| QueryCli.SanitizedRun | query_csv_duckdb.py:133-159 | the SQL `--sanitize --query` hands to the database, or the exit or `format` error |
| QueryCli.SanitizedSqlReadsEscapedPath | query_csv_duckdb.py:133-159 | end to end, for brace-free names and any query whose text between reader calls formats piece by piece, each reader call reads the escaped path through the aliasing subquery |
| QueryCli.ShowSafe | query_csv_duckdb.py:105-119 | no or empty column list gives the exit error (and only then); otherwise the full mapping and the example subquery over the escaped path |
| QueryCli.HelpReaderNotRewritten | query_csv_duckdb.py:68 | the reader call as the `--query` help spells it, `read_csv_auto("{csv}")`, is left unchanged by the `--sanitize` rewrite |

`sanitize_identifier` at query_csv_duckdb.py:140-149 has the same body as at 91-103, so
`Identifiers.Sanitize` models both. The loop at 151-154 builds tuples and the one at 109-112
builds dictionaries, with the same contents; `Aliases.BuildAliases` models both.

## Findings

| source | as written | input that shows it | evidently intended | confidence | as-written member | corrected member |
|---|---|---|---|---|---|---|
| query_csv_duckdb.py:155-159 | column names are pasted into the select list as they are, and the rewritten query then goes through `str.format`, which also reads the braces inside those names | a CSV column named `a{b` (alias `a_b`) with `--sanitize`: `format` fails on `{b` instead of running the query | the subquery should quote each name verbatim, so the names' braces should be doubled before `format` | high, not executed | SubqueryFormat.BraceInColumnNameFails | SubqueryFormat.EscapedSubqueryFormats |
| query_csv_duckdb.py:68 | the `--query` help tells users to write `read_csv_auto("{csv}")`, with double quotes, but the `--sanitize` rewrite at line 157 looks only for `read_csv_auto('{csv}')` | `--sanitize --query` with `SELECT * FROM read_csv_auto("{csv}")`, written as the help says: no reader call is replaced, so the aliases are never applied | the help should spell the call with single quotes, as the usage examples at lines 18 and 21 do | high, not executed | QueryCli.HelpReaderNotRewritten | QueryRewrite.RewriteMarkerAtEnd |

`SubqueryFormat.EscapedRewrite` is the rewrite built from the corrected subquery, and
`SubqueryFormat.EscapedRewriteThenFormat` proves it for every column list. The command-level
methods in `QueryCli` model the script as written, so they use `QueryRewrite.Rewrite`. For
the help text, the corrected spelling is the reader call the rewrite looks for, and
`QueryRewrite.RewriteMarkerAtEnd` proves that a query written that way is rewritten.

## Left out

- DuckDB itself is not modelled: connections, `execute(...).df()`, `conn.close()` and the `duckdb.Error` catch. The model stops at the SQL text. `show_columns` becomes the `columns: Option<seq<string>>` parameter, with `None` for an unreadable file; the dtype column of its schema is not modelled.
- Printing is not modelled: pandas frames, `head(50)`, `to_string`, `pprint`, and the usage line built with `"…{0}".format(snippet)`.
- argparse and the flag dispatch in `main` are not modelled. `sys.exit(1)` becomes the `NoColumns` error.
- NBA2K25.py is not part of this model: it is a pandas load and a floating-point ratio.
- PlaceholderFormat.Format: handles only `{{`, `}}` and `{csv}`. Any other brace is an error. Python also accepts conversions, format specs and attribute or index lookups (`{csv!r}`, `{csv:>9}`, `{csv[0]}`). Python also raises distinct exception types, which the model does not separate. Where the model succeeds, Python gives the same text.
- Text.ReplaceAll: requires a non-empty pattern. The script only replaces the fixed reader call and the backslash.
- Ascii.LowerAscii: lowers ASCII letters only. At that step the name holds only `[0-9A-Za-z_]` (the contract of `Identifiers.Sanitize` rests on this), so it agrees with Python's `lower`.
- Identifiers.Sanitize: models the two regular expressions directly as recursive functions, not through a regular-expression engine.
