/**
 * What `run_query`'s `format` call makes of the rewritten query. The subquery keeps the CSV
 * reader's `{csv}` placeholder, so the path is filled in there; but the original column names
 * are pasted in with their braces intact, and `format` reads those braces too.
 */
module SubqueryFormat {
  import opened Wrappers
  import opened Text
  import opened Ascii
  import opened Identifiers
  import opened Aliases
  import opened QueryRewrite
  import opened PlaceholderFormat
  import opened SqlPath

  /** The subquery as the database receives it: the reader's argument is `path`. */
  function FilledSubquery(aliases: seq<ColumnAlias>, path: string): string
  {
    SELECT_OPEN + SelectList(aliases, "AS") + FROM_OPEN + path + SUBQUERY_TAIL
  }

  predicate SafeAliases(aliases: seq<ColumnAlias>)
  {
    forall i :: 0 <= i < |aliases| ==> IsSafeIdentifier(aliases[i].safe)
  }

  predicate BraceFreeOriginals(aliases: seq<ColumnAlias>)
  {
    forall i :: 0 <= i < |aliases| ==> BraceFree(aliases[i].original)
  }

  lemma MarkerAroundPlaceholder()
    ensures MARKER == "read_csv_auto('" + PLACEHOLDER + "')"
  {
  }

  lemma SafeIdentifierBraceFree(s: string)
    requires IsSafeIdentifier(s)
    ensures BraceFree(s)
  {
  }

  lemma {:induction false} JoinBraceFree(parts: seq<string>, sep: string)
    requires BraceFree(sep)
    requires forall i :: 0 <= i < |parts| ==> BraceFree(parts[i])
    ensures BraceFree(JoinWith(parts, sep))
  {
    if |parts| > 1 {
      JoinBraceFree(parts[1..], sep);
    }
  }

  /** With brace-free column names the select list has no brace for `format` to read. */
  lemma {:induction false} SelectListBraceFree(aliases: seq<ColumnAlias>, keyword: string)
    requires SafeAliases(aliases) && BraceFreeOriginals(aliases) && BraceFree(keyword)
    ensures BraceFree(SelectList(aliases, keyword))
  {
    var items := AliasItems(aliases, keyword);
    forall i | 0 <= i < |items| ensures BraceFree(items[i]) {
      ItemIsAliasItem(aliases, keyword, i);
      SafeIdentifierBraceFree(aliases[i].safe);
    }
    JoinBraceFree(items, ", ");
  }

  lemma {:induction false} ItemIsAliasItem(aliases: seq<ColumnAlias>, keyword: string, i: nat)
    requires i < |aliases|
    ensures AliasItems(aliases, keyword)[i] == AliasItem(aliases[i], keyword)
    decreases i
  {
    if i > 0 {
      ItemIsAliasItem(aliases[1..], keyword, i - 1);
    }
  }

  const SUBQUERY_TAIL: string := "'))"

  lemma FromClausePieces()
    ensures " FROM " + MARKER + ")" == FROM_OPEN + PLACEHOLDER + SUBQUERY_TAIL
    ensures BraceFree(FROM_OPEN) && BraceFree(SUBQUERY_TAIL) && BraceFree("(SELECT ")
  {
    MarkerAroundPlaceholder();
    Regroup(" FROM ", "read_csv_auto('", PLACEHOLDER, "')", ")");
    assert " FROM " + "read_csv_auto('" == FROM_OPEN;
    assert "')" + ")" == SUBQUERY_TAIL;
  }

  /** The subquery's `FROM` clause formats to a reader call on `path`. */
  lemma FromClauseFormats(path: string)
    ensures Format(" FROM " + MARKER + ")", path) == Ok(FROM_OPEN + path + SUBQUERY_TAIL)
  {
    FromClausePieces();
    FormatSinglePlaceholder(FROM_OPEN, SUBQUERY_TAIL, path);
  }

  lemma Regroup(a: string, b: string, c: string, d: string, e: string)
    ensures a + b + c + d + e == a + (b + (c + d + e))
  {
  }

  lemma FormatAround(open: string, select: string, list: string, from: string, fromOut: string, path: string)
    requires BraceFree(open)
    requires Format(select, path) == Ok(list) && Format(from, path) == Ok(fromOut)
    ensures Format(open + (select + from), path) == Ok(open + (list + fromOut))
  {
    FormatConcat(select, from, path);
    FormatAfterBraceFree(open, select + from, path);
  }

  /**
   * A select list that formats to `list` yields the subquery over `list` reading `path`:
   * the `{csv}` of the reader call is the only placeholder outside the list.
   */
  lemma SubqueryAround(select: string, list: string, path: string)
    requires Format(select, path) == Ok(list)
    ensures Format("(SELECT " + select + " FROM " + MARKER + ")", path)
         == Ok("(SELECT " + list + FROM_OPEN + path + SUBQUERY_TAIL)
  {
    FromClausePieces();
    FromClauseFormats(path);
    FormatAround("(SELECT ", select, list, " FROM " + MARKER + ")", FROM_OPEN + path + SUBQUERY_TAIL, path);
    Regroup("(SELECT ", select, " FROM ", MARKER, ")");
    Regroup("(SELECT ", list, FROM_OPEN, path, SUBQUERY_TAIL);
  }

  /**
   * As written, for column names without braces: `format` turns the subquery's `{csv}` into
   * the path and leaves the select list as it is.
   */
  lemma SubqueryFormats(aliases: seq<ColumnAlias>, path: string)
    requires SafeAliases(aliases) && BraceFreeOriginals(aliases)
    ensures Format(Subquery(aliases), path) == Ok(FilledSubquery(aliases, path))
  {
    var list := SelectList(aliases, "AS");
    SelectListBraceFree(aliases, "AS");
    assert Format(list, path) == Ok(list);
    SubqueryAround(list, list, path);
  }

  /** A `{` that opens neither `{{` nor `{csv}` stops `format`, whatever brace-free text precedes it. */
  lemma FormatFailsAtStrayBrace(before: string, after: string, path: string)
    requires BraceFree(before)
    requires |after| >= 2 && after[0] == '{' && after[1] != '{' && after[1] != 'c'
    ensures Format(before + after, path) == Err(UnsupportedField)
  {
    FormatAfterBraceFree(before, after, path);
  }

  /** A select list with a stray `{` after brace-free text makes the whole subquery fail. */
  lemma SubqueryFailsAt(list: string, before: string, after: string, path: string)
    requires list == before + after && BraceFree(before)
    requires |after| >= 2 && after[0] == '{' && after[1] != '{' && after[1] != 'c'
    ensures Format("(SELECT " + list + " FROM " + MARKER + ")", path) == Err(UnsupportedField)
  {
    FromClausePieces();
    var from := " FROM " + MARKER + ")";
    Regroup("(SELECT ", list, " FROM ", MARKER, ")");
    SplitRegroup("(SELECT ", before, after, from);
    BraceFreeConcat("(SELECT ", before);
    FormatFailsAtStrayBrace("(SELECT " + before, after + from, path);
  }

  lemma SplitRegroup(a: string, b: string, c: string, d: string)
    ensures a + ((b + c) + d) == (a + b) + (c + d)
  {
  }

  lemma SanitizeBraceColumn(a: string, b: string)
    requires a == "a" && b == "b"
    ensures Sanitize(a + ['{'] + b) == "a_b"
  {
    assert |a| == 1 && a[0] == 'a' && IsAlnum(a[0]);
    assert |b| == 1 && b[0] == 'b' && IsAlnum(b[0]);
    SanitizeTwoWords(a, '{', b);
    LowerAsciiNoUpper(a);
    LowerAsciiNoUpper(b);
  }

  lemma BraceColumnAlias(column: string)
    requires column == "a{b"
    ensures AliasesOf([column]) == [ColumnAlias(column, "a_b")]
  {
    assert "a" + ['{'] + "b" == column;
    SanitizeBraceColumn("a", "b");
    var m := AliasesOf([column]);
    assert m[0] == ColumnAlias(column, Sanitize(column));
  }

  lemma BraceColumnItem(column: string)
    requires column == "a{b"
    ensures SelectList([ColumnAlias(column, "a_b")], "AS") == "\"a" + "{b\" AS a_b"
  {
    AliasItemsOfOne(ColumnAlias(column, "a_b"), "AS");
  }

  /**
   * As written, a column named `a{b` (alias `a_b`) makes the rewritten query unformattable:
   * `format` reads `{b` as the start of a replacement field.
   */
  lemma BraceInColumnNameFails(column: string, path: string)
    requires column == "a{b"
    ensures AliasesOf([column]) == [ColumnAlias(column, "a_b")]
    ensures Format(Subquery(AliasesOf([column])), path) == Err(UnsupportedField)
  {
    BraceColumnAlias(column);
    BraceSubqueryFails(column, path);
  }

  lemma BraceSubqueryFails(column: string, path: string)
    requires column == "a{b"
    ensures Format(Subquery([ColumnAlias(column, "a_b")]), path) == Err(UnsupportedField)
  {
    BraceColumnItem(column);
    var after := "{b\" AS a_b";
    assert after[0] == '{' && after[1] == 'b';
    SubqueryFailsAt(SelectList([ColumnAlias(column, "a_b")], "AS"), "\"a", after, path);
  }

  /** The item the script evidently meant: the column name with its braces doubled for `format`. */
  function EscapedAliasItem(a: ColumnAlias): string
  {
    AliasItem(ColumnAlias(EscapeBraces(a.original), a.safe), "AS")
  }

  function EscapedSelectList(aliases: seq<ColumnAlias>): string
  {
    JoinWith(seq(|aliases|, i requires 0 <= i < |aliases| => EscapedAliasItem(aliases[i])), ", ")
  }

  function EscapedSubquery(aliases: seq<ColumnAlias>): string
  {
    SELECT_OPEN + EscapedSelectList(aliases) + " FROM " + MARKER + ")"
  }

  /** The rewrite with the brace-escaped subquery. */
  function EscapedRewrite(query: string, aliases: seq<ColumnAlias>): string
  {
    ReplaceAll(query, MARKER, EscapedSubquery(aliases))
  }

  lemma ItemRegroup(quoted: string, safe: string)
    ensures AliasItem(ColumnAlias(quoted, safe), "AS") == "\"" + (quoted + ("\" " + "AS" + " " + safe))
  {
  }

  lemma EscapedItemFormats(a: ColumnAlias, path: string)
    requires IsSafeIdentifier(a.safe)
    ensures Format(EscapedAliasItem(a), path) == Ok(AliasItem(a, "AS"))
  {
    var keyword := "\" " + "AS" + " ";
    var tail := keyword + a.safe;
    SafeIdentifierBraceFree(a.safe);
    assert BraceFree(keyword) && BraceFree("\"");
    BraceFreeConcat(keyword, a.safe);
    assert Format(tail, path) == Ok(tail);
    FormatEscapedBraces(a.original, tail, path);
    FormatAfterBraceFree("\"", EscapeBraces(a.original) + tail, path);
    ItemRegroup(EscapeBraces(a.original), a.safe);
    ItemRegroup(a.original, a.safe);
  }

  lemma EscapedSelectListFormats(aliases: seq<ColumnAlias>, path: string)
    requires SafeAliases(aliases)
    ensures Format(EscapedSelectList(aliases), path) == Ok(SelectList(aliases, "AS"))
  {
    var escaped := seq(|aliases|, i requires 0 <= i < |aliases| => EscapedAliasItem(aliases[i]));
    var items := AliasItems(aliases, "AS");
    forall i | 0 <= i < |aliases| ensures Format(escaped[i], path) == Ok(items[i]) {
      ItemIsAliasItem(aliases, "AS", i);
      EscapedItemFormats(aliases[i], path);
    }
    assert Format(", ", path) == Ok(", ");
    FormatJoin(escaped, items, ", ", ", ", path);
  }

  /** With braces doubled, every column name reaches the database verbatim, whatever it holds. */
  lemma EscapedSubqueryFormats(aliases: seq<ColumnAlias>, path: string)
    requires SafeAliases(aliases)
    ensures Format(EscapedSubquery(aliases), path) == Ok(FilledSubquery(aliases, path))
  {
    EscapedSelectListFormats(aliases, path);
    SubqueryAround(EscapedSelectList(aliases), SelectList(aliases, "AS"), path);
  }

  /**
   * The query text between its reader calls formats on its own: piece k gives `outs[k]`.
   * That text may hold `{csv}`, `{{` and `}}` of its own.
   */
  predicate PiecesFormatTo(query: string, path: string, outs: seq<string>)
  {
    var pieces := Split(query, MARKER);
    |outs| == |pieces| && forall k :: 0 <= k < |pieces| ==> Format(pieces[k], path) == Ok(outs[k])
  }

  /**
   * As written, end to end for brace-free column names: every marker becomes the subquery
   * reading `path`, and the text between the markers is formatted as it would be alone.
   */
  lemma RewriteThenFormat(query: string, aliases: seq<ColumnAlias>, path: string, outs: seq<string>)
    requires SafeAliases(aliases) && BraceFreeOriginals(aliases) && PiecesFormatTo(query, path, outs)
    ensures Format(Rewrite(query, aliases), path) == Ok(JoinWith(outs, FilledSubquery(aliases, path)))
  {
    SubqueryFormats(aliases, path);
    FormatJoin(Split(query, MARKER), outs, Subquery(aliases), FilledSubquery(aliases, path), path);
  }

  /** With braces doubled, the same holds for every column list, whatever the names hold. */
  lemma EscapedRewriteThenFormat(query: string, aliases: seq<ColumnAlias>, path: string, outs: seq<string>)
    requires SafeAliases(aliases) && PiecesFormatTo(query, path, outs)
    ensures Format(EscapedRewrite(query, aliases), path) == Ok(JoinWith(outs, FilledSubquery(aliases, path)))
  {
    ReplaceAllIsSplitJoin(query, MARKER, EscapedSubquery(aliases));
    EscapedSubqueryFormats(aliases, path);
    FormatJoin(Split(query, MARKER), outs, EscapedSubquery(aliases), FilledSubquery(aliases, path), path);
  }
}
