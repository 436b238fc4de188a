/**
 * The `--sanitize` query rewrite and the `--show-safe` example subquery (query_csv_duckdb.py):
 * a select list that aliases every column, wrapped as a subquery over the CSV reader, and a
 * plain-text replacement of the reader call in the user's query.
 */
module QueryRewrite {
  import opened Wrappers
  import opened Text
  import opened Aliases
  import opened SqlPath

  /** The text the rewrite looks for in the query: the CSV reader applied to the `{csv}` placeholder. */
  const MARKER: string := "read_csv_auto('{csv}')"

  /** How many mapping entries the `--show-safe` example subquery lists. */
  const SHOW_SAFE_LIMIT: nat := 20

  /** The opening of every subquery the script writes. */
  const SELECT_OPEN: string := "(SELECT "

  /** The text between an item's closing quote and its alias. */
  function AliasSeparator(keyword: string): string
  {
    "\" " + keyword + " "
  }

  /** One select-list item: the original name in double quotes (not escaped), the keyword, the alias. */
  function AliasItem(a: ColumnAlias, keyword: string): string
  {
    "\"" + a.original + AliasSeparator(keyword) + a.safe
  }

  function AliasItems(aliases: seq<ColumnAlias>, keyword: string): (items: seq<string>)
    ensures |items| == |aliases|
  {
    if aliases == [] then [] else [AliasItem(aliases[0], keyword)] + AliasItems(aliases[1..], keyword)
  }

  lemma AliasItemsOfOne(a: ColumnAlias, keyword: string)
    ensures AliasItems([a], keyword) == [AliasItem(a, keyword)]
  {
    assert [a][1..] == [];
  }

  /** The items joined by `", "`, in mapping order. */
  function SelectList(aliases: seq<ColumnAlias>, keyword: string): string
  {
    JoinWith(AliasItems(aliases, keyword), ", ")
  }

  /** The subquery that replaces the marker; it still reads the CSV through `{csv}`. */
  function Subquery(aliases: seq<ColumnAlias>): string
  {
    SELECT_OPEN + SelectList(aliases, "AS") + " FROM " + MARKER + ")"
  }

  /**
   * `query_text.replace("read_csv_auto('{csv}')", subquery)`: the query's pieces between
   * reader calls, in order, joined by the subquery.
   */
  function Rewrite(query: string, aliases: seq<ColumnAlias>): (r: string)
    ensures r == JoinWith(Split(query, MARKER), Subquery(aliases))
  {
    ReplaceAllIsSplitJoin(query, MARKER, Subquery(aliases));
    ReplaceAll(query, MARKER, Subquery(aliases))
  }

  function FirstN(aliases: seq<ColumnAlias>, n: nat): seq<ColumnAlias>
  {
    if |aliases| <= n then aliases else aliases[..n]
  }

  /** The `--show-safe` example: lower-case `as`, at most twenty entries, the escaped path inline, `AS data`. */
  function ShowSafeSnippet(aliases: seq<ColumnAlias>, escapedPath: string): string
  {
    SELECT_OPEN + SelectList(FirstN(aliases, SHOW_SAFE_LIMIT), "as") + FROM_OPEN + escapedPath + "')) AS data"
  }

  /**
   * The rewrite replaces every non-overlapping occurrence of the marker and nothing else: the
   * pieces it joins by the subquery are free of the marker and rebuild the query when joined
   * by the marker.
   */
  lemma RewriteReplacesEveryMarker(query: string)
    ensures forall k :: 0 <= k < |Split(query, MARKER)| ==> !Contains(Split(query, MARKER)[k], MARKER)
    ensures JoinWith(Split(query, MARKER), MARKER) == query
  {
    SplitPiecesAvoidPattern(query, MARKER);
    SplitJoinRoundTrip(query, MARKER);
  }

  /** A query is left unchanged exactly when it does not contain the marker. */
  lemma RewriteUnchangedIff(query: string, aliases: seq<ColumnAlias>)
    ensures Rewrite(query, aliases) == query <==> !Contains(query, MARKER)
  {
    assert |Subquery(aliases)| > |MARKER|;
    ReplaceAllUnchangedIff(query, MARKER, Subquery(aliases));
  }

  /** The marker's leading `r` appears nowhere else in it. */
  lemma MarkerFirstCharUnique()
    ensures FirstCharUnique(MARKER)
  {
  }

  /** A query whose only reader call is at its end gets exactly one subquery there. */
  lemma RewriteMarkerAtEnd(prefix: string, aliases: seq<ColumnAlias>)
    requires !Contains(prefix, MARKER)
    ensures Rewrite(prefix + MARKER, aliases) == prefix + Subquery(aliases)
  {
    MarkerFirstCharUnique();
    ReplaceAllSingleAtEnd(prefix, MARKER, Subquery(aliases));
  }

  /** A query ending in its only reader call, over one column: the call becomes the one-item subquery. */
  lemma RewriteOneColumn(prefix: string, a: ColumnAlias)
    requires !Contains(prefix, MARKER)
    ensures Rewrite(prefix + MARKER, [a]) == prefix + "(SELECT " + AliasItem(a, "AS") + " FROM " + MARKER + ")"
  {
    RewriteMarkerAtEnd(prefix, [a]);
    AliasItemsOfOne(a, "AS");
  }

  /** Splits `s` at the first `d`: the text before it, and the rest, which starts with `d` or is empty. */
  function SplitAtChar(s: string, d: char): (parts: (string, string))
    ensures parts.0 + parts.1 == s && d !in parts.0 && (parts.1 == [] || parts.1[0] == d)
  {
    if s == [] then ([], [])
    else if s[0] == d then ([], s)
    else var (a, b) := SplitAtChar(s[1..], d); ([s[0]] + a, b)
  }

  lemma {:induction false} SplitAtCharUnique(a: string, b: string, d: char)
    requires d !in a && (b == [] || b[0] == d)
    ensures SplitAtChar(a + b, d) == (a, b)
    decreases |a|
  {
    if a != [] {
      SplitAtCharUnique(a[1..], b, d);
      assert (a + b)[1..] == a[1..] + b;
      assert [a[0]] + a[1..] == a;
    } else {
      assert a + b == b;
    }
  }

  /**
   * Reads a select list back: `"original" <keyword> alias` items separated by `", "`.
   * Only a list whose original names hold no `"` and whose aliases hold no `,` reads back unambiguously.
   */
  function ParseSelectList(s: string, keyword: string): Option<seq<ColumnAlias>>
    decreases |s|
  {
    if s == [] then Some([])
    else if s[0] != '"' then None
    else
      var (original, afterName) := SplitAtChar(s[1..], '"');
      var sep := AliasSeparator(keyword);
      if !StartsWith(afterName, sep) then None
      else
        var (safe, afterAlias) := SplitAtChar(afterName[|sep|..], ',');
        if afterAlias == [] then Some([ColumnAlias(original, safe)])
        else if !StartsWith(afterAlias, ", ") then None
        else match ParseSelectList(afterAlias[2..], keyword)
          case None => None
          case Some(rest) => if rest == [] then None else Some([ColumnAlias(original, safe)] + rest)
  }

  predicate Unambiguous(aliases: seq<ColumnAlias>)
  {
    forall i :: 0 <= i < |aliases| ==> '"' !in aliases[i].original && ',' !in aliases[i].safe
  }

  lemma ParseItem(a: ColumnAlias, keyword: string, tail: string)
    requires '"' !in a.original && ',' !in a.safe
    requires tail == [] || StartsWith(tail, ", ")
    ensures var s := AliasItem(a, keyword) + tail;
      && s != [] && s[0] == '"'
      && SplitAtChar(s[1..], '"') == (a.original, AliasSeparator(keyword) + (a.safe + tail))
      && SplitAtChar((a.safe + tail), ',') == (a.safe, tail)
  {
    var s := AliasItem(a, keyword) + tail;
    var rest := AliasSeparator(keyword) + (a.safe + tail);
    assert s == "\"" + a.original + rest;
    assert s[1..] == a.original + rest;
    SplitAtCharUnique(a.original, rest, '"');
    SplitAtCharUnique(a.safe, tail, ',');
  }

  lemma PrefixSlice(p: string, x: string)
    ensures StartsWith(p + x, p) && (p + x)[|p|..] == x
  {
    assert (p + x)[..|p|] == p;
  }

  /** One step of `ParseSelectList`, from the two cuts it makes. */
  lemma ParseStep(s: string, keyword: string, original: string, safe: string, tail: string)
    requires s != [] && s[0] == '"'
    requires SplitAtChar(s[1..], '"') == (original, AliasSeparator(keyword) + (safe + tail))
    requires SplitAtChar(safe + tail, ',') == (safe, tail)
    ensures ParseSelectList(s, keyword)
         == if tail == [] then Some([ColumnAlias(original, safe)])
            else if !StartsWith(tail, ", ") then None
            else match ParseSelectList(tail[2..], keyword)
                 case None => None
                 case Some(rest) => if rest == [] then None else Some([ColumnAlias(original, safe)] + rest)
  {
    PrefixSlice(AliasSeparator(keyword), safe + tail);
  }

  /** A select list's last item reads back on its own. */
  lemma ParseLastItem(a: ColumnAlias, keyword: string)
    requires '"' !in a.original && ',' !in a.safe
    ensures ParseSelectList(AliasItem(a, keyword), keyword) == Some([a])
  {
    ParseItem(a, keyword, []);
    assert AliasItem(a, keyword) + [] == AliasItem(a, keyword);
    ParseStep(AliasItem(a, keyword), keyword, a.original, a.safe, []);
  }

  /** An item in front of `", "` and a non-empty list reads back in front of that list's entries. */
  lemma ParseItemThen(a: ColumnAlias, keyword: string, rest: string, parsed: seq<ColumnAlias>)
    requires '"' !in a.original && ',' !in a.safe
    requires ParseSelectList(rest, keyword) == Some(parsed) && parsed != []
    ensures ParseSelectList(AliasItem(a, keyword) + (", " + rest), keyword) == Some([a] + parsed)
  {
    PrefixSlice(", ", rest);
    ParseItem(a, keyword, ", " + rest);
    ParseStep(AliasItem(a, keyword) + (", " + rest), keyword, a.original, a.safe, ", " + rest);
  }

  /** A select list of two or more entries is the first item, `", "` and the rest of the list. */
  lemma SelectListCons(aliases: seq<ColumnAlias>, keyword: string)
    requires |aliases| >= 2
    ensures SelectList(aliases, keyword) == AliasItem(aliases[0], keyword) + (", " + SelectList(aliases[1..], keyword))
  {
    var items := AliasItems(aliases, keyword);
    assert items[1..] == AliasItems(aliases[1..], keyword);
    assert |items[1..]| >= 1;
  }

  /** Every name is embedded verbatim and in mapping order: the select list reads back to the mapping. */
  lemma {:induction false} SelectListRoundTrip(aliases: seq<ColumnAlias>, keyword: string)
    requires Unambiguous(aliases)
    ensures ParseSelectList(SelectList(aliases, keyword), keyword) == Some(aliases)
    decreases |aliases|
  {
    if |aliases| == 1 {
      assert aliases == [aliases[0]];
      AliasItemsOfOne(aliases[0], keyword);
      assert SelectList(aliases, keyword) == AliasItem(aliases[0], keyword);
      ParseLastItem(aliases[0], keyword);
    } else if |aliases| >= 2 {
      SelectListCons(aliases, keyword);
      assert Unambiguous(aliases[1..]);
      SelectListRoundTrip(aliases[1..], keyword);
      ParseItemThen(aliases[0], keyword, SelectList(aliases[1..], keyword), aliases[1..]);
      assert [aliases[0]] + aliases[1..] == aliases;
    }
  }

  /**
   * Original names are not escaped: a name holding `"` produces the same select list as two
   * other columns, so the list no longer says which columns were meant.
   */
  lemma UnescapedQuoteAmbiguity()
    ensures SelectList([ColumnAlias("a\" AS x, \"b", "y")], "AS")
         == SelectList([ColumnAlias("a", "x"), ColumnAlias("b", "y")], "AS")
  {
    var two := [ColumnAlias("a", "x"), ColumnAlias("b", "y")];
    assert two[1..] == [ColumnAlias("b", "y")];
    AliasItemsOfOne(ColumnAlias("b", "y"), "AS");
    assert AliasItems(two, "AS") == [AliasItem(two[0], "AS")] + AliasItems(two[1..], "AS");
    AliasItemsOfOne(ColumnAlias("a\" AS x, \"b", "y"), "AS");
  }

  /** The `--show-safe` example lists exactly the first twenty entries (all of them when there are fewer). */
  lemma ShowSafeListsFirstTwenty(aliases: seq<ColumnAlias>, escapedPath: string)
    requires Unambiguous(aliases)
    ensures var n := if |aliases| < SHOW_SAFE_LIMIT then |aliases| else SHOW_SAFE_LIMIT;
      var snippet := ShowSafeSnippet(aliases, escapedPath);
      var tail := FROM_OPEN + escapedPath + "')) AS data";
      && |SELECT_OPEN| + |tail| <= |snippet|
      && StartsWith(snippet, SELECT_OPEN)
      && snippet[|snippet| - |tail|..] == tail
      && ParseSelectList(snippet[|SELECT_OPEN|..|snippet| - |tail|], "as") == Some(aliases[..n])
  {
    var n := if |aliases| < SHOW_SAFE_LIMIT then |aliases| else SHOW_SAFE_LIMIT;
    var first := FirstN(aliases, SHOW_SAFE_LIMIT);
    var list := SelectList(first, "as");
    var snippet := ShowSafeSnippet(aliases, escapedPath);
    var tail := FROM_OPEN + escapedPath + "')) AS data";
    assert snippet == SELECT_OPEN + list + tail;
    assert snippet[..|SELECT_OPEN|] == SELECT_OPEN;
    assert snippet[|snippet| - |tail|..] == tail;
    assert snippet[|SELECT_OPEN|..|snippet| - |tail|] == list;
    assert first == aliases[..n];
    assert Unambiguous(first);
    SelectListRoundTrip(first, "as");
  }
}
