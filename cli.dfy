/**
 * The command-line paths of query_csv_duckdb.py that build SQL text: the plain and counting
 * queries, `--sanitize` and `--show-safe`. The column list that DuckDB reports for the CSV is
 * a parameter: `None` when the file cannot be read.
 */
module QueryCli {
  import opened Wrappers
  import opened Text
  import opened Identifiers
  import opened Aliases
  import opened QueryRewrite
  import opened SqlPath
  import opened PlaceholderFormat
  import opened SubqueryFormat

  /** Why a command stops before any query reaches the database. */
  datatype CliError =
    | NoColumns                      // no column list, or an empty one: the script exits with status 1
    | FormatFailed(error: FormatError)  // `query.format` raises

  /** The query run when none is given: the first ten rows of the file. */
  const DEFAULT_QUERY: string := "SELECT *" + FROM_OPEN + PLACEHOLDER + "') LIMIT 10"
  /** The `--count` query. */
  const COUNT_QUERY: string := "SELECT COUNT(*) as row_count" + FROM_OPEN + PLACEHOLDER + "')"

  /** The SQL `run_query` executes: the path's backslashes doubled, then put in for `{csv}`. */
  function RunQuerySql(csvPath: string, query: string): Result<string, FormatError>
  {
    Format(query, Escape(csvPath))
  }

  lemma DefaultQueryPieces()
    ensures BraceFree("SELECT *" + FROM_OPEN) && BraceFree("') LIMIT 10")
  {
    FromClausePieces();
    assert BraceFree("SELECT *");
    BraceFreeConcat("SELECT *", FROM_OPEN);
  }

  /** With no query given, the first ten rows are read from the escaped path. */
  lemma DefaultQuerySql(csvPath: string)
    ensures RunQuerySql(csvPath, DEFAULT_QUERY)
         == Ok("SELECT *" + FROM_OPEN + Escape(csvPath) + "') LIMIT 10")
  {
    DefaultQueryPieces();
    FormatSinglePlaceholder("SELECT *" + FROM_OPEN, "') LIMIT 10", Escape(csvPath));
  }

  lemma CountQueryPieces()
    ensures BraceFree("SELECT COUNT(*) as row_count" + FROM_OPEN) && BraceFree("')")
  {
    FromClausePieces();
    assert BraceFree("SELECT COUNT(*) as row_count");
    BraceFreeConcat("SELECT COUNT(*) as row_count", FROM_OPEN);
  }

  /** `--count` counts the rows of the CSV at the escaped path. */
  lemma CountQuerySql(csvPath: string)
    ensures RunQuerySql(csvPath, COUNT_QUERY)
         == Ok("SELECT COUNT(*) as row_count" + FROM_OPEN + Escape(csvPath) + "')")
  {
    CountQueryPieces();
    FormatSinglePlaceholder("SELECT COUNT(*) as row_count" + FROM_OPEN, "')", Escape(csvPath));
  }

  /** `--sanitize`: build the mapping, then replace every reader call in the query by the subquery. */
  method SanitizedQuery(columns: Option<seq<string>>, query: string) returns (r: Result<string, CliError>)
    ensures columns.None? || columns.value == [] <==> r == Err(NoColumns)
    ensures columns.Some? && columns.value != [] ==> r == Ok(Rewrite(query, AliasesOf(columns.value)))
  {
    if columns.None? || columns.value == [] {
      return Err(NoColumns);
    }
    var aliases := BuildAliases(columns.value);
    assert aliases == AliasesOf(columns.value);
    return Ok(ReplaceAll(query, MARKER, Subquery(aliases)));
  }

  /** `--sanitize --query`: the SQL handed to the database, or why there is none. */
  method SanitizedRun(columns: Option<seq<string>>, csvPath: string, query: string) returns (r: Result<string, CliError>)
    ensures columns.None? || columns.value == [] ==> r == Err(NoColumns)
    ensures columns.Some? && columns.value != [] ==>
      r == match RunQuerySql(csvPath, Rewrite(query, AliasesOf(columns.value)))
           case Ok(sql) => Ok(sql)
           case Err(e) => Err(FormatFailed(e))
  {
    var rewritten := SanitizedQuery(columns, query);
    if rewritten.Err? {
      return Err(NoColumns);
    }
    var sql := RunQuerySql(csvPath, rewritten.value);
    if sql.Err? {
      return Err(FormatFailed(sql.error));
    }
    return Ok(sql.value);
  }

  /**
   * End to end, for brace-free column names: each reader call reads the escaped path through
   * the aliasing subquery, and the text between the calls is formatted as it would be alone.
   */
  lemma SanitizedSqlReadsEscapedPath(columns: seq<string>, csvPath: string, query: string, outs: seq<string>)
    requires forall i :: 0 <= i < |columns| ==> BraceFree(columns[i])
    requires PiecesFormatTo(query, Escape(csvPath), outs)
    ensures RunQuerySql(csvPath, Rewrite(query, AliasesOf(columns)))
         == Ok(JoinWith(outs, FilledSubquery(AliasesOf(columns), Escape(csvPath))))
  {
    RewriteThenFormat(query, AliasesOf(columns), Escape(csvPath), outs);
  }

  /** `--show-safe`: the mapping for every column and the example subquery over the first twenty. */
  method ShowSafe(columns: Option<seq<string>>, csvPath: string) returns (r: Result<(seq<ColumnAlias>, string), CliError>)
    ensures columns.None? || columns.value == [] <==> r == Err(NoColumns)
    ensures columns.Some? && columns.value != [] ==>
      var m := AliasesOf(columns.value);
      r == Ok((m, ShowSafeSnippet(m, Escape(csvPath))))
  {
    if columns.None? || columns.value == [] {
      return Err(NoColumns);
    }
    var mapping := BuildAliases(columns.value);
    assert mapping == AliasesOf(columns.value);
    var snippet := ShowSafeSnippet(mapping, Escape(csvPath));
    return Ok((mapping, snippet));
  }

  /** The reader call as the `--query` help text spells it: the placeholder in double quotes. */
  const HELP_READER: string := "read_csv_auto(\"{csv}\")"

  /**
   * As written, a query that follows the `--query` help text is left alone by `--sanitize`:
   * the rewrite only looks for the single-quoted reader call.
   */
  lemma HelpReaderNotRewritten(aliases: seq<ColumnAlias>)
    ensures Rewrite(HELP_READER, aliases) == HELP_READER
  {
    assert |HELP_READER| == |MARKER| && HELP_READER[14] != MARKER[14];
    forall i | 0 <= i <= |HELP_READER|
      ensures !OccursAt(HELP_READER, MARKER, i)
    {
      if i == 0 && |MARKER| <= |HELP_READER| {
        assert HELP_READER[0..|MARKER|][14] == HELP_READER[14];
      }
    }
    RewriteUnchangedIff(HELP_READER, aliases);
  }
}
