/**
 * The loops that pair each column name with its sanitised alias (query_csv_duckdb.py, once for
 * `--show-safe` and once for `--sanitize`; they differ only in the record they append).
 */
module Aliases {
  import opened Ascii
  import opened Identifiers

  /** One entry of the mapping: the column name as the CSV reader reports it, and its alias. */
  datatype ColumnAlias = ColumnAlias(original: string, safe: string)

  /** The mapping the loops build: entry `i` pairs column `i` with its sanitised name. */
  function AliasesOf(columns: seq<string>): (m: seq<ColumnAlias>)
    ensures |m| == |columns|
    ensures forall i :: 0 <= i < |m| ==> m[i].original == columns[i] && IsSafeIdentifier(m[i].safe)
  {
    seq(|columns|, i requires 0 <= i < |columns| => ColumnAlias(columns[i], Sanitize(columns[i])))
  }

  /** The builder loop: appends one entry per column, in column order, with no check for repeated aliases. */
  method BuildAliases(columns: seq<string>) returns (aliases: seq<ColumnAlias>)
    ensures |aliases| == |columns|
    ensures forall i :: 0 <= i < |columns| ==> aliases[i] == ColumnAlias(columns[i], Sanitize(columns[i]))
  {
    aliases := [];
    for i := 0 to |columns|
      invariant |aliases| == i
      invariant forall k :: 0 <= k < i ==> aliases[k] == ColumnAlias(columns[k], Sanitize(columns[k]))
    {
      var safe := Sanitize(columns[i]);
      aliases := aliases + [ColumnAlias(columns[i], safe)];
    }
  }

  function Originals(m: seq<ColumnAlias>): seq<string>
  {
    seq(|m|, i requires 0 <= i < |m| => m[i].original)
  }

  /** The mapping keeps every column name, in order: nothing is dropped or merged. */
  lemma AliasesKeepColumns(columns: seq<string>)
    ensures Originals(AliasesOf(columns)) == columns
  {
  }

  /**
   * Two different columns can receive the same alias and nothing catches it: a column and a
   * second column already named like its alias both map to that alias.
   */
  lemma AliasesCanCollide(column: string)
    requires !IsSafeIdentifier(column)
    ensures var m := AliasesOf([column, Sanitize(column)]);
      m[0].original != m[1].original && m[0].safe == m[1].safe
  {
    SanitizeIdempotent(column);
  }
}
