/**
 * The CSV path as it is spliced into a SQL string literal: every backslash is doubled,
 * every other character (a single quote included) is copied unchanged.
 */
module SqlPath {
  import opened Wrappers
  import opened Text

  const BACKSLASH: char := '\\'

  /** `csv_path.replace('\\', '\\\\')`: the path grows by exactly one character per backslash. */
  function Escape(path: string): (r: string)
    ensures |r| == |path| + Count(path, BACKSLASH)
  {
    if path == [] then []
    else (if path[0] == BACKSLASH then [BACKSLASH, BACKSLASH] else [path[0]]) + Escape(path[1..])
  }

  /** Halves every doubled backslash; a lone backslash is not something `Escape` produces. */
  function Unescape(e: string): Option<string>
    decreases |e|
  {
    if e == [] then Some([])
    else if e[0] != BACKSLASH then
      match Unescape(e[1..])
      case None => None
      case Some(rest) => Some([e[0]] + rest)
    else if |e| >= 2 && e[1] == BACKSLASH then
      match Unescape(e[2..])
      case None => None
      case Some(rest) => Some([BACKSLASH] + rest)
    else None
  }

  /** The halving decoder recovers the original path. */
  lemma {:induction false} UnescapeEscape(path: string)
    ensures Unescape(Escape(path)) == Some(path)
  {
    if path != [] {
      UnescapeEscape(path[1..]);
      var e := Escape(path);
      if path[0] == BACKSLASH {
        assert e[2..] == Escape(path[1..]);
      } else {
        assert e[1..] == Escape(path[1..]);
      }
      assert [path[0]] + path[1..] == path;
    }
  }

  /** Escaping is injective: two paths give the same SQL text only when they are equal. */
  lemma EscapeInjective(p: string, q: string)
    requires Escape(p) == Escape(q)
    ensures p == q
  {
    UnescapeEscape(p);
    UnescapeEscape(q);
  }

  /** Apart from the backslashes, the escaped path holds the same characters in the same order. */
  lemma {:induction false} EscapeKeepsOtherCharacters(path: string)
    ensures Without(Escape(path), BACKSLASH) == Without(path, BACKSLASH)
  {
    if path != [] {
      EscapeKeepsOtherCharacters(path[1..]);
      var e := Escape(path);
      if path[0] == BACKSLASH {
        assert e[1..][1..] == Escape(path[1..]);
      } else {
        assert e[1..] == Escape(path[1..]);
      }
    }
  }

  /** Each backslash is doubled and every other character, `'` included, keeps its count. */
  lemma {:induction false} EscapeCounts(path: string, c: char)
    ensures Count(Escape(path), c) == if c == BACKSLASH then 2 * Count(path, c) else Count(path, c)
  {
    if path != [] {
      EscapeCounts(path[1..], c);
      var e := Escape(path);
      if path[0] == BACKSLASH {
        assert e[1..][1..] == Escape(path[1..]);
      } else {
        assert e[1..] == Escape(path[1..]);
      }
    }
  }

  /** A path is left unchanged exactly when it holds no backslash. */
  lemma EscapeUnchangedIff(path: string)
    ensures Escape(path) == path <==> BACKSLASH !in path
  {
    if BACKSLASH in path {
      CountPositive(path);
    } else {
      NoBackslashUnchanged(path);
    }
  }

  lemma {:induction false} CountPositive(s: string)
    requires BACKSLASH in s
    ensures Count(s, BACKSLASH) > 0
  {
    if s[0] != BACKSLASH {
      assert BACKSLASH in s[1..];
      CountPositive(s[1..]);
    }
  }

  lemma {:induction false} NoBackslashUnchanged(s: string)
    requires BACKSLASH !in s
    ensures Escape(s) == s
  {
    if s != [] {
      assert BACKSLASH !in s[1..];
      NoBackslashUnchanged(s[1..]);
      assert [s[0]] + s[1..] == s;
    }
  }

  /** The reader call up to the opening quote of the SQL string literal that receives the path. */
  const FROM_OPEN: string := " FROM read_csv_auto('"

  const PROBE_HEAD: string := "SELECT *" + FROM_OPEN
  const PROBE_TAIL: string := "') LIMIT 0"

  /**
   * The `LIMIT 0` query `show_columns` sends to learn the column names: it quotes the escaped
   * path, and the quoted part decodes back to the path.
   */
  function ProbeSql(path: string): (sql: string)
    ensures |sql| == |PROBE_HEAD| + |path| + Count(path, BACKSLASH) + |PROBE_TAIL|
    ensures StartsWith(sql, PROBE_HEAD)
    ensures sql[|sql| - |PROBE_TAIL|..] == PROBE_TAIL
    ensures Unescape(sql[|PROBE_HEAD|..|sql| - |PROBE_TAIL|]) == Some(path)
  {
    var sql := PROBE_HEAD + Escape(path) + PROBE_TAIL;
    assert sql[|PROBE_HEAD|..|sql| - |PROBE_TAIL|] == Escape(path);
    assert sql[..|PROBE_HEAD|] == PROBE_HEAD;
    assert sql[|sql| - |PROBE_TAIL|..] == PROBE_TAIL;
    UnescapeEscape(path);
    sql
  }
}
