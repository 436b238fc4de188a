/**
 * The column-name sanitiser `sanitize_identifier` (query_csv_duckdb.py, defined twice with the
 * same body): an arbitrary column name becomes a bare SQL identifier.
 */
module Identifiers {
  import opened Ascii
  import opened Text

  predicate AllAlnum(s: string)
  {
    forall i :: 0 <= i < |s| ==> IsAlnum(s[i])
  }

  predicate AlnumOrUnderscore(s: string)
  {
    forall i :: 0 <= i < |s| ==> IsAlnum(s[i]) || s[i] == '_'
  }

  predicate NoDoubleUnderscore(s: string)
  {
    forall i :: 0 <= i < |s| - 1 ==> !(s[i] == '_' && s[i + 1] == '_')
  }

  /** Only letters, digits and single underscores, and no underscore at either end. */
  predicate Clean(s: string)
  {
    AlnumOrUnderscore(s) && NoDoubleUnderscore(s) && (s != [] ==> s[0] != '_' && s[|s| - 1] != '_')
  }

  /** What the sanitiser promises: a non-empty bare identifier over `[a-z0-9_]` that starts with a letter. */
  predicate IsSafeIdentifier(s: string)
  {
    && s != []
    && IsLower(s[0])
    && (forall i :: 0 <= i < |s| ==> IsLower(s[i]) || IsDigit(s[i]) || s[i] == '_')
    && NoDoubleUnderscore(s)
    && s[|s| - 1] != '_'
  }

  /**
   * `re.sub(r'[^0-9A-Za-z]+', '_', s)`: each maximal run of characters outside `[0-9A-Za-z]`
   * becomes one underscore, every letter and digit is kept.
   */
  function ReplaceNonAlnumRuns(s: string): (r: string)
    ensures AlnumOrUnderscore(r) && NoDoubleUnderscore(r)
    ensures r == [] <==> s == []
    ensures s != [] ==> r[0] == (if IsAlnum(s[0]) then s[0] else '_')
    decreases |s|
  {
    if s == [] then []
    else if IsAlnum(s[0]) then [s[0]] + ReplaceNonAlnumRuns(s[1..])
    else "_" + ReplaceNonAlnumRuns(TrimStart(s[1..], NotAlnum))
  }

  /** `re.sub(r'__+', '_', s)`: each run of two or more underscores becomes one. */
  function CollapseUnderscores(s: string): (r: string)
    ensures NoDoubleUnderscore(r)
    ensures r == [] <==> s == []
    ensures s != [] ==> r[0] == s[0]
    decreases |s|
  {
    if |s| >= 2 && s[0] == '_' && s[1] == '_' then "_" + CollapseUnderscores(TrimStart(s, IsUnderscore))
    else if s == [] then []
    else [s[0]] + CollapseUnderscores(s[1..])
  }

  /** Clean, and already lower-case: what reaches the last two steps of the sanitiser. */
  predicate LowerClean(s: string)
  {
    Clean(s) && forall i :: 0 <= i < |s| ==> IsLower(s[i]) || IsDigit(s[i]) || s[i] == '_'
  }

  /**
   * The last two steps of `sanitize_identifier`: `col` for nothing, `c_` before a leading digit.
   * They turn a lower-case clean string into a safe identifier.
   */
  function Finish(core: string): (r: string)
    ensures LowerClean(core) ==> IsSafeIdentifier(r)
  {
    if core == [] then "col"
    else if IsDigit(core[0]) then
      var r := "c_" + core;
      assert forall i :: 2 <= i < |r| ==> r[i] == core[i - 2];
      r
    else core
  }

  /** `sanitize_identifier`, step by step as the source writes it; every result is a safe identifier. */
  function Sanitize(name: string): (r: string)
    ensures IsSafeIdentifier(r)
  {
    var trimmed := Strip(name, IsSpace);
    var replaced := ReplaceNonAlnumRuns(trimmed);
    var collapsed := CollapseUnderscores(replaced);
    CollapseWithoutDoubles(replaced);
    StripUnderscoresClean(replaced);
    LowerOfClean(Strip(collapsed, IsUnderscore));
    Finish(LowerAscii(Strip(collapsed, IsUnderscore)))
  }

  /** The maximal runs of ASCII letters and digits of `s`, in order. */
  function Words(s: string): (ws: seq<string>)
    ensures forall k :: 0 <= k < |ws| ==> ws[k] != [] && AllAlnum(ws[k])
    ensures s != [] && IsAlnum(s[0]) ==> ws != [] && ws[0][0] == s[0]
    decreases |s|
  {
    if s == [] then []
    else if !IsAlnum(s[0]) then Words(s[1..])
    else if |s| > 1 && IsAlnum(s[1]) then
      var rest := Words(s[1..]);
      [[s[0]] + rest[0]] + rest[1..]
    else [[s[0]]] + Words(s[1..])
  }

  /**
   * An independent statement of what the sanitiser computes: the name's letter-and-digit words,
   * joined by single underscores and lower-cased; `col` when there are none, and a `c_` prefix
   * when the first character is a digit.
   */
  function ReferenceSanitize(name: string): string
  {
    Finish(LowerAscii(JoinWith(Words(name), "_")))
  }

  /** Characters that are not letters or digits in front of a string do not change its words. */
  lemma {:induction false} WordsSkipPrefix(s: string, k: int)
    requires 0 <= k <= |s|
    requires forall i :: 0 <= i < k ==> !IsAlnum(s[i])
    ensures Words(s[k..]) == Words(s)
    decreases k
  {
    if k > 0 {
      WordsSkipPrefix(s[1..], k - 1);
      assert s[1..][k - 1..] == s[k..];
    }
  }

  /** Characters that are not letters or digits at the end of a string do not change its words. */
  lemma {:induction false} WordsSkipSuffix(s: string, k: int)
    requires 0 <= k <= |s|
    requires forall i :: k <= i < |s| ==> !IsAlnum(s[i])
    ensures Words(s[..k]) == Words(s)
    decreases |s|
  {
    if k == |s| {
      assert s[..k] == s;
    } else if !IsAlnum(s[0]) {
      if k == 0 {
        WordsSkipSuffix(s[1..], 0);
      } else {
        WordsSkipSuffix(s[1..], k - 1);
        assert s[..k][1..] == s[1..][..k - 1];
      }
    } else {
      WordsSkipSuffix(s[1..], k - 1);
      assert s[..k][1..] == s[1..][..k - 1];
    }
  }

  lemma WordsOfStrip(s: string, drop: char -> bool)
    requires forall c :: drop(c) ==> !IsAlnum(c)
    ensures Words(Strip(s, drop)) == Words(s)
  {
    var t := TrimStart(s, drop);
    TrimStartIsSuffix(s, drop);
    WordsSkipPrefix(s, |s| - |t|);
    WordsSkipSuffix(t, |TrimEnd(t, drop)|);
  }

  /** Replacing separator runs by underscores keeps the words. */
  lemma {:induction false} WordsOfReplace(s: string)
    ensures Words(ReplaceNonAlnumRuns(s)) == Words(s)
    decreases |s|
  {
    if s == [] {
    } else if IsAlnum(s[0]) {
      var rest := ReplaceNonAlnumRuns(s[1..]);
      WordsOfReplace(s[1..]);
      assert ([s[0]] + rest)[1..] == rest;
    } else {
      var t := TrimStart(s[1..], NotAlnum);
      TrimStartIsSuffix(s[1..], NotAlnum);
      var rest := ReplaceNonAlnumRuns(t);
      WordsOfReplace(t);
      assert ("_" + rest)[1..] == rest;
      WordsSkipPrefix(s[1..], |s[1..]| - |t|);
    }
  }

  /** Without doubled underscores there is nothing to collapse. */
  lemma {:induction false} CollapseWithoutDoubles(s: string)
    requires NoDoubleUnderscore(s)
    ensures CollapseUnderscores(s) == s
    decreases |s|
  {
    if s != [] {
      CollapseWithoutDoubles(s[1..]);
      assert s == [s[0]] + s[1..];
    }
  }

  /**
   * An independent statement of the collapse, one character at a time: every character is
   * kept except an underscore that directly follows an underscore. `afterUnderscore` says
   * whether the character before `s` was an underscore.
   */
  function DropRepeatedUnderscores(s: string, afterUnderscore: bool): string
    decreases |s|
  {
    if s == [] then []
    else if s[0] == '_' && afterUnderscore then DropRepeatedUnderscores(s[1..], true)
    else [s[0]] + DropRepeatedUnderscores(s[1..], s[0] == '_')
  }

  /** After an underscore, a whole run of further underscores is dropped. */
  lemma {:induction false} DropRunAfterUnderscore(s: string)
    ensures DropRepeatedUnderscores(s, true) == DropRepeatedUnderscores(TrimStart(s, IsUnderscore), true)
    decreases |s|
  {
    if s != [] && s[0] == '_' {
      DropRunAfterUnderscore(s[1..]);
    }
  }

  /** Collapsing runs of two or more underscores is the character filter above. */
  lemma {:induction false} CollapseMatchesFilter(s: string)
    ensures CollapseUnderscores(s) == DropRepeatedUnderscores(s, false)
    decreases |s|
  {
    if |s| >= 2 && s[0] == '_' && s[1] == '_' {
      var t := TrimStart(s, IsUnderscore);
      TrimStartIsSuffix(s, IsUnderscore);
      assert |t| < |s|;
      CollapseMatchesFilter(t);
      DropRunAfterUnderscore(s[1..]);
      assert TrimStart(s[1..], IsUnderscore) == t;
    } else if s != [] {
      CollapseMatchesFilter(s[1..]);
    }
  }

  /** The filter keeps every character other than `_`, in order. */
  lemma {:induction false} DropKeepsOtherCharacters(s: string, afterUnderscore: bool)
    ensures Without(DropRepeatedUnderscores(s, afterUnderscore), '_') == Without(s, '_')
    decreases |s|
  {
    if s != [] {
      DropKeepsOtherCharacters(s[1..], s[0] == '_');
      DropKeepsOtherCharacters(s[1..], true);
      var r := DropRepeatedUnderscores(s[1..], s[0] == '_');
      if !(s[0] == '_' && afterUnderscore) {
        assert ([s[0]] + r)[1..] == r;
      }
    }
  }

  /** Collapsing keeps every character other than `_`, in order: only underscores are removed. */
  lemma CollapseKeepsOtherCharacters(s: string)
    ensures Without(CollapseUnderscores(s), '_') == Without(s, '_')
  {
    CollapseMatchesFilter(s);
    DropKeepsOtherCharacters(s, false);
  }

  /** A clean string is exactly its words joined by underscores. */
  lemma {:induction false} JoinWordsOfClean(t: string)
    requires Clean(t)
    ensures JoinWith(Words(t), "_") == t
    decreases |t|
  {
    if t == [] {
    } else if |t| == 1 {
    } else if IsAlnum(t[1]) {
      JoinWordsOfClean(t[1..]);
      var ws := Words(t[1..]);
      JoinWithConsFirst(t[0], ws[0], ws[1..], "_");
      assert [ws[0]] + ws[1..] == ws;
    } else {
      assert t[1] == '_' && t[2] != '_';
      JoinWordsOfClean(t[2..]);
      assert t[1..][1..] == t[2..];
      var ws := Words(t[2..]);
      assert ([[t[0]]] + ws)[1..] == ws;
      assert t == [t[0]] + "_" + t[2..];
    }
  }

  lemma SliceKeepsCharacters(s: string, lo: int, hi: int)
    requires 0 <= lo <= hi <= |s|
    requires AlnumOrUnderscore(s) && NoDoubleUnderscore(s)
    ensures AlnumOrUnderscore(s[lo..hi]) && NoDoubleUnderscore(s[lo..hi])
  {
    var t := s[lo..hi];
    assert forall i :: 0 <= i < |t| ==> t[i] == s[lo + i];
  }

  /** The part of the pipeline before lower-casing leaves a clean string. */
  lemma StripUnderscoresClean(s: string)
    requires AlnumOrUnderscore(s) && NoDoubleUnderscore(s)
    ensures Clean(Strip(s, IsUnderscore))
  {
    var u := Strip(s, IsUnderscore);
    var lo := |s| - |TrimStart(s, IsUnderscore)|;
    SliceKeepsCharacters(s, lo, lo + |u|);
  }

  /** Strip, replace, collapse and strip again yield the name's words joined by underscores. */
  lemma {:induction false} SanitizeCore(name: string)
    ensures Strip(CollapseUnderscores(ReplaceNonAlnumRuns(Strip(name, IsSpace))), IsUnderscore)
         == JoinWith(Words(name), "_")
  {
    var trimmed := Strip(name, IsSpace);
    var replaced := ReplaceNonAlnumRuns(trimmed);
    CollapseWithoutDoubles(replaced);
    var stripped := Strip(replaced, IsUnderscore);
    WordsOfStrip(name, IsSpace);
    WordsOfReplace(trimmed);
    WordsOfStrip(replaced, IsUnderscore);
    StripUnderscoresClean(replaced);
    JoinWordsOfClean(stripped);
  }

  /** The pipeline computes the reference definition. */
  lemma SanitizeMatchesReference(name: string)
    ensures Sanitize(name) == ReferenceSanitize(name)
  {
    SanitizeCore(name);
  }

  /** Lower-casing a clean string keeps it clean and leaves no upper-case letter. */
  lemma LowerOfClean(s: string)
    requires Clean(s)
    ensures LowerClean(LowerAscii(s))
  {
  }

  /** The words of any name, joined by underscores, form a clean string. */
  lemma JoinedWordsClean(name: string)
    ensures Clean(JoinWith(Words(name), "_"))
  {
    SanitizeCore(name);
    var replaced := ReplaceNonAlnumRuns(Strip(name, IsSpace));
    CollapseWithoutDoubles(replaced);
    StripUnderscoresClean(replaced);
  }

  /** The sanitiser leaves a name alone exactly when the name is already a safe identifier. */
  lemma SanitizeFixedPoint(y: string)
    ensures Sanitize(y) == y <==> IsSafeIdentifier(y)
  {
    if IsSafeIdentifier(y) {
      SanitizeMatchesReference(y);
      SafeIsCleanLower(y);
      JoinWordsOfClean(y);
      assert Finish(y) == y;
    }
  }

  /** A safe identifier is clean and already lower-case. */
  lemma SafeIsCleanLower(y: string)
    requires IsSafeIdentifier(y)
    ensures Clean(y) && LowerAscii(y) == y && !IsDigit(y[0])
  {
    assert forall i :: 0 <= i < |y| ==> LowerAscii(y)[i] == y[i];
  }

  /** Sanitising twice is the same as sanitising once. */
  lemma SanitizeIdempotent(name: string)
    ensures Sanitize(Sanitize(name)) == Sanitize(name)
  {
    SanitizeFixedPoint(Sanitize(name));
  }

  /** A name without any ASCII letter or digit (empty, blank, punctuation) becomes `col`. */
  lemma SanitizeWithoutAlnums(name: string)
    requires forall i :: 0 <= i < |name| ==> !IsAlnum(name[i])
    ensures Sanitize(name) == "col"
  {
    SanitizeMatchesReference(name);
    WordsSkipPrefix(name, |name|);
  }

  function Concat(ws: seq<string>): string
  {
    if ws == [] then [] else ws[0] + Concat(ws[1..])
  }

  lemma {:induction false} AlnumsOfAllAlnum(s: string)
    requires AllAlnum(s)
    ensures Alnums(s) == s
    decreases |s|
  {
    if s != [] {
      AlnumsOfAllAlnum(s[1..]);
      assert s == [s[0]] + s[1..];
    }
  }

  lemma {:induction false} AlnumsOfJoin(ws: seq<string>)
    requires forall k :: 0 <= k < |ws| ==> AllAlnum(ws[k])
    ensures Alnums(JoinWith(ws, "_")) == Concat(ws)
    decreases |ws|
  {
    if |ws| == 1 {
      AlnumsOfAllAlnum(ws[0]);
    } else if |ws| > 1 {
      AlnumsOfJoin(ws[1..]);
      AlnumsOfAllAlnum(ws[0]);
      AlnumsAppend(ws[0] + "_", JoinWith(ws[1..], "_"));
      AlnumsAppend(ws[0], "_");
      assert Concat(ws[1..][..0]) == [];
    }
  }

  /** The words of a string, put back together, are its letters and digits. */
  lemma {:induction false} ConcatWords(s: string)
    ensures Concat(Words(s)) == Alnums(s)
    decreases |s|
  {
    if s != [] {
      ConcatWords(s[1..]);
      if IsAlnum(s[0]) && |s| > 1 && IsAlnum(s[1]) {
        var rest := Words(s[1..]);
        var ws := [[s[0]] + rest[0]] + rest[1..];
        assert ws[1..] == rest[1..];
        assert Concat(rest) == rest[0] + Concat(rest[1..]);
      } else if IsAlnum(s[0]) {
        var ws := [[s[0]]] + Words(s[1..]);
        assert ws[1..] == Words(s[1..]);
      }
    }
  }

  /**
   * The letters and digits of a sanitised name, apart from an added `c_`, are exactly the
   * lower-cased letters and digits of the original, in order; `c_` is added exactly when
   * the first of them is a digit, and `col` is used when there are none.
   */
  lemma SanitizeKeepsAlnums(name: string)
    ensures var a := LowerAscii(Alnums(name));
      && (a == [] ==> Sanitize(name) == "col")
      && (a != [] && IsDigit(a[0]) ==> |Sanitize(name)| > 2 && Sanitize(name)[..2] == "c_"
                                       && Alnums(Sanitize(name)[2..]) == a)
      && (a != [] && !IsDigit(a[0]) ==> Alnums(Sanitize(name)) == a)
  {
    var a := LowerAscii(Alnums(name));
    var ws := Words(name);
    var joined := JoinWith(ws, "_");
    var core := LowerAscii(joined);
    SanitizeMatchesReference(name);
    ConcatWords(name);
    AlnumsOfJoin(ws);
    AlnumsOfLower(joined);
    assert Alnums(core) == a;
    JoinedWordsClean(name);
    LowerOfClean(joined);
    if core != [] {
      assert IsAlnum(core[0]);
      assert Alnums(core)[0] == core[0];
      if IsDigit(core[0]) {
        assert ("c_" + core)[2..] == core;
      }
    }
  }

  /** A single run of letters and digits is one word. */
  lemma {:induction false} WordsOfWord(w: string)
    requires w != [] && AllAlnum(w)
    ensures Words(w) == [w]
    decreases |w|
  {
    if |w| == 1 {
      assert IsAlnum(w[0]) && w[1..] == [];
      assert Words(w) == [[w[0]]] + Words(w[1..]);
      assert [w[0]] == w;
    } else {
      WordsOfWord(w[1..]);
      assert IsAlnum(w[1]);
      assert Words(w) == [[w[0]] + w[1..]] + [w[1..]][1..];
      assert [w[0]] + w[1..] == w;
    }
  }

  /** A word followed by a separator character contributes exactly that word. */
  lemma {:induction false} WordsOfWordThen(w: string, sep: char, rest: string)
    requires w != [] && AllAlnum(w) && !IsAlnum(sep)
    ensures Words(w + [sep] + rest) == [w] + Words(rest)
    decreases |w|
  {
    var s := w + [sep] + rest;
    if |w| == 1 {
      assert s[0] == w[0] && s[1] == sep;
      assert s[1..] == [sep] + rest;
      assert s[1..][1..] == rest;
      assert Words(s) == [[w[0]]] + Words(s[1..]);
      assert [w[0]] == w;
    } else {
      WordsOfWordThen(w[1..], sep, rest);
      assert s[1..] == w[1..] + [sep] + rest;
      assert [w[0]] + w[1..] == w;
    }
  }

  /** Three words separated by single non-alphanumeric characters are those three words. */
  lemma WordsOfThree(a: string, s1: char, b: string, s2: char, c: string)
    requires a != [] && AllAlnum(a) && b != [] && AllAlnum(b) && c != [] && AllAlnum(c)
    requires !IsAlnum(s1) && !IsAlnum(s2)
    ensures Words(a + [s1] + b + [s2] + c) == [a, b, c]
  {
    WordsOfWord(c);
    WordsOfWordThen(b, s2, c);
    WordsOfWordThen(a, s1, b + [s2] + c);
    assert a + [s1] + b + [s2] + c == a + [s1] + (b + [s2] + c);
  }

  lemma LowerAsciiAppend(x: string, y: string)
    ensures LowerAscii(x + y) == LowerAscii(x) + LowerAscii(y)
  {
  }

  /** Lower-casing three words joined by a separator lower-cases each piece. */
  lemma LowerJoinThree(a: string, b: string, c: string, sep: string)
    ensures LowerAscii(JoinWith([a, b, c], sep))
         == LowerAscii(a) + LowerAscii(sep) + LowerAscii(b) + LowerAscii(sep) + LowerAscii(c)
  {
    assert [a, b, c][1..] == [b, c];
    assert [b, c][1..] == [c];
    assert JoinWith([b, c], sep) == b + sep + c;
    LowerAsciiAppend(a + sep + b + sep, c);
    LowerAsciiAppend(a + sep + b, sep);
    LowerAsciiAppend(a + sep, b);
    LowerAsciiAppend(a, sep);
    assert a + sep + (b + sep + c) == a + sep + b + sep + c;
  }

  lemma WordsOfFieldGoalsMade(a: string, b: string, c: string)
    requires a == "Field" && b == "Goals" && c == "Made"
    ensures Words(a + " " + b + " " + c) == [a, b, c]
  {
    assert AllAlnum(a) && AllAlnum(b) && AllAlnum(c);
    WordsOfThree(a, ' ', b, ' ', c);
  }

  lemma LowerJoinFieldGoalsMade(a: string, b: string, c: string)
    requires a == "Field" && b == "Goals" && c == "Made"
    ensures LowerAscii(JoinWith([a, b, c], "_")) == "field_goals_made"
  {
    LowerJoinThree(a, b, c, "_");
    assert LowerAscii(a) == "field" && LowerAscii(b) == "goals" && LowerAscii(c) == "made";
    assert LowerAscii("_") == "_";
  }

  /** `Field Goals Made` (written as its three words, joined by spaces) becomes `field_goals_made`. */
  lemma SanitizeFieldGoalsMade(a: string, b: string, c: string)
    requires a == "Field" && b == "Goals" && c == "Made"
    ensures Sanitize(a + " " + b + " " + c) == "field_goals_made"
  {
    WordsOfFieldGoalsMade(a, b, c);
    LowerJoinFieldGoalsMade(a, b, c);
    SanitizeMatchesReference(a + " " + b + " " + c);
  }

  lemma ReferenceThreePointPercent()
    ensures ReferenceSanitize("3P%") == "c_3p"
  {
    WordsOfWordThen("3P", '%', "");
    assert "3P%" == "3P" + ['%'] + "";
    assert LowerAscii("3P") == "3p";
  }

  lemma ReferenceTwoWords(a: string, sep: char, b: string)
    requires a != [] && AllAlnum(a) && !IsDigit(a[0])
    requires b != [] && AllAlnum(b)
    requires !IsAlnum(sep)
    ensures ReferenceSanitize(a + [sep] + b) == LowerAscii(a) + "_" + LowerAscii(b)
  {
    WordsOfWord(b);
    WordsOfWordThen(a, sep, b);
    assert JoinWith([a, b], "_") == a + "_" + b;
    assert LowerAscii(a + "_" + b) == LowerAscii(a) + "_" + LowerAscii(b);
  }

  /** Two words with any one separator between them become the lower-cased words joined by `_`. */
  lemma SanitizeTwoWords(a: string, sep: char, b: string)
    requires a != [] && AllAlnum(a) && !IsDigit(a[0])
    requires b != [] && AllAlnum(b)
    requires !IsAlnum(sep)
    ensures Sanitize(a + [sep] + b) == LowerAscii(a) + "_" + LowerAscii(b)
  {
    ReferenceTwoWords(a, sep, b);
    SanitizeMatchesReference(a + [sep] + b);
  }

  /** A name whose first letter-or-digit is a digit gets the `c_` prefix: `3P%` becomes `c_3p`. */
  lemma SanitizeThreePointPercent()
    ensures Sanitize("3P%") == "c_3p"
  {
    ReferenceThreePointPercent();
    SanitizeMatchesReference("3P%");
  }

  /** The empty name becomes `col`. */
  lemma SanitizeEmptyName()
    ensures Sanitize("") == "col"
  {
    SanitizeWithoutAlnums("");
  }

  /** A name of blanks becomes `col`. */
  lemma SanitizeBlankName()
    ensures Sanitize("   ") == "col"
  {
    SanitizeWithoutAlnums("   ");
  }

  /** An already safe name such as `already_safe` is kept as it is. */
  lemma SanitizeAlreadySafe(a: string, b: string)
    requires a == "already" && b == "safe"
    ensures Sanitize(a + "_" + b) == a + "_" + b
  {
    assert IsSafeIdentifier(a + "_" + b);
    SanitizeFixedPoint(a + "_" + b);
  }

  lemma LowerHeaderWords()
    ensures LowerAscii("Game") + "_" + LowerAscii("ID") == "game_id"
    ensures AllAlnum("Game") && AllAlnum("ID")
  {
  }

  /** The column header `Game ID` (given as its two words) becomes `game_id`. */
  lemma SanitizeGameId(game: string, id: string)
    requires game == "Game" && id == "ID"
    ensures Sanitize(game + " " + id) == "game_id"
  {
    LowerHeaderWords();
    SanitizeTwoWords(game, ' ', id);
  }
}
