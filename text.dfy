/** The Python `str` operations the script relies on: `strip`, `join`, `replace` and `split`. */
module Text {

  /** Drops the longest prefix of `s` whose characters all satisfy `drop` (Python `lstrip`). */
  function TrimStart(s: string, drop: char -> bool): (r: string)
    ensures |r| <= |s|
    ensures r == [] || !drop(r[0])
    ensures forall i :: 0 <= i < |s| - |r| ==> drop(s[i])
    decreases |s|
  {
    if s != [] && drop(s[0]) then TrimStart(s[1..], drop) else s
  }

  /** What `TrimStart` keeps is a suffix of its input. */
  lemma {:induction false} TrimStartIsSuffix(s: string, drop: char -> bool)
    ensures TrimStart(s, drop) == s[|s| - |TrimStart(s, drop)|..]
    decreases |s|
  {
    if s != [] && drop(s[0]) {
      TrimStartIsSuffix(s[1..], drop);
      assert s[1..][|s[1..]| - |TrimStart(s[1..], drop)|..] == s[|s| - |TrimStart(s, drop)|..];
    }
  }

  /** Drops the longest suffix of `s` whose characters all satisfy `drop` (Python `rstrip`). */
  function TrimEnd(s: string, drop: char -> bool): (r: string)
    ensures |r| <= |s| && r == s[..|r|]
    ensures r == [] || !drop(r[|r| - 1])
    ensures forall i :: |r| <= i < |s| ==> drop(s[i])
    decreases |s|
  {
    if s != [] && drop(s[|s| - 1]) then TrimEnd(s[..|s| - 1], drop) else s
  }

  /**
   * Python `strip`: removes the characters satisfying `drop` from both ends. What is kept is
   * one slice of the input, starting at `lo`, that neither starts nor ends with such a
   * character; everything around it satisfies `drop`.
   */
  function Strip(s: string, drop: char -> bool): (r: string)
    ensures var lo := |s| - |TrimStart(s, drop)|;
      && lo + |r| <= |s| && r == s[lo..lo + |r|]
      && (forall i :: 0 <= i < lo ==> drop(s[i]))
      && (forall i :: lo + |r| <= i < |s| ==> drop(s[i]))
    ensures r == [] || (!drop(r[0]) && !drop(r[|r| - 1]))
  {
    var t := TrimStart(s, drop);
    TrimStartIsSuffix(s, drop);
    var u := TrimEnd(t, drop);
    assert u == t[..|u|];
    assert u != [] ==> u[0] == t[0];
    assert forall i :: |s| - |t| + |u| <= i < |s| ==> s[i] == t[i - (|s| - |t|)];
    u
  }

  /** Number of occurrences of `c` in `s`. */
  function Count(s: string, c: char): nat
  {
    if s == [] then 0 else (if s[0] == c then 1 else 0) + Count(s[1..], c)
  }

  /** The characters of `s` other than `c`, in order. */
  function Without(s: string, c: char): string
  {
    if s == [] then [] else (if s[0] == c then [] else [s[0]]) + Without(s[1..], c)
  }

  predicate StartsWith(s: string, prefix: string)
  {
    |prefix| <= |s| && s[..|prefix|] == prefix
  }

  /** `pat` occurs in `s` starting at index `i`. */
  predicate OccursAt(s: string, pat: string, i: int)
  {
    0 <= i && i + |pat| <= |s| && s[i..i + |pat|] == pat
  }

  predicate Contains(s: string, pat: string)
  {
    exists i :: 0 <= i <= |s| && OccursAt(s, pat, i)
  }

  /** Python `sep.join(parts)`. */
  function JoinWith(parts: seq<string>, sep: string): string
  {
    if |parts| == 0 then []
    else if |parts| == 1 then parts[0]
    else parts[0] + sep + JoinWith(parts[1..], sep)
  }

  /**
   * Python `s.replace(pat, repl)` for a non-empty `pat`: one left-to-right scan that replaces
   * every non-overlapping occurrence and never looks at text it has just inserted.
   */
  function ReplaceAll(s: string, pat: string, repl: string): string
    requires pat != []
    decreases |s|
  {
    if s == [] then []
    else if StartsWith(s, pat) then repl + ReplaceAll(s[|pat|..], pat, repl)
    else [s[0]] + ReplaceAll(s[1..], pat, repl)
  }

  /** Python `s.split(pat)` for a non-empty `pat`: the text between non-overlapping occurrences. */
  function Split(s: string, pat: string): (parts: seq<string>)
    requires pat != []
    ensures |parts| > 0
    ensures |parts[0]| <= |s| && parts[0] == s[..|parts[0]|]
    decreases |s|
  {
    if s == [] then [[]]
    else if StartsWith(s, pat) then [[]] + Split(s[|pat|..], pat)
    else
      var rest := Split(s[1..], pat);
      [[s[0]] + rest[0]] + rest[1..]
  }

  lemma JoinWithConsFirst(c: char, first: string, rest: seq<string>, sep: string)
    ensures JoinWith([[c] + first] + rest, sep) == [c] + JoinWith([first] + rest, sep)
  {
    if rest != [] {
      assert ([[c] + first] + rest)[1..] == rest;
      assert ([first] + rest)[1..] == rest;
    }
  }

  /** `replace` is `split` followed by `join` with the replacement as separator. */
  lemma {:induction false} ReplaceAllIsSplitJoin(s: string, pat: string, repl: string)
    requires pat != []
    ensures ReplaceAll(s, pat, repl) == JoinWith(Split(s, pat), repl)
    decreases |s|
  {
    if s == [] {
    } else if StartsWith(s, pat) {
      var rest := Split(s[|pat|..], pat);
      ReplaceAllIsSplitJoin(s[|pat|..], pat, repl);
      assert Split(s, pat) == [[]] + rest;
      JoinWithEmptyFirst(rest, repl);
    } else {
      var rest := Split(s[1..], pat);
      ReplaceAllIsSplitJoin(s[1..], pat, repl);
      assert Split(s, pat) == [[s[0]] + rest[0]] + rest[1..];
      JoinWithConsFirst(s[0], rest[0], rest[1..], repl);
      assert [rest[0]] + rest[1..] == rest;
    }
  }

  lemma JoinWithEmptyFirst(rest: seq<string>, sep: string)
    requires rest != []
    ensures JoinWith([[]] + rest, sep) == sep + JoinWith(rest, sep)
  {
    assert ([[]] + rest)[1..] == rest;
  }

  /** A piece that starts where the pattern does not, followed by a pattern-free piece, is pattern-free. */
  lemma FirstPieceAvoids(s: string, pat: string, tail: string)
    requires pat != [] && s != [] && !StartsWith(s, pat)
    requires |tail| <= |s| - 1 && tail == s[1..][..|tail|] && !Contains(tail, pat)
    ensures !Contains([s[0]] + tail, pat)
  {
    var first := [s[0]] + tail;
    forall i | 0 <= i <= |first|
      ensures !OccursAt(first, pat, i)
    {
      if i == 0 {
        if |pat| <= |first| {
          assert first[..|pat|] == s[..|pat|];
        }
      } else if i + |pat| <= |first| {
        assert first[i..i + |pat|] == tail[i - 1..i - 1 + |pat|];
        assert !OccursAt(tail, pat, i - 1);
      }
    }
  }

  /** No piece of a split still contains the pattern: every occurrence was a cut point. */
  lemma {:induction false} SplitPiecesAvoidPattern(s: string, pat: string)
    requires pat != []
    ensures forall k :: 0 <= k < |Split(s, pat)| ==> !Contains(Split(s, pat)[k], pat)
    decreases |s|
  {
    if s == [] {
      assert !OccursAt([], pat, 0);
    } else if StartsWith(s, pat) {
      SplitPiecesAvoidPattern(s[|pat|..], pat);
      var rest := Split(s[|pat|..], pat);
      assert Split(s, pat) == [[]] + rest;
      forall k | 0 <= k < |Split(s, pat)|
        ensures !Contains(Split(s, pat)[k], pat)
      {
        if k == 0 {
          assert forall i :: !OccursAt([], pat, i);
        } else {
          assert Split(s, pat)[k] == rest[k - 1];
        }
      }
    } else {
      SplitPiecesAvoidPattern(s[1..], pat);
      var rest := Split(s[1..], pat);
      FirstPieceAvoids(s, pat, rest[0]);
      var first := [s[0]] + rest[0];
      assert Split(s, pat) == [first] + rest[1..];
      forall k | 0 <= k < |Split(s, pat)|
        ensures !Contains(Split(s, pat)[k], pat)
      {
        if k > 0 {
          assert Split(s, pat)[k] == rest[k];
        }
      }
    }
  }

  /** Replacing the pattern by itself gives the text back. */
  lemma {:induction false} ReplaceAllBySelf(s: string, pat: string)
    requires pat != []
    ensures ReplaceAll(s, pat, pat) == s
    decreases |s|
  {
    if s == [] {
    } else if StartsWith(s, pat) {
      ReplaceAllBySelf(s[|pat|..], pat);
      assert s == s[..|pat|] + s[|pat|..];
    } else {
      ReplaceAllBySelf(s[1..], pat);
      assert s == [s[0]] + s[1..];
    }
  }

  /** Joining the pieces of a split with the pattern rebuilds the text. */
  lemma SplitJoinRoundTrip(s: string, pat: string)
    requires pat != []
    ensures JoinWith(Split(s, pat), pat) == s
  {
    ReplaceAllIsSplitJoin(s, pat, pat);
    ReplaceAllBySelf(s, pat);
  }

  lemma OccursAtShift(s: string, pat: string, i: int)
    requires s != [] && i > 0
    ensures OccursAt(s, pat, i) <==> OccursAt(s[1..], pat, i - 1)
  {
    if i + |pat| <= |s| {
      assert s[i..i + |pat|] == s[1..][i - 1..i - 1 + |pat|];
    }
  }

  /** A text without the pattern is returned unchanged. */
  lemma {:induction false} ReplaceAllAbsent(s: string, pat: string, repl: string)
    requires pat != []
    requires !Contains(s, pat)
    ensures ReplaceAll(s, pat, repl) == s
    decreases |s|
  {
    if s != [] {
      assert !OccursAt(s, pat, 0);
      forall i | OccursAt(s[1..], pat, i)
        ensures false
      {
        OccursAtShift(s, pat, i + 1);
      }
      ReplaceAllAbsent(s[1..], pat, repl);
      assert s == [s[0]] + s[1..];
    }
  }

  /** With a longer replacement the text never shrinks, and grows exactly when the pattern occurs. */
  lemma {:induction false} ReplaceAllGrows(s: string, pat: string, repl: string)
    requires pat != [] && |repl| > |pat|
    ensures |ReplaceAll(s, pat, repl)| >= |s|
    ensures Contains(s, pat) ==> |ReplaceAll(s, pat, repl)| > |s|
    decreases |s|
  {
    if s == [] {
      assert forall i :: !OccursAt(s, pat, i);
    } else if StartsWith(s, pat) {
      ReplaceAllGrows(s[|pat|..], pat, repl);
    } else {
      ReplaceAllGrows(s[1..], pat, repl);
      if Contains(s, pat) {
        var i :| 0 <= i <= |s| && OccursAt(s, pat, i);
        assert i != 0;
        OccursAtShift(s, pat, i);
      }
    }
  }

  /** When the replacement is longer than the pattern, `replace` is a no-op exactly when the pattern is absent. */
  lemma ReplaceAllUnchangedIff(s: string, pat: string, repl: string)
    requires pat != [] && |repl| > |pat|
    ensures ReplaceAll(s, pat, repl) == s <==> !Contains(s, pat)
  {
    ReplaceAllGrows(s, pat, repl);
    if !Contains(s, pat) {
      ReplaceAllAbsent(s, pat, repl);
    }
  }

  /** Text in front where no occurrence of the pattern starts is copied as it is. */
  lemma {:induction false} ReplaceAllAfterPrefix(prefix: string, rest: string, pat: string, repl: string)
    requires pat != []
    requires forall i :: 0 <= i < |prefix| ==> !OccursAt(prefix + rest, pat, i)
    ensures ReplaceAll(prefix + rest, pat, repl) == prefix + ReplaceAll(rest, pat, repl)
    decreases |prefix|
  {
    if prefix == [] {
      assert prefix + rest == rest;
    } else {
      var s := prefix + rest;
      assert !OccursAt(s, pat, 0);
      assert s[1..] == prefix[1..] + rest;
      forall i | 0 <= i < |prefix| - 1
        ensures !OccursAt(prefix[1..] + rest, pat, i)
      {
        OccursAtShift(s, pat, i + 1);
      }
      ReplaceAllAfterPrefix(prefix[1..], rest, pat, repl);
    }
  }

  /** A text that starts with the pattern has that occurrence replaced. */
  lemma ReplaceAllStartingWith(pat: string, rest: string, repl: string)
    requires pat != []
    ensures ReplaceAll(pat + rest, pat, repl) == repl + ReplaceAll(rest, pat, repl)
  {
    assert StartsWith(pat + rest, pat);
    assert (pat + rest)[|pat|..] == rest;
  }

  /** The pattern's first character does not recur in it, so two occurrences never overlap. */
  predicate FirstCharUnique(pat: string)
  {
    pat != [] && forall k :: 1 <= k < |pat| ==> pat[k] != pat[0]
  }

  /** An occurrence of a pattern that cannot overlap itself never straddles the end of a text without it. */
  lemma NoOccurrenceBefore(prefix: string, pat: string, i: int)
    requires FirstCharUnique(pat) && !Contains(prefix, pat)
    requires 0 <= i < |prefix|
    ensures !OccursAt(prefix + pat, pat, i)
  {
    var s := prefix + pat;
    if i + |pat| <= |prefix| {
      assert !OccursAt(prefix, pat, i);
      assert s[i..i + |pat|] == prefix[i..i + |pat|];
    } else {
      var d := |prefix| - i;
      assert s[i..i + |pat|][d] == pat[0];
      assert pat[d] != pat[0];
    }
  }

  /** A text holding the pattern once, at its end, is that text with the end replaced. */
  lemma ReplaceAllSingleAtEnd(prefix: string, pat: string, repl: string)
    requires FirstCharUnique(pat) && !Contains(prefix, pat)
    ensures ReplaceAll(prefix + pat, pat, repl) == prefix + repl
  {
    forall i | 0 <= i < |prefix|
      ensures !OccursAt(prefix + pat, pat, i)
    {
      NoOccurrenceBefore(prefix, pat, i);
    }
    ReplaceAllAfterPrefix(prefix, pat, pat, repl);
    assert pat + [] == pat;
    ReplaceAllStartingWith(pat, [], repl);
  }
}
