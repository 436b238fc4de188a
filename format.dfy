/**
 * `query.format(csv=escaped)` restricted to what the script's templates use: `{{` and `}}`
 * stand for single braces and `{csv}` for the escaped path. Any other brace is a failure,
 * as Python raises for an unknown field or an unmatched brace.
 */
module PlaceholderFormat {
  import opened Wrappers
  import opened Text

  const PLACEHOLDER: string := "{csv}"

  datatype FormatError =
    | UnmatchedCloseBrace   // a `}` that is not part of `}}`
    | UnsupportedField      // a `{` that opens neither `{{` nor `{csv}`

  predicate BraceFree(s: string)
  {
    forall i :: 0 <= i < |s| ==> s[i] != '{' && s[i] != '}'
  }

  lemma BraceFreeConcat(a: string, b: string)
    requires BraceFree(a) && BraceFree(b)
    ensures BraceFree(a + b)
  {
  }

  function Prepend(prefix: string, r: Result<string, FormatError>): Result<string, FormatError>
  {
    match r
    case Ok(s) => Ok(prefix + s)
    case Err(e) => Err(e)
  }

  /** Substitutes `value` for `{csv}` and un-doubles `{{`/`}}`, scanning left to right. */
  function Format(template: string, value: string): (r: Result<string, FormatError>)
    ensures BraceFree(template) ==> r == Ok(template)
    decreases |template|
  {
    if template == [] then Ok([])
    else if template[0] == '{' then
      if |template| >= 2 && template[1] == '{' then Prepend("{", Format(template[2..], value))
      else if StartsWith(template, PLACEHOLDER) then Prepend(value, Format(template[|PLACEHOLDER|..], value))
      else Err(UnsupportedField)
    else if template[0] == '}' then
      if |template| >= 2 && template[1] == '}' then Prepend("}", Format(template[2..], value))
      else Err(UnmatchedCloseBrace)
    else
      assert BraceFree(template) ==> BraceFree(template[1..]);
      assert [template[0]] + template[1..] == template;
      Prepend([template[0]], Format(template[1..], value))
  }

  /** Brace-free text passes through `Format` untouched, whatever follows it. */
  lemma {:induction false} FormatAfterBraceFree(text: string, rest: string, value: string)
    requires BraceFree(text)
    ensures Format(text + rest, value) == Prepend(text, Format(rest, value))
    decreases |text|
  {
    if text == [] {
      assert text + rest == rest;
      match Format(rest, value)
      case Ok(s) => assert [] + s == s;
      case Err(_) =>
    } else {
      var t := text + rest;
      assert t[0] == text[0] && text[0] != '{' && text[0] != '}';
      assert t[1..] == text[1..] + rest;
      assert BraceFree(text[1..]);
      FormatAfterBraceFree(text[1..], rest, value);
      assert Format(t, value) == Prepend([text[0]], Format(t[1..], value));
      PrependTwice([text[0]], text[1..], Format(rest, value));
      assert [text[0]] + text[1..] == text;
    }
  }

  /** A template that opens with `{csv}` puts the value first. */
  lemma FormatPlaceholderFirst(rest: string, value: string)
    ensures Format(PLACEHOLDER + rest, value) == Prepend(value, Format(rest, value))
  {
    var t := PLACEHOLDER + rest;
    assert t[0] == '{' && t[1] == 'c';
    assert t[..|PLACEHOLDER|] == PLACEHOLDER;
    assert t[|PLACEHOLDER|..] == rest;
  }

  /** The value is inserted verbatim: braces inside it are not interpreted again. */
  lemma FormatSinglePlaceholder(head: string, tail: string, value: string)
    requires BraceFree(head) && BraceFree(tail)
    ensures Format(head + PLACEHOLDER + tail, value) == Ok(head + value + tail)
  {
    FormatAfterBraceFree(head, PLACEHOLDER + tail, value);
    assert (PLACEHOLDER + tail)[|PLACEHOLDER|..] == tail;
    assert Format(tail, value) == Ok(tail);
    assert head + (value + tail) == head + value + tail;
    assert head + PLACEHOLDER + tail == head + (PLACEHOLDER + tail);
  }

  /** Every `{csv}` between brace-free pieces receives the value. */
  lemma {:induction false} FormatFillsEveryPlaceholder(pieces: seq<string>, value: string)
    requires forall i :: 0 <= i < |pieces| ==> BraceFree(pieces[i])
    ensures Format(JoinWith(pieces, PLACEHOLDER), value) == Ok(JoinWith(pieces, value))
  {
    if |pieces| == 0 {
    } else if |pieces| == 1 {
      assert Format(pieces[0], value) == Ok(pieces[0]);
    } else {
      FormatFillsEveryPlaceholder(pieces[1..], value);
      var rest := JoinWith(pieces[1..], PLACEHOLDER);
      FormatAfterBraceFree(pieces[0], PLACEHOLDER + rest, value);
      assert pieces[0] + PLACEHOLDER + rest == pieces[0] + (PLACEHOLDER + rest);
      FormatPlaceholderFirst(rest, value);
      PrependTwice(pieces[0], value, Format(rest, value));
      assert pieces[0] + value + JoinWith(pieces[1..], value) == JoinWith(pieces, value);
    }
  }

  /** Doubles every brace, so that `Format` gives the text back. */
  function EscapeBraces(s: string): (r: string)
    ensures |r| == |s| + Count(s, '{') + Count(s, '}')
  {
    if s == [] then [] else EscapeChar(s[0]) + EscapeBraces(s[1..])
  }

  /** One character as `EscapeBraces` writes it. */
  function EscapeChar(c: char): (r: string)
    ensures 1 <= |r| <= 2 && r[0] == c
  {
    if c == '{' || c == '}' then [c, c] else [c]
  }

  /** `Format` reads one escaped character back as that character. */
  lemma FormatEscapedChar(c: char, rest: string, value: string)
    ensures Format(EscapeChar(c) + rest, value) == Prepend([c], Format(rest, value))
  {
    var e := EscapeChar(c) + rest;
    assert e[|EscapeChar(c)|..] == rest;
    if c == '{' || c == '}' {
      assert e[1] == c;
    }
  }

  lemma PrependEmpty(r: Result<string, FormatError>)
    ensures Prepend([], r) == r
  {
    match r
    case Ok(t) => assert [] + t == t;
    case Err(_) =>
  }

  lemma {:induction false} FormatEscapedBraces(s: string, rest: string, value: string)
    ensures Format(EscapeBraces(s) + rest, value) == Prepend(s, Format(rest, value))
    decreases |s|
  {
    if s == [] {
      assert EscapeBraces(s) + rest == rest;
      PrependEmpty(Format(rest, value));
    } else {
      var tail := EscapeBraces(s[1..]) + rest;
      assert EscapeBraces(s) + rest == EscapeChar(s[0]) + tail;
      FormatEscapedChar(s[0], tail, value);
      FormatEscapedBraces(s[1..], rest, value);
      PrependTwice([s[0]], s[1..], Format(rest, value));
      assert [s[0]] + s[1..] == s;
    }
  }

  /** Brace escaping and formatting are inverse: any text survives `Format` once its braces are doubled. */
  lemma FormatEscapeBracesRoundTrip(s: string, value: string)
    ensures Format(EscapeBraces(s), value) == Ok(s)
  {
    FormatEscapedBraces(s, [], value);
    assert EscapeBraces(s) + [] == EscapeBraces(s);
    assert s + [] == s;
  }

  /**
   * A template that formats on its own formats the same way in front of any other text:
   * the scan never reads past a complete piece.
   */
  lemma PrependTwice(x: string, y: string, r: Result<string, FormatError>)
    ensures Prepend(x, Prepend(y, r)) == Prepend(x + y, r)
  {
    match r
    case Ok(s) => assert x + (y + s) == (x + y) + s;
    case Err(_) =>
  }

  lemma {:induction false} FormatConcat(a: string, b: string, value: string)
    requires Format(a, value).Ok?
    ensures Format(a + b, value) == Prepend(Format(a, value).value, Format(b, value))
    decreases |a|
  {
    if a == [] {
      assert a + b == b;
      match Format(b, value)
      case Ok(s) => assert [] + s == s;
      case Err(_) =>
    } else {
      var n, head;
      if a[0] == '{' && |a| >= 2 && a[1] == '{' {
        n, head := 2, "{";
      } else if a[0] == '{' {
        assert StartsWith(a, PLACEHOLDER);
        assert (a + b)[..|PLACEHOLDER|] == a[..|PLACEHOLDER|];
        n, head := |PLACEHOLDER|, value;
      } else if a[0] == '}' {
        n, head := 2, "}";
      } else {
        n, head := 1, [a[0]];
      }
      assert (a + b)[n..] == a[n..] + b;
      assert Format(a, value) == Prepend(head, Format(a[n..], value));
      assert Format(a + b, value) == Prepend(head, Format(a[n..] + b, value));
      FormatConcat(a[n..], b, value);
      PrependTwice(head, Format(a[n..], value).value, Format(b, value));
    }
  }

  /** Formatting a join is the join of the formatted pieces around the formatted separator. */
  lemma {:induction false} FormatJoin(pieces: seq<string>, outs: seq<string>, sep: string, sepOut: string, value: string)
    requires |pieces| == |outs|
    requires forall i :: 0 <= i < |pieces| ==> Format(pieces[i], value) == Ok(outs[i])
    requires Format(sep, value) == Ok(sepOut)
    ensures Format(JoinWith(pieces, sep), value) == Ok(JoinWith(outs, sepOut))
  {
    if |pieces| == 1 {
      assert Format(pieces[0], value) == Ok(outs[0]);
    } else if |pieces| > 1 {
      var rest := JoinWith(pieces[1..], sep);
      var restOut := JoinWith(outs[1..], sepOut);
      FormatJoin(pieces[1..], outs[1..], sep, sepOut, value);
      assert Format(pieces[0], value) == Ok(outs[0]);
      FormatJoinStep(pieces[0], outs[0], sep, sepOut, rest, restOut, value);
    }
  }

  lemma FormatJoinStep(first: string, firstOut: string, sep: string, sepOut: string, rest: string, restOut: string, value: string)
    requires Format(first, value) == Ok(firstOut)
    requires Format(sep, value) == Ok(sepOut)
    requires Format(rest, value) == Ok(restOut)
    ensures Format(first + sep + rest, value) == Ok(firstOut + sepOut + restOut)
  {
    FormatConcat(sep, rest, value);
    FormatConcat(first, sep + rest, value);
    assert first + sep + rest == first + (sep + rest);
    assert firstOut + (sepOut + restOut) == firstOut + sepOut + restOut;
  }
}
