/** `extractJSONFromText`: salvaging one JSON value from the free-text reply
    of the language model.  `JSON.parse` is kept abstract: every operation
    takes it as the parameter `parse`, where `None` stands for "throws", so
    each property below holds whatever the parser accepts. */
module Recovery {
  import opened Wrappers
  import opened JsStrings
  import opened Json

  /** A parser in the role of `JSON.parse`: a value, or `None` for a thrown
      syntax error. */
  type Parser = string -> Option<Json>

  /** `s[i..j]` (both ends included) is the outermost `open`…`close` span of
      `s`: `i` is the first `open`, `j` the last `close`, and `i < j`. */
  ghost predicate OuterSpan(s: string, open: char, close: char, i: int, j: int) {
    && 0 <= i < j < |s|
    && s[i] == open && s[j] == close
    && (forall k :: 0 <= k < i ==> s[k] != open)
    && (forall k :: j < k < |s| ==> s[k] != close)
  }

  /** Some `open` comes before some later `close`. */
  ghost predicate HasPair(s: string, open: char, close: char) {
    exists i, j :: 0 <= i < j < |s| && s[i] == open && s[j] == close
  }

  /** The span selection of the source: `first = s.indexOf(open)`,
      `last = s.lastIndexOf(close)`, accepted when both exist and
      `last > first`. */
  function Span(s: string, open: char, close: char): (r: Option<(nat, nat)>)
    ensures r.Some? ==> OuterSpan(s, open, close, r.value.0, r.value.1)
    ensures r.None? <==> !HasPair(s, open, close)
  {
    var first := IndexOf(s, open);
    var last := LastIndexOf(s, close);
    if first != -1 && last != -1 && last > first then
      assert s[first] == open && s[last] == close;
      Some((first, last))
    else
      None
  }

  /** The outermost span, when there is one, is unique. */
  lemma OuterSpanUnique(s: string, open: char, close: char, i: int, j: int, i': int, j': int)
    requires OuterSpan(s, open, close, i, j) && OuterSpan(s, open, close, i', j')
    ensures i == i' && j == j'
  {
  }

  /** The text of a span, both ends included (`s.slice(i, j + 1)`). */
  function SpanText(s: string, span: (nat, nat)): string
    requires span.0 <= span.1 < |s|
  {
    s[span.0..span.1 + 1]
  }

  /** An outermost span is the one `Span` selects. */
  lemma SpanFindsOuter(s: string, open: char, close: char, i: int, j: int)
    requires OuterSpan(s, open, close, i, j)
    ensures Span(s, open, close) == Some((i, j))
  {
    assert HasPair(s, open, close);
    var span := Span(s, open, close).value;
    OuterSpanUnique(s, open, close, i, j, span.0, span.1);
  }

  /** `extractJSONFromText(text)`: first the whole text; if that does not
      parse, the span from the first `{` to the last `}`; only if that span
      exists and does not parse, the span from the first `[` to the last `]`;
      `None` (the source's `null`) on every other route.  It never fails. */
  function Extract(parse: Parser, text: string): (r: Option<Json>)
    // A text that parses as a whole is returned as parsed, with no span search.
    ensures parse(text).Some? ==> r == parse(text)
    // With no `{` before a later `}`, the result is `None`, whatever else the text holds.
    ensures parse(text).None? && !HasPair(text, '{', '}') ==> r.None?
    // Whatever is returned came from parsing one of the three candidates,
    // the bracket span only after a brace span that failed.
    ensures r.Some? ==>
      || r == parse(text)
      || (&& parse(text).None?
          && exists i, j :: OuterSpan(text, '{', '}', i, j) && r == parse(text[i..j + 1]))
      || (&& parse(text).None?
          && (exists i, j :: OuterSpan(text, '{', '}', i, j) && parse(text[i..j + 1]).None?)
          && exists i, j :: OuterSpan(text, '[', ']', i, j) && r == parse(text[i..j + 1]))
  {
    match parse(text)
    case Some(v) => Some(v)
    case None =>
      match Span(text, '{', '}')
      case None => None
      case Some(braces) =>
        match parse(SpanText(text, braces))
        case Some(v) => Some(v)
        case None => BracketAttempt(parse, text)
  }

  /** The last attempt: the span from the first `[` to the last `]`, or
      `None` when there is no such span or it does not parse. */
  function BracketAttempt(parse: Parser, text: string): (r: Option<Json>)
    ensures r.Some? ==> exists i, j :: OuterSpan(text, '[', ']', i, j) && r == parse(text[i..j + 1])
  {
    match Span(text, '[', ']')
    case None => None
    case Some(brackets) => parse(SpanText(text, brackets))
  }

  /** When the whole text does not parse, the outermost brace span is tried
      next and its value is returned when it parses. */
  lemma BraceSpanWins(parse: Parser, text: string, i: int, j: int)
    requires parse(text).None?
    requires OuterSpan(text, '{', '}', i, j) && parse(text[i..j + 1]).Some?
    ensures Extract(parse, text) == parse(text[i..j + 1])
  {
    SpanFindsOuter(text, '{', '}', i, j);
  }

  /** Once the brace span exists and fails, the result is that of the
      bracket attempt. */
  lemma BraceFailureFallsThrough(parse: Parser, text: string, i: int, j: int)
    requires parse(text).None?
    requires OuterSpan(text, '{', '}', i, j) && parse(text[i..j + 1]).None?
    ensures Extract(parse, text) == BracketAttempt(parse, text)
  {
    SpanFindsOuter(text, '{', '}', i, j);
    assert SpanText(text, (i, j)) == text[i..j + 1];
  }

  /** When the brace span exists and fails, the outermost bracket span is
      tried; with no `[` before a later `]` the result is `None`. */
  lemma BracketSpanAfterBraceFailure(parse: Parser, text: string, i: int, j: int)
    requires parse(text).None?
    requires OuterSpan(text, '{', '}', i, j) && parse(text[i..j + 1]).None?
    ensures !HasPair(text, '[', ']') ==> Extract(parse, text).None?
    ensures forall bi, bj :: OuterSpan(text, '[', ']', bi, bj) ==>
              Extract(parse, text) == parse(text[bi..bj + 1])
  {
    BraceFailureFallsThrough(parse, text, i, j);
    forall bi, bj | OuterSpan(text, '[', ']', bi, bj)
      ensures BracketAttempt(parse, text) == parse(text[bi..bj + 1])
    {
      SpanFindsOuter(text, '[', ']', bi, bj);
    }
  }

  /** A JSON object embedded in prose: when the text before it has no `{`
      and the text after it has no `}`, the brace candidate is exactly the
      embedded text, so a text that does not parse as a whole yields the
      embedded value. */
  lemma EmbeddedObject(parse: Parser, before: string, obj: string, after: string)
    requires '{' !in before && '}' !in after
    requires |obj| >= 2 && obj[0] == '{' && obj[|obj| - 1] == '}'
    ensures var text := before + obj + after;
      && OuterSpan(text, '{', '}', |before|, |before| + |obj| - 1)
      && text[|before|..|before| + |obj|] == obj
      && (parse(text).None? && parse(obj).Some? ==> Extract(parse, text) == parse(obj))
  {
    var text := before + obj + after;
    var i, j := |before|, |before| + |obj| - 1;
    assert text[i] == obj[0] && text[j] == obj[|obj| - 1];
    forall k | 0 <= k < i ensures text[k] != '{' {
      assert text[k] == before[k];
    }
    forall k | j < k < |text| ensures text[k] != '}' {
      assert text[k] == after[k - i - |obj|];
    }
    assert text[i..j + 1] == obj;
  }

  /** A text with no `{` before a later `}` that does not parse as a whole
      is not salvaged, even if it holds a parseable bracket span. */
  lemma BracketSpanAloneIsIgnored(parse: Parser, text: string, i: int, j: int)
    requires parse(text).None?
    requires '{' !in text
    requires OuterSpan(text, '[', ']', i, j) && parse(text[i..j + 1]).Some?
    ensures Extract(parse, text).None?
  {
  }
}
