/** The inline LaTeX markup of descriptions (`markup` and the fixed-point
    `sub` in formatters.py; model.py carries identical copies). */
module Markup {
  import opened Strings
  import opened Sanitize

  /** One greedy `re.sub(r'<d>(.*)<d>', open + r'\1' + close, line)` on a
      single line: `.*` cannot cross a newline and is greedy, so the span
      runs from the first to the last delimiter of the line; with fewer than
      two delimiters nothing matches. */
  function WrapLine(line: string, d: char, open: string, close: string): string {
    match CutFirst(line, d)
    case NoCut => line
    case Cut(x, rest) =>
      match CutLast(rest, d)
      case NoCut => line
      case Cut(m, y) => x + open + m + close + y
  }

  function WrapLines(lines: seq<string>, d: char, open: string, close: string): (r: seq<string>)
    ensures |r| == |lines|
    decreases |lines|
  {
    if lines == [] then []
    else [WrapLine(lines[0], d, open, close)] + WrapLines(lines[1..], d, open, close)
  }

  /** One of the three regular-expression passes of `markup`, over a whole
      text: line by line. */
  function WrapSpans(s: string, d: char, open: string, close: string): string {
    Join(WrapLines(Split(s, '\n'), d, open, close), "\n")
  }

  /** `markup`: backtick spans become `\texttt{..}`, then underscore spans
      `\textsl{..}`, then quote spans `` `..' ``, and the result is
      sanitised. */
  function Markup(text: string): string {
    var code := WrapSpans(text, '`', "\\texttt{", "}");
    var slanted := WrapSpans(code, '_', "\\textsl{", "}");
    var quoted := WrapSpans(slanted, '\'', "`", "'");
    Sanitize.Sanitize(quoted)
  }

  // ---------------------------------------------------------------------
  // One line

  /** The span is exactly the text between the first and the last delimiter:
      whatever lies between them, further delimiters included, is wrapped,
      and what lies outside is kept. */
  lemma WrapLineSpan(x: string, m: string, y: string, d: char, open: string, close: string)
    requires d !in x && d !in y
    ensures WrapLine(x + [d] + m + [d] + y, d, open, close) == x + open + m + close + y
  {
    assert x + [d] + m + [d] + y == x + [d] + (m + [d] + y);
    CutFirstUnique(x, m + [d] + y, d);
    CutLastUnique(m, y, d);
  }

  /** A line holding the delimiter once is not rewritten. */
  lemma WrapLineSingle(x: string, y: string, d: char, open: string, close: string)
    requires d !in x && d !in y
    ensures WrapLine(x + [d] + y, d, open, close) == x + [d] + y
  {
    CutFirstUnique(x, y, d);
  }

  // ---------------------------------------------------------------------
  // A whole text

  /** Without a newline the text is a single line. */
  lemma WrapSpansLine(s: string, d: char, open: string, close: string)
    requires '\n' !in s
    ensures WrapSpans(s, d, open, close) == WrapLine(s, d, open, close)
  {
    SplitPlain(s, '\n');
  }

  /** Each line is rewritten on its own: the first line, then the rest. */
  lemma WrapSpansLines(a: string, b: string, d: char, open: string, close: string)
    requires '\n' !in a
    ensures WrapSpans(a + "\n" + b, d, open, close)
         == WrapLine(a, d, open, close) + "\n" + WrapSpans(b, d, open, close)
  {
    SplitFirst(a, b, '\n');
    var rest := Split(b, '\n');
    var ls := [a] + rest;
    assert ls[1..] == rest;
    var ws := WrapLines(ls, d, open, close);
    assert ws == [WrapLine(a, d, open, close)] + WrapLines(rest, d, open, close);
    assert ws[1..] == WrapLines(rest, d, open, close);
  }

  /** A text without the delimiter is left alone. */
  lemma {:induction false} WrapSpansAbsent(s: string, d: char, open: string, close: string)
    requires d !in s
    ensures WrapSpans(s, d, open, close) == s
    decreases |s|
  {
    match CutFirst(s, '\n')
    case NoCut =>
      WrapSpansLine(s, d, open, close);
    case Cut(a, b) =>
      WrapSpansLines(a, b, d, open, close);
      WrapSpansAbsent(b, d, open, close);
  }

  // ---------------------------------------------------------------------
  // markup

  /** Text with none of the markup characters comes back unchanged. */
  lemma MarkupPlain(text: string)
    requires '`' !in text && '_' !in text && '\'' !in text && '#' !in text
    ensures Markup(text) == text
  {
    WrapSpansAbsent(text, '`', "\\texttt{", "}");
    WrapSpansAbsent(text, '_', "\\textsl{", "}");
    WrapSpansAbsent(text, '\'', "`", "'");
    SanitizeIdentity(text);
  }

  lemma MarkupEmpty()
    ensures Markup("") == ""
  {
    MarkupPlain("");
  }

  /** `markup` as its four stages, given the results of the first three. */
  lemma MarkupStages(text: string, code: string, slanted: string, quoted: string)
    requires WrapSpans(text, '`', "\\texttt{", "}") == code
    requires WrapSpans(code, '_', "\\textsl{", "}") == slanted
    requires WrapSpans(slanted, '\'', "`", "'") == quoted
    ensures Markup(text) == Sanitize.Sanitize(quoted)
  {
  }

  /** Whatever spans the rules wrap, marked-up text holds no bare `_` or
      `#`: each one follows a backslash, so LaTeX reads neither as a
      subscript nor as a comment. */
  lemma MarkupEscapes(text: string)
    ensures Escaped(Markup(text), '_', '#')
  {
    var code := WrapSpans(text, '`', "\\texttt{", "}");
    var slanted := WrapSpans(code, '_', "\\textsl{", "}");
    var quoted := WrapSpans(slanted, '\'', "`", "'");
    MarkupStages(text, code, slanted, quoted);
    SanitizeEscapes(quoted);
  }

  /** The characters the markup lemmas exclude from a whole line are absent
      from each of its parts. */
  lemma NotInParts(x: string, m: string, y: string)
    ensures forall c :: c !in x + m + y ==> c !in x && c !in m && c !in y
  {
    assert forall c :: c in x ==> c in x + m + y;
    assert forall c :: c in m ==> c in x + m + y;
    assert forall c :: c in y ==> c in x + m + y;
  }

  /** Which characters the code span and its rewriting hold. */
  lemma CodeSpanChars(x: string, m: string, y: string)
    requires forall c :: c in x + m + y ==> c != '\n' && c != '_' && c != '\'' && c != '#'
    ensures '\n' !in x + "`" + m + "`" + y
    ensures var r := x + "\\texttt{" + m + "}" + y;
      '_' !in r && '\'' !in r && '#' !in r
  {
    NotInParts(x, m, y);
  }

  /** Which characters the quote span and its rewriting hold. */
  lemma QuoteSpanChars(x: string, m: string, y: string)
    requires forall c :: c in x + m + y ==> c != '\n' && c != '_' && c != '`' && c != '#'
    ensures var s := x + "'" + m + "'" + y;
      '`' !in s && '_' !in s && '\n' !in s
    ensures var r := x + "`" + m + "'" + y;
      '_' !in r && '#' !in r
  {
    NotInParts(x, m, y);
  }

  /** A backtick span reaches from the first to the last backtick of its
      line, so inner backticks end up inside the `\texttt{..}`. */
  lemma MarkupCode(x: string, m: string, y: string)
    requires '`' !in x && '`' !in y
    requires forall c :: c in x + m + y ==> c != '\n' && c != '_' && c != '\'' && c != '#'
    ensures Markup(x + "`" + m + "`" + y) == x + "\\texttt{" + m + "}" + y
  {
    var s := x + "`" + m + "`" + y;
    var r := x + "\\texttt{" + m + "}" + y;
    CodeSpanChars(x, m, y);
    WrapSpansLine(s, '`', "\\texttt{", "}");
    WrapLineSpan(x, m, y, '`', "\\texttt{", "}");
    WrapSpansAbsent(r, '_', "\\textsl{", "}");
    WrapSpansAbsent(r, '\'', "`", "'");
    SanitizeIdentity(r);
    MarkupStages(s, r, r, r);
  }

  /** A quoted span is turned into LaTeX quotes: a backtick opens it and the
      closing quote stays. The backtick it introduces is not read as code,
      because the code rule has already run. */
  lemma MarkupQuote(x: string, m: string, y: string)
    requires '\'' !in x && '\'' !in y
    requires forall c :: c in x + m + y ==> c != '\n' && c != '_' && c != '`' && c != '#'
    ensures Markup(x + "'" + m + "'" + y) == x + "`" + m + "'" + y
  {
    var s := x + "'" + m + "'" + y;
    var r := x + "`" + m + "'" + y;
    QuoteSpanChars(x, m, y);
    WrapSpansAbsent(s, '`', "\\texttt{", "}");
    WrapSpansAbsent(s, '_', "\\textsl{", "}");
    WrapSpansLine(s, '\'', "`", "'");
    WrapLineSpan(x, m, y, '\'', "`", "'");
    SanitizeIdentity(r);
    MarkupStages(s, s, s, r);
  }

  // ---------------------------------------------------------------------
  // sub

  /** The value `sub` settles on: apply `step` until it changes nothing.
      `step` stands for one `re.sub` with a fixed pattern; `rank` is a
      measure that every effective step lowers, which is what makes the
      loop of `sub` end. */
  function FixedPoint(step: string -> string, rank: string -> nat, s: string): (r: string)
    requires forall x :: step(x) != x ==> rank(step(x)) < rank(x)
    ensures step(r) == r
    decreases rank(s)
  {
    if step(s) == s then s else FixedPoint(step, rank, step(s))
  }

  /** `sub(pattern, replacement, string)`: substitute until the text no
      longer changes; substituting once more into the result gives the
      result itself. */
  method Sub(step: string -> string, ghost rank: string -> nat, s: string) returns (r: string)
    requires forall x :: step(x) != x ==> rank(step(x)) < rank(x)
    ensures step(r) == r
    ensures r == FixedPoint(step, rank, s)
  {
    var current := s;
    while true
      invariant FixedPoint(step, rank, current) == FixedPoint(step, rank, s)
      decreases rank(current)
    {
      r := step(current);
      if r == current {
        break;
      }
      current := r;
    }
  }
}
