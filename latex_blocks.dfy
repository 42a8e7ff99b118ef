/** The LaTeX blocks built from a parsed docstring (`parameters_to_latex`,
    `examples_to_latex`, `meta_to_latex` and `method_to_latex` in
    formatters.py; model.py carries identical copies). */
module LatexBlocks {
  import opened Wrappers
  import opened Strings
  import Markup
  import Canonical

  /** What the docstring parser reports: a documented parameter, a meta
      section (its keywords and its text), and the whole parse. The short
      description is always present here; see the README. */
  datatype Param = Param(argName: string, description: string)

  datatype Meta = Meta(args: seq<string>, description: string)

  datatype Parsed = Parsed(short: string, long: Option<string>, params: seq<Param>, meta: seq<Meta>)

  // ---------------------------------------------------------------------
  // parameters_to_latex

  /** The item a parameter contributes. */
  function ParamItem(p: Param): string {
    "\\item \\texttt{" + p.argName + "}: " + p.description + "\n"
  }

  /** The items of all parameters, in order. */
  function ParamItems(ps: seq<Param>): string
    decreases |ps|
  {
    if ps == [] then "" else ParamItems(ps[..|ps| - 1]) + ParamItem(ps[|ps| - 1])
  }

  /** The lines that open and close the parameter list. */
  const ItemizeBegin: string := "\\begin{itemize}"
  const ItemizeEnd: string := "\\end{itemize}"

  /** What `parameters_to_latex` returns: nothing for no parameters,
      otherwise an itemize environment with one item per parameter. */
  function ParamsLatex(ps: seq<Param>): string {
    if |ps| <= 0 then "" else ItemizeBegin + "\n" + ParamItems(ps) + ItemizeEnd + "\n"
  }

  /** `parameters_to_latex`. */
  method ParametersToLatex(params: seq<Param>) returns (items: string)
    ensures items == ParamsLatex(params)
  {
    if |params| <= 0 {
      return "";
    }
    items := ItemizeBegin + "\n";
    for i := 0 to |params|
      invariant items == ItemizeBegin + "\n" + ParamItems(params[..i])
    {
      assert params[..i + 1][..i] == params[..i];
      items := items + ParamItem(params[i]);
    }
    assert params[..|params|] == params;
    items := items + ItemizeEnd + "\n";
  }

  /** The items of two parameter lists are the items of each. */
  lemma {:induction false} ParamItemsAppend(a: seq<Param>, b: seq<Param>)
    ensures ParamItems(a + b) == ParamItems(a) + ParamItems(b)
    decreases |b|
  {
    if b == [] {
      assert a + b == a;
    } else {
      var b0, last := b[..|b| - 1], b[|b| - 1];
      assert (a + b)[..|a + b| - 1] == a + b0 && (a + b)[|a + b| - 1] == last;
      assert ParamItems(a + b) == ParamItems(a + b0) + ParamItem(last);
      ParamItemsAppend(a, b0);
      Assoc(ParamItems(a), ParamItems(b0), ParamItem(last));
    }
  }

  /** The line an item occupies. */
  function ItemLine(p: Param): string {
    "\\item \\texttt{" + p.argName + "}: " + p.description
  }

  /** The item lines, in order. */
  function ItemLines(ps: seq<Param>): seq<string>
    decreases |ps|
  {
    if ps == [] then [] else [ItemLine(ps[0])] + ItemLines(ps[1..])
  }

  /** No newline in a parameter's name or description. */
  predicate OneLine(p: Param) {
    '\n' !in p.argName && '\n' !in p.description
  }

  /** Read line by line, the block is the opening of the environment, one
      line per parameter in order, the closing, and an empty last piece. */
  lemma ParamsLatexLines(ps: seq<Param>)
    requires ps != [] && forall i :: 0 <= i < |ps| ==> OneLine(ps[i])
    ensures var lines := Split(ParamsLatex(ps), '\n');
      |lines| == |ps| + 3 && lines[0] == ItemizeBegin && lines[|ps| + 1] == ItemizeEnd && lines[|ps| + 2] == ""
      && forall i :: 0 <= i < |ps| ==> lines[i + 1] == ItemLine(ps[i])
  {
    EnvironmentLines();
    BlockLines(ps, ItemizeBegin, ItemizeEnd, ParamsLatex(ps));
    ItemLinesAt(ps);
  }

  lemma {:induction false} ItemLinesAt(ps: seq<Param>)
    ensures |ItemLines(ps)| == |ps|
    ensures forall i :: 0 <= i < |ps| ==> ItemLines(ps)[i] == ItemLine(ps[i])
    decreases |ps|
  {
    if ps != [] {
      ItemLinesAt(ps[1..]);
    }
  }

  /** The environment lines hold no newline. */
  lemma EnvironmentLines()
    ensures '\n' !in ItemizeBegin && '\n' !in ItemizeEnd
  {
  }

  /** A block of items between an opening and a closing line. */
  lemma BlockLines(ps: seq<Param>, open: string, close: string, block: string)
    requires '\n' !in open && '\n' !in close
    requires forall i :: 0 <= i < |ps| ==> OneLine(ps[i])
    requires block == open + "\n" + ParamItems(ps) + close + "\n"
    ensures Split(block, '\n') == [open] + ItemLines(ps) + [close, ""]
  {
    var items, closing := ParamItems(ps), close + "\n";
    Assoc(open + "\n" + items, close, "\n");
    Assoc(open + "\n", items, closing);
    SplitFirst(open, items + closing, '\n');
    ItemsSplit(ps, closing);
    assert closing == close + "\n" + "";
    SplitFirst(close, "", '\n');
    assert Split("", '\n') == [""];
    var tailLines := Split(closing, '\n');
    assert tailLines == [close, ""];
    assert Split(block, '\n') == [open] + (ItemLines(ps) + tailLines);
    ListAssoc([open], ItemLines(ps), tailLines);
  }

  lemma ListAssoc(a: seq<string>, b: seq<string>, c: seq<string>)
    ensures a + b + c == a + (b + c)
  {
  }

  /** Splitting the items followed by `tail` gives one line per item, then
      the pieces of `tail`. */
  lemma {:induction false} ItemsSplit(ps: seq<Param>, tail: string)
    requires forall i :: 0 <= i < |ps| ==> OneLine(ps[i])
    ensures Split(ParamItems(ps) + tail, '\n') == ItemLines(ps) + Split(tail, '\n')
    decreases |ps|
  {
    if ps == [] {
      assert ParamItems(ps) + tail == tail;
    } else {
      var p, rest := ps[0], ps[1..];
      var line := ItemLine(p);
      ItemsFront(ps);
      assert ParamItems(ps) + tail == line + "\n" + (ParamItems(rest) + tail) by {
        Assoc(line + "\n", ParamItems(rest), tail);
      }
      OneLineItem(p);
      SplitFirst(line, ParamItems(rest) + tail, '\n');
      assert forall i :: 0 <= i < |rest| ==> rest[i] == ps[i + 1];
      ItemsSplit(rest, tail);
      ListAssoc([line], ItemLines(rest), Split(tail, '\n'));
    }
  }

  /** The first parameter's item comes first. */
  lemma ItemsFront(ps: seq<Param>)
    requires ps != []
    ensures ParamItems(ps) == ItemLine(ps[0]) + "\n" + ParamItems(ps[1..])
  {
    ParamItemsAppend([ps[0]], ps[1..]);
    assert [ps[0]] + ps[1..] == ps;
    assert [ps[0]][..0] == [];
    assert ParamItems([ps[0]]) == "" + ParamItem(ps[0]);
    assert ParamItem(ps[0]) == ItemLine(ps[0]) + "\n";
  }

  lemma OneLineItem(p: Param)
    requires OneLine(p)
    ensures '\n' !in ItemLine(p)
  {
  }

  /** Parameters free of the markup characters give a block that markup
      leaves unchanged. */
  lemma ParamsMarkupPlain(ps: seq<Param>)
    requires forall i :: 0 <= i < |ps| ==> NoMarkup(ps[i].argName) && NoMarkup(ps[i].description)
    ensures Markup.Markup(ParamsLatex(ps)) == ParamsLatex(ps)
  {
    ItemsNoMarkup(ps);
    if ps == [] {
      Markup.MarkupEmpty();
    } else {
      EnvironmentPlain();
      NoMarkupConcat(ItemizeBegin + "\n", ParamItems(ps));
      NoMarkupConcat(ItemizeBegin + "\n" + ParamItems(ps), ItemizeEnd + "\n");
      Assoc(ItemizeBegin + "\n" + ParamItems(ps), ItemizeEnd, "\n");
      Markup.MarkupPlain(ParamsLatex(ps));
    }
  }

  lemma EnvironmentPlain()
    ensures NoMarkup(ItemizeBegin + "\n") && NoMarkup(ItemizeEnd + "\n")
  {
    assert NoMarkup(ItemizeBegin) && NoMarkup(ItemizeEnd) && NoMarkup("\n");
    NoMarkupConcat(ItemizeBegin, "\n");
    NoMarkupConcat(ItemizeEnd, "\n");
  }

  /** No character markup reads. */
  predicate NoMarkup(s: string) {
    '`' !in s && '_' !in s && '\'' !in s && '#' !in s
  }

  lemma NoMarkupConcat(a: string, b: string)
    requires NoMarkup(a) && NoMarkup(b)
    ensures NoMarkup(a + b)
  {
  }

  lemma {:induction false} ItemsNoMarkup(ps: seq<Param>)
    requires forall i :: 0 <= i < |ps| ==> NoMarkup(ps[i].argName) && NoMarkup(ps[i].description)
    ensures NoMarkup(ParamItems(ps))
    decreases |ps|
  {
    if ps != [] {
      var init, p := ps[..|ps| - 1], ps[|ps| - 1];
      assert forall i :: 0 <= i < |init| ==> init[i] == ps[i];
      ItemsNoMarkup(init);
      ItemNoMarkup(p);
      NoMarkupConcat(ParamItems(init), ParamItem(p));
    }
  }

  lemma ItemNoMarkup(p: Param)
    requires NoMarkup(p.argName) && NoMarkup(p.description)
    ensures NoMarkup(ParamItem(p))
  {
    var a := "\\item \\texttt{";
    NoMarkupConcat(a, p.argName);
    NoMarkupConcat(a + p.argName, "}: ");
    NoMarkupConcat(a + p.argName + "}: ", p.description);
    NoMarkupConcat(a + p.argName + "}: " + p.description, "\n");
  }

  // ---------------------------------------------------------------------
  // examples_to_latex

  /** `{\textquotesingle}`, the quote sign LaTeX prints upright. */
  const QuoteSign: string := "{\\textquotesingle}"

  /** The first two substitutions: every `{` becomes `\{`, then every `}`
      becomes `\}` (a literal one-character pattern, so plain replacing). */
  function EscapeBraces(d: string): string {
    Replace(Replace(d, "{", "\\{"), "}", "\\}")
  }

  /** The example text as it is emitted: braces escaped, then each quoted
      span of a line put between upright quote signs. */
  function ExampleText(d: string): string {
    Markup.WrapSpans(EscapeBraces(d), '\'', QuoteSign, QuoteSign)
  }

  /** What `examples_to_latex` returns. */
  function ExamplesLatex(m: Meta): string {
    "\\textbf{Examples}\n" + "\\begin{example}\n" + ExampleText(m.description) + "\n"
      + "\\end{example}\n"
  }

  /** Brace escaping is the escaping pass for `{` and `}`: afterwards every
      brace of the text follows a backslash. */
  lemma EscapeBracesMarks(d: string)
    ensures EscapeBraces(d) == Escape(d, '{', '}')
    ensures Escaped(EscapeBraces(d), '{', '}')
  {
    EscapeByReplace(d, '{', '}');
    EscapeMarksAll(d, '{', '}');
  }

  /** Without a quote, the example text is only brace-escaped. */
  lemma ExampleTextNoQuote(d: string)
    requires '\'' !in d
    ensures ExampleText(d) == Escape(d, '{', '}')
  {
    EscapeBracesMarks(d);
    EscapeKeepsAbsent(d, '{', '}', '\'');
    Markup.WrapSpansAbsent(Escape(d, '{', '}'), '\'', QuoteSign, QuoteSign);
  }

  /** On a single line, the span from the first to the last quote is put
      between quote signs; the braces everywhere, those introduced by the
      quote signs apart, are escaped. */
  lemma ExampleTextQuote(x: string, m: string, y: string)
    requires '\'' !in x && '\'' !in y && '\n' !in x && '\n' !in m && '\n' !in y
    ensures ExampleText(x + "'" + m + "'" + y)
         == Escape(x, '{', '}') + QuoteSign + Escape(m, '{', '}') + QuoteSign + Escape(y, '{', '}')
  {
    var d := x + "'" + m + "'" + y;
    var ex, em, ey := Escape(x, '{', '}'), Escape(m, '{', '}'), Escape(y, '{', '}');
    EscapeBracesMarks(d);
    EscapeQuoted(x, m, y);
    EscapeKeepsAbsent(x, '{', '}', '\'');
    EscapeKeepsAbsent(y, '{', '}', '\'');
    OneLineEscaped(x, m, y);
    Markup.WrapSpansLine(ex + "'" + em + "'" + ey, '\'', QuoteSign, QuoteSign);
    Markup.WrapLineSpan(ex, em, ey, '\'', QuoteSign, QuoteSign);
  }

  /** Escaping braces leaves the quotes of a quoted span in place. */
  lemma EscapeQuoted(x: string, m: string, y: string)
    ensures Escape(x + "'" + m + "'" + y, '{', '}')
         == Escape(x, '{', '}') + "'" + Escape(m, '{', '}') + "'" + Escape(y, '{', '}')
  {
    EscapeConcat(x + "'" + m + "'", y, '{', '}');
    EscapeConcat(x + "'" + m, "'", '{', '}');
    EscapeConcat(x + "'", m, '{', '}');
    EscapeConcat(x, "'", '{', '}');
  }

  lemma OneLineEscaped(x: string, m: string, y: string)
    requires '\n' !in x && '\n' !in m && '\n' !in y
    ensures '\n' !in Escape(x, '{', '}') + "'" + Escape(m, '{', '}') + "'" + Escape(y, '{', '}')
  {
    EscapeKeepsAbsent(x, '{', '}', '\n');
    EscapeKeepsAbsent(m, '{', '}', '\n');
    EscapeKeepsAbsent(y, '{', '}', '\n');
  }

  // ---------------------------------------------------------------------
  // meta_to_latex

  /** A meta section that is an examples section. */
  predicate IsExamples(m: Meta) {
    "examples" in m.args
  }

  /** What `meta_to_latex` returns. */
  function MetasLatex(ms: seq<Meta>): string
    decreases |ms|
  {
    if ms == [] then ""
    else
      var last := ms[|ms| - 1];
      MetasLatex(ms[..|ms| - 1]) + (if IsExamples(last) then ExamplesLatex(last) else "")
  }

  /** `meta_to_latex`. */
  method MetaToLatex(metas: seq<Meta>) returns (latex: string)
    ensures latex == MetasLatex(metas)
  {
    latex := "";
    for i := 0 to |metas|
      invariant latex == MetasLatex(metas[..i])
    {
      assert metas[..i + 1][..i] == metas[..i];
      if "examples" in metas[i].args {
        latex := latex + ExamplesLatex(metas[i]);
      }
    }
    assert metas[..|metas|] == metas;
  }

  /** The examples sections, in order. */
  function ExampleMetas(ms: seq<Meta>): (r: seq<Meta>)
    ensures forall m :: m in r <==> m in ms && IsExamples(m)
    decreases |ms|
  {
    if ms == [] then []
    else
      var rest := ExampleMetas(ms[..|ms| - 1]);
      assert ms == ms[..|ms| - 1] + [ms[|ms| - 1]];
      if IsExamples(ms[|ms| - 1]) then rest + [ms[|ms| - 1]] else rest
  }

  /** Every given section rendered as examples, in order. */
  function AllExamples(ms: seq<Meta>): string
    decreases |ms|
  {
    if ms == [] then "" else AllExamples(ms[..|ms| - 1]) + ExamplesLatex(ms[|ms| - 1])
  }

  /** `meta_to_latex` renders exactly the examples sections, in order, and
      nothing for the other sections. */
  lemma {:induction false} MetasLatexFilter(ms: seq<Meta>)
    ensures MetasLatex(ms) == AllExamples(ExampleMetas(ms))
    decreases |ms|
  {
    if ms != [] {
      var init, last := ms[..|ms| - 1], ms[|ms| - 1];
      MetasLatexFilter(init);
      if IsExamples(last) {
        var r := ExampleMetas(init) + [last];
        assert r[..|r| - 1] == ExampleMetas(init);
      }
    }
  }

  /** Without an examples section nothing is rendered. */
  lemma {:induction false} MetasLatexNone(ms: seq<Meta>)
    requires forall i :: 0 <= i < |ms| ==> !IsExamples(ms[i])
    ensures MetasLatex(ms) == ""
    decreases |ms|
  {
    if ms != [] {
      assert forall i :: 0 <= i < |ms| - 1 ==> ms[..|ms| - 1][i] == ms[i];
      MetasLatexNone(ms[..|ms| - 1]);
    }
  }

  // ---------------------------------------------------------------------
  // method_to_latex

  /** The description: the short one, followed by the long one after an
      empty line when there is one. */
  function Description(doc: Parsed): string {
    if doc.long.Some? then doc.short + "\n\n" + doc.long.value else doc.short
  }

  /** What `method_to_latex` returns: the docstring is canonicalised and
      parsed; the marked-up description, the marked-up parameter block and
      the examples follow each other. `parse` stands for the docstring
      parser. */
  function MethodLatex(docstring: string, parse: string -> Parsed): string {
    var doc := parse(Canonical.CanonicalText(docstring));
    Markup.Markup(Description(doc)) + "\n" + Markup.Markup(ParamsLatex(doc.params)) + "\n\n"
      + MetasLatex(doc.meta)
  }

  /** `method_to_latex`. */
  method MethodToLatex(docstring: string, parse: string -> Parsed) returns (latex: string)
    ensures latex == MethodLatex(docstring, parse)
  {
    latex := "";
    var canonical := Canonical.CanonicalizeDescription(docstring);
    var doc := parse(canonical);
    var description := doc.short;
    if doc.long.Some? {
      description := description + "\n\n" + doc.long.value;
    }
    latex := latex + Markup.Markup(description);
    assert latex == Markup.Markup(description);
    latex := latex + "\n";
    var params := ParametersToLatex(doc.params);
    latex := latex + Markup.Markup(params);
    latex := latex + "\n\n";
    var metas := MetaToLatex(doc.meta);
    latex := latex + metas;
    MethodLatexParts(docstring, parse, description, params, metas);
  }

  /** `method_to_latex` from its three computed parts. */
  lemma MethodLatexParts(docstring: string, parse: string -> Parsed,
                         description: string, params: string, metas: string)
    requires var doc := parse(Canonical.CanonicalText(docstring));
      description == Description(doc) && params == ParamsLatex(doc.params)
      && metas == MetasLatex(doc.meta)
    ensures MethodLatex(docstring, parse)
         == Markup.Markup(description) + "\n" + Markup.Markup(params) + "\n\n" + metas
  {
  }

  /** The text opens with the marked-up description and its newline, before
      any parameter or example. */
  lemma MethodLatexStartsWithDescription(docstring: string, parse: string -> Parsed)
    ensures var doc := parse(Canonical.CanonicalText(docstring));
      StartsWith(MethodLatex(docstring, parse), Markup.Markup(Description(doc)) + "\n")
  {
    var doc := parse(Canonical.CanonicalText(docstring));
    MethodLatexParts(docstring, parse, Description(doc), ParamsLatex(doc.params), MetasLatex(doc.meta));
    PrefixOfFive(Markup.Markup(Description(doc)), "\n", Markup.Markup(ParamsLatex(doc.params)), "\n\n",
      MetasLatex(doc.meta));
  }

  lemma PrefixOfFive(a: string, b: string, c: string, d: string, e: string)
    ensures StartsWith(a + b + c + d + e, a + b)
  {
    assert (a + b + c + d + e)[..|a + b|] == a + b;
  }

  /** The examples close the block as they are rendered: markup is not
      applied to them. */
  lemma MethodLatexEndsWithExamples(docstring: string, parse: string -> Parsed)
    ensures EndsWith(MethodLatex(docstring, parse),
      AllExamples(ExampleMetas(parse(Canonical.CanonicalText(docstring)).meta)))
  {
    var doc := parse(Canonical.CanonicalText(docstring));
    MetasLatexFilter(doc.meta);
    EndsWithConcat(Markup.Markup(Description(doc)) + "\n" + Markup.Markup(ParamsLatex(doc.params)) + "\n\n",
      MetasLatex(doc.meta));
  }

  /** A plain docstring with neither parameters nor examples is rendered as
      its description followed by three newlines. */
  lemma MethodLatexPlain(docstring: string, parse: string -> Parsed)
    requires var doc := parse(Canonical.CanonicalText(docstring));
      NoMarkup(Description(doc)) && doc.params == []
      && forall i :: 0 <= i < |doc.meta| ==> !IsExamples(doc.meta[i])
    ensures var doc := parse(Canonical.CanonicalText(docstring));
      MethodLatex(docstring, parse) == Description(doc) + "\n\n\n"
  {
    var doc := parse(Canonical.CanonicalText(docstring));
    var d := Description(doc);
    MethodLatexParts(docstring, parse, d, ParamsLatex(doc.params), MetasLatex(doc.meta));
    Markup.MarkupPlain(d);
    Markup.MarkupEmpty();
    MetasLatexNone(doc.meta);
    PlainNewlines(d);
  }

  lemma PlainNewlines(d: string)
    ensures d + "\n" + "" + "\n\n" + "" == d + "\n\n\n"
  {
    assert "\n" + "" + "\n\n" + "" == "\n\n\n";
    Assoc(d, "\n", "\n\n");
  }
}
