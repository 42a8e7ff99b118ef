# lazy_docs, modelled in Dafny

lazy_docs turns the classes and methods of Python modules into
documentation. It has three output formats: a Markdown page, a Graphviz
class diagram, and LaTeX. This project models the part of lazy_docs that
does not depend on Python introspection:

- **Formatters.** `Formatter` walks the modules in pre-order. For each
  class it appends the marker fragments, the class fragments, then the
  fragments of the class's own methods to a body list. `MarkdownFormatter`,
  `DotFormatter` and `LatexFormatter` say what is appended and how the body
  becomes text.
- **The Dot sort.** The Dot format sorts its body in place before reading it.
- **Text helpers:**
  - `_sanitize` hides the internal package prefixes and escapes `_` and `#`;
  - `convert_type` simplifies type names;
  - `markup` applies inline LaTeX markup;
  - `sub` substitutes to a fixed point.
- **The LaTeX block builders** for parameters, examples and meta sections,
  and `method_to_latex`.
- **The docstring canonicaliser** `canonicalize_description`.
- **The older print-based LaTeX exporter** of model.py, which prints the
  same lines as it goes.

Modules:

| file | module | what it holds |
|---|---|---|
| `descriptors.dfy` | `Descriptors` | What the formatters read: modules, classes, methods; `traverse`. |
| `strings.dfy` | `Strings` | The Python `str` operations used: `replace`, `strip`, `rstrip`, `split`, `join`. |
| `sanitize.dfy` | `Sanitize` | `_sanitize`, `convert_type`, and the `Union[..]` rewrite. |
| `markup.dfy` | `Markup` | The greedy per-line span rewrites, `markup`, `sub`. |
| `signature.dfy` | `Signature` | The `name(params) -> ret` signature and the `Constructor` rule. |
| `canonical.dfy` | `Canonical` | `canonicalize_description`, as a loop and as a reference definition. |
| `latex_blocks.dfy` | `LatexBlocks` | `parameters_to_latex`, `examples_to_latex`, `meta_to_latex`, `method_to_latex`. |
| `emit.dfy` | `Emit` | The body `_build` produces, for any format given by its three `_add_*` hooks. |
| `order.dfy` | `Order` | The tuple order the Dot body is sorted by, and a sort proved to give the unique sorted permutation. |
| `markdown.dfy`, `dot.dfy`, `latex.dfy` | `MarkdownFormat`, `DotFormat`, `LatexFormat` | The three formatter classes. |
| `printer.dfy` | `Printer` | model.py's printing `LatexFormatter`. |
| `wrappers.dfy` | `Wrappers` | `Option`. |

How the Python is represented:

- Each formatter is a `class`. Its `body` is a `seq` field, and its methods
  append to it as the Python `_add_*` methods do.
- The three loops of `_build` are `for` loops. Each loop is proved equal to
  the generic specification `Emit.Body`. The loops over lines or items
  (`canonicalize_description`, `parameters_to_latex`, `meta_to_latex`,
  `sub`) are methods whose results are proved equal to reference functions.
- The docstring parser is a function parameter `parse: string -> Parsed`.
- Inside the formatters, `method_to_latex` appears in the hooks as
  `render: string -> string`, which `Render(parse)` instantiates.

Three behaviours of the code a reader may not expect, which the model
keeps:

- **List items.** A list item has every `*` of its line removed, not only
  the leading one (`line.replace("*", "")`, formatters.py:282).
- **`Constructor`.** A signature collapses to `Constructor` whenever it
  starts with the sanitised `__init__`. The name does not have to be
  exactly `__init__`.
- **The `Union[..]` rewrite.** The separator before `NoneType` in the
  pattern is a no-break space (U+00A0), not an ASCII space
  (formatters.py:189-190). `Sanitize.UnionSep` is that character. A union
  written with an ASCII space is not made `Optional`.

## Model

| member | source | states |
|---|---|---|
| Descriptors.ClassDoc | formatters.py:81 | `str(clazz.obj.__doc__)`: a missing docstring becomes `None`, and a present one is itself. |
| Descriptors.Traverse | formatters.py:10-14 | The intended `traverse`: each root, then the traversal of its submodules, then the later roots. |
| Descriptors.TraverseAsWritten | formatters.py:13-14 | The traversal as written: no result once a visited module has a submodule, the roots in order otherwise. |
| Descriptors.TraverseSize | formatters.py:10-14 | The pre-order traversal visits as many modules as the forest holds. |
| Descriptors.TraverseAppend | formatters.py:10-14 | Traversing two lists of roots is traversing each in turn. |
| Descriptors.TraverseRoots | formatters.py:10-14 | Every root is yielded, followed at once by the traversal of its submodules, then the later roots. |
| Descriptors.TraverseSubmodule | formatters.py:13-14 | Every submodule of a visited module is visited too. |
| Descriptors.TraverseAsWrittenFlat | formatters.py:10-14 | The traversal as written agrees with the intended one on forests without submodules. |
| Descriptors.TraverseAsWrittenFails | formatters.py:13-14 | As written, a package with a submodule fails to traverse; the intended traversal visits both. |
| Strings.RStrip | formatters.py:282 | `str.rstrip()`: the text without its trailing whitespace (properties in RStripSpec). |
| Strings.LStrip | formatters.py:268 | `str.lstrip()`: the text without its leading whitespace (properties in LStripSpec). |
| Strings.Strip | formatters.py:268 | `str.strip()`: `lstrip`, then `rstrip`. |
| Strings.Replace | formatters.py:180-184 | `str.replace`: every occurrence, found left to right without overlaps, is replaced (properties in the Replace* lemmas). |
| Strings.Join | formatters.py:69 | `sep.join(xs)`: the pieces with the separator between each two (inverse in SplitJoin). |
| Strings.RStripSpec | formatters.py:282 | `rstrip` keeps the longest prefix not ending in whitespace and drops only whitespace. |
| Strings.LStripSpec | formatters.py:268 | `lstrip` drops only leading whitespace, up to the first non-space character. |
| Strings.BlankStrips | formatters.py:268 | A whitespace-only line strips to the empty string. |
| Strings.ReplaceAbsent | formatters.py:180-185 | `replace` leaves text lacking a character of the pattern unchanged. |
| Strings.ReplaceInside | formatters.py:180-185 | `replace` only rewrites the middle of a text whose outer parts cannot take part in a match. |
| Strings.ReplaceNotContained | formatters.py:191 | `replace` leaves text that does not contain the pattern unchanged. |
| Strings.ReplaceAroundSep | formatters.py:191 | `replace` works separately on the two sides of a character the pattern lacks, since no occurrence can include it. |
| Strings.ReplaceCharConcat | formatters.py:183-184 | Replacing a single character distributes over concatenation. |
| Strings.ReplaceCharGone | formatters.py:282 | Replacing a character by a text without it removes every occurrence, not only the first. |
| Strings.ReplaceKeepsAbsent | formatters.py:180-185 | `replace` introduces no character found in neither the text nor the replacement. |
| Strings.Split | formatters.py:267 | `split("\n")` gives at least one piece, no piece holds the separator, and joining the pieces gives the text back. |
| Strings.SplitFirst | formatters.py:267 | Splitting takes off the piece before the first separator first. |
| Strings.SplitJoin | formatters.py:69 | Splitting undoes `"\n".join` for pieces without the separator. |
| Strings.EscapeByReplace | formatters.py:183-184 | The two chained single-character replaces are one left-to-right escaping pass. |
| Strings.EscapeMarksAll | formatters.py:183-184 | After escaping, every escaped character follows a backslash. |
| Strings.EscapeIdentity | formatters.py:183-184 | Text without the escaped characters is returned unchanged. |
| Strings.EscapeDecode | formatters.py:183-184 | Escaping is uniquely decodable at the front: an escaped prefix comes from the same prefix. |
| Strings.CutFirstUnique | formatters.py:203 | The first cut at a character is the one whose front lacks it. |
| Strings.CutLastUnique | formatters.py:203 | The last cut at a character is the one whose back lacks it. |
| Sanitize.StripPrefixes | formatters.py:180-182 | The first two steps of `_sanitize`: remove `a2_support.`, then `a2_solution.`; `Sanitize.SanitizeIsEscape` and its neighbours state what follows them. |
| Sanitize.Sanitize | formatters.py:179-185 | `_sanitize`: remove `a2_support.`, then `a2_solution.`, then escape `_`, then `#` (properties in the Sanitize* lemmas). |
| Sanitize.SanitizeIsEscape | formatters.py:179-185 | `_sanitize` removes both prefixes, then makes one escaping pass over `_` and `#`. |
| Sanitize.SanitizeEscapes | formatters.py:179-185 | In sanitised text, every `_` and every `#` is preceded by a backslash. |
| Sanitize.SanitizeIdentity | formatters.py:179-185 | Text with neither `_` nor `#` is returned unchanged. |
| Sanitize.SanitizeHidesPrefixes | formatters.py:181-182 | Neither `a2_support.` nor `a2_solution.` occurs anywhere in sanitised text. |
| Sanitize.SanitizeKeepsAbsent | formatters.py:179-185 | Sanitising introduces no character except the backslash. |
| Sanitize.SanitizeInside | formatters.py:179-185 | Sanitising `x + y + z` touches only `y` when `x` and `z` cannot take part. |
| Sanitize.RewriteOptional | formatters.py:190 | The `re.sub` of `convert_type`: scan left to right, rewrite each match to `Optional[..]`, resume after it. |
| Sanitize.ConvertType | formatters.py:187-192 | `convert_type`: sanitise, apply the Optional rewrite, then shorten every `NoneType` to `None` (properties in the Convert* lemmas). |
| Sanitize.MatchOptional | formatters.py:190 | A match at the front is exactly `Union[` + a non-empty, comma-free group + `,<NBSP>NoneType]`. |
| Sanitize.MatchOptionalComplete | formatters.py:190 | Whenever the text starts with such a union, the match is found, with that group and its full length. |
| Sanitize.RewriteNoUnion | formatters.py:190 | Without a `U` the Optional rewrite changes nothing. |
| Sanitize.RewriteOptionalWhole | formatters.py:190 | `Union[T,<NBSP>NoneType]` is rewritten to `Optional[T]`. |
| Sanitize.ConvertOptional | formatters.py:187-192 | A comma-free `T` in `Union[T, NoneType]` becomes `Optional[` + sanitised `T`, with `NoneType` shortened + `]`. |
| Sanitize.ConvertOptionalPlain | formatters.py:187-192 | When `T` has no `N`, `Union[T, NoneType]` becomes exactly `Optional[_sanitize(T)]`. |
| Sanitize.ConvertPlain | formatters.py:187-192 | Text without `_`, `#` or `U` only has its `NoneType`s shortened to `None`. |
| Sanitize.ConvertNoneType | formatters.py:191 | `NoneType` becomes `None`. |
| Sanitize.RewriteNotContained | formatters.py:190 | Text that does not contain `Union[` is not rewritten. |
| Sanitize.RewriteUnionOfMany | formatters.py:190 | The Optional rewrite leaves a union of three or more members unchanged, whatever the members, as long as the first is comma-free and none holds a nested `Union[`; only a no-break space followed by middle members starting with `NoneType]` could make it fire. |
| Sanitize.SanitizeAroundSep | formatters.py:179-185 | Sanitising works separately on the two sides of a comma or a space. |
| Sanitize.SanitizeUnionOfMany | formatters.py:188 | Sanitising a union of three or more members sanitises each member in place. |
| Sanitize.ShortenUnionOfMany | formatters.py:191 | When no member mentions `NoneType`, only the final `NoneType` of a union is shortened. |
| Sanitize.ConvertUnionOfMany | formatters.py:187-192 | `Union[A, B, .., NoneType]` with three or more members is not made Optional: each member is sanitised and only the final `NoneType` becomes `None`. |
| Sanitize.ConvertUntouched | formatters.py:187-192 | Text that sanitising and the rewrite leave alone only has its `NoneType`s shortened. |
| Markup.WrapLine | formatters.py:203-205 | One greedy span rule on one line: from the first to the last delimiter, when there are two or more. |
| Markup.WrapSpans | formatters.py:203-205 | One span rule over a whole text, line by line. |
| Markup.Markup | formatters.py:202-209 | `markup`: the backtick rule, then the underscore rule, then the quote rule, then `_sanitize`. |
| Markup.WrapLineSpan | formatters.py:203-205 | On one line, a rule wraps exactly the text between the first and the last delimiter. |
| Markup.WrapLineSingle | formatters.py:203-205 | A line holding the delimiter once is not rewritten. |
| Markup.WrapSpansLines | formatters.py:203-205 | Each line is rewritten on its own, because `.*` does not cross a newline. |
| Markup.WrapSpansAbsent | formatters.py:203-205 | Text without the delimiter is left alone. |
| Markup.MarkupPlain | formatters.py:202-209 | Text without any of the markup characters comes back unchanged. |
| Markup.MarkupEscapes | formatters.py:202-209 | Whatever spans are wrapped, marked-up text holds no bare `_` or `#`: each follows a backslash. |
| Markup.MarkupCode | formatters.py:203 | A backtick span becomes `\texttt{..}`, and inner backticks stay inside it. |
| Markup.MarkupQuote | formatters.py:205 | A quoted span becomes `` `..' ``; the introduced backtick is not read as code, because that rule ran first. |
| Markup.FixedPoint | model.py:105-111 | The value `sub` settles on is one that a further substitution does not change. |
| Markup.Sub | model.py:105-111 | `sub` returns the fixed point: substituting into its result once more gives the result. |
| Signature.RawSignature | formatters.py:85-88 | The signature before the constructor rule: sanitised name, `(`, converted joined parameters, `) -> `, converted return type. |
| Signature.RenderSignature | formatters.py:85-91 | The displayed signature: sanitised name, converted parameters and return type, or `Constructor`. |
| Signature.ConstructorIff | formatters.py:85-91 | A signature is `Constructor` exactly when the method name, without the internal prefixes, starts with `__init__`. |
| Signature.MarkIff | formatters.py:86-90 | The sanitised name followed by `(` starts with the mark exactly when the name starts with `__init__`. |
| Canonical.Grouped | formatters.py:271-285 | The grouping of the lines before the first section marker: paragraphs, list items, prose. |
| Canonical.CanonicalText | formatters.py:262-288 | The reference text `canonicalize_description` builds: the grouped lines before the first section marker, then the rest verbatim. |
| Canonical.FirstStopIsFirst | formatters.py:267-269 | The first section marker is one, and no line before it is. |
| Canonical.CanonicalizeDescription | formatters.py:262-288 | The loop's result is the grouped part before the first section marker, followed by the marker and every later line, verbatim. |
| Canonical.RunVerbatim | formatters.py:286-287 | Once grouping has stopped, every line is copied and followed by a newline. |
| Canonical.RunCanonical | formatters.py:264-288 | From grouping mode, the loop appends the grouped earlier lines and then the verbatim later lines. |
| Canonical.RunGroupFlag | formatters.py:268-269 | The loop ends in grouping mode exactly when no line is a section marker. |
| Canonical.StopSuffix | formatters.py:263-269 | Every section marker line is followed in the output by itself and all later lines, each with a newline, unchanged. |
| Canonical.NoStopAllGrouped | formatters.py:263-285 | Without a section marker, the whole docstring is grouped. |
| Canonical.GroupedAppend | formatters.py:271-285 | Grouping two runs of lines is grouping each, carrying the open-list flag. |
| Canonical.BulletsInList | formatters.py:278-283 | Inside an open list, each bullet adds one item, in order. |
| Canonical.BulletRun | formatters.py:278-283 | A run of bullets outside a list opens exactly one list and adds one item per bullet. |
| Canonical.BulletRunClosed | formatters.py:272-276 | An empty line after a bullet run closes the list, then ends the paragraph. |
| Canonical.BulletRunUnclosed | formatters.py:278-283 | A list still open when the grouped lines run out is never closed. |
| Canonical.ItemNoStar | formatters.py:282 | No `*` survives in an item, not only the leading one. |
| Canonical.ProseRun | formatters.py:285 | Each prose line adds a space and the line without trailing whitespace, and leaves the list flag unchanged. |
| Canonical.WhitespaceLine | formatters.py:272-285 | A whitespace-only line is not the empty line: it adds a single space instead of ending the paragraph. |
| LatexBlocks.ParamsLatex | formatters.py:211-220 | The parameter block `parameters_to_latex` returns, as a function. |
| LatexBlocks.EscapeBraces | formatters.py:225-226 | The two brace substitutions of `examples_to_latex`: `{` to `\{`, then `}` to `\}`; `LatexBlocks.EscapeBracesMarks` proves this escapes every brace. |
| LatexBlocks.ExampleText | formatters.py:225-227 | The example description with its braces escaped and its quote span rewritten. |
| LatexBlocks.ExamplesLatex | formatters.py:222-230 | `examples_to_latex`: the heading, the example environment and the rewritten description. |
| LatexBlocks.MetasLatex | formatters.py:233-238 | The text `meta_to_latex` returns, as a function. |
| LatexBlocks.Description | formatters.py:246-249 | The short description, followed by an empty line and the long one when there is one. |
| LatexBlocks.MethodLatex | formatters.py:241-259 | The text `method_to_latex` returns for a docstring, given the parser. |
| LatexBlocks.ParametersToLatex | formatters.py:211-220 | The loop returns nothing for no parameters, else the itemize environment with one item per parameter. |
| LatexBlocks.ParamItemsAppend | formatters.py:216-217 | The items of two parameter lists are the items of each, in order. |
| LatexBlocks.ParamsLatexLines | formatters.py:211-220 | Read by lines, a block is `\begin{itemize}`, one item line per parameter in order, `\end{itemize}`, then an empty last piece. |
| LatexBlocks.ItemsSplit | formatters.py:216-217 | Splitting the items gives one line per parameter, in order. |
| LatexBlocks.ParamsMarkupPlain | formatters.py:253 | Parameters free of markup characters give a block that `markup` leaves unchanged. |
| LatexBlocks.EscapeBracesMarks | formatters.py:225-226 | Escaping the braces is one escaping pass, and afterwards every brace follows a backslash. |
| LatexBlocks.ExampleTextNoQuote | formatters.py:225-227 | Without a quote, the example text is only brace-escaped. |
| LatexBlocks.ExampleTextQuote | formatters.py:225-227 | On one line, the first-to-last quote span is put between upright quote signs, and the braces are escaped before. |
| LatexBlocks.EscapeQuoted | formatters.py:225-226 | Escaping the braces leaves the quotes of a quoted span in place. |
| LatexBlocks.MetaToLatex | formatters.py:233-238 | The loop returns the rendering of the meta list. |
| LatexBlocks.ExampleMetas | formatters.py:236 | The chosen sections are exactly those whose keywords include `examples`. |
| LatexBlocks.MetasLatexFilter | formatters.py:233-238 | `meta_to_latex` renders exactly the examples sections, in order, and nothing for the others. |
| LatexBlocks.MetasLatexNone | formatters.py:233-238 | Without an examples section, nothing is rendered. |
| LatexBlocks.MethodToLatex | formatters.py:241-259 | The method returns `method_to_latex`'s text for the parse of the canonical docstring. |
| LatexBlocks.MethodLatexStartsWithDescription | formatters.py:246-252 | The text opens with the marked-up description and a newline, before any parameter or example. |
| LatexBlocks.MethodLatexEndsWithExamples | formatters.py:250-257 | The text ends with the examples as rendered, without markup. |
| LatexBlocks.MethodLatexPlain | formatters.py:246-257 | A plain description with neither parameters nor examples is followed by exactly three newlines. |
| Emit.Body | formatters.py:45-54 | The fragments `_build` appends, for a format given by its three `_add_*` hooks. |
| Emit.BodyAppend | formatters.py:45-54 | Building for two lists of roots is building for each in turn. |
| Emit.BodyIgnoresMarkers | formatters.py:45-54 | A format whose marker hook adds nothing builds the same body whatever the marker table. |
| Emit.BodyAll | formatters.py:45-54 | A property that every fragment of every hook has, every fragment of the body has. |
| Emit.MethodsOutLength | formatters.py:52-54 | Methods that each add `n` fragments add `n` per method. |
| Emit.SingleClass | formatters.py:45-54 | A single module with one class gives that class's marker, class and method fragments. |
| Emit.SoleMethod | formatters.py:45-54 | Without markers, one class with one method gives the class's fragments, then the method's. |
| MarkdownFormat.MarkdownClass | formatters.py:74-82 | The fragments Markdown `_add_class` appends. |
| MarkdownFormat.MarkdownMethod | formatters.py:84-95 | The fragments Markdown `_add_method` appends. |
| MarkdownFormat.MarkdownBody | formatters.py:45-54 | The fragments the Markdown `_build` appends: `Emit.Body` with the Markdown hooks. |
| MarkdownFormat.MarkdownFormatter.constructor | formatters.py:21-30 | A new formatter holds the modules and the marker table, and its body is empty. |
| MarkdownFormat.MarkdownFormatter.Export | formatters.py:31-39 | After `export`, the body is exactly what `_build` produces from an empty body, and the output is the body joined with newlines. |
| MarkdownFormat.MarkdownFormatter.Clear | formatters.py:38-39 | The body is emptied. |
| MarkdownFormat.MarkdownFormatter.Format | formatters.py:68-69 | The output is the body joined with newlines. |
| MarkdownFormat.MarkdownFormatter.AddMarker | formatters.py:71-72 | Appends nothing: the method changes no state. |
| MarkdownFormat.MarkdownFormatter.AddClass | formatters.py:74-82 | Appends the heading, the first ancestor when there is one, and the docstring. |
| MarkdownFormat.MarkdownFormatter.AddMethod | formatters.py:84-95 | Appends the signature heading, the raw docstring and a line-break fragment. |
| MarkdownFormat.MarkdownFormatter.Build | formatters.py:45-54 | Appends, in pre-order and declared order, each class's fragments, then those of its own methods. |
| MarkdownFormat.MarkdownFormatter.BuildModule | formatters.py:47-54 | One module: the output of each of its classes in declared order is appended. |
| MarkdownFormat.MarkdownFormatter.BuildClass | formatters.py:48-54 | One class: the marker, if any (none for Markdown), the class, then its methods in order. |
| MarkdownFormat.MarkdownMethodShape | formatters.py:84-95 | A method adds three fragments; the heading reads `` ## `Constructor` `` exactly for `__init__` names. |
| MarkdownFormat.MarkdownClassShape | formatters.py:74-82 | A class adds two or three fragments, starting with `# name` and ending with its docstring, `None` when absent. |
| MarkdownFormat.MarkdownIgnoresMarkers | formatters.py:71-72 | The marker table makes no difference to the Markdown output. |
| MarkdownFormat.MarkdownSingleClass | formatters.py:45-54 | A class alone in a module takes its own fragments plus three per method. |
| DotFormat.DotClass | formatters.py:128-135 | The tagged fragments Dot `_add_class` appends. |
| DotFormat.RankGroup | formatters.py:109-110 | The rank line: `{ rank=same; ` and the quoted names of the rank fragments. |
| DotFormat.DotText | formatters.py:104-112 | The text Dot `_format` returns for a sorted body: the header, the box and arrow lines, the rank line, `}`. |
| DotFormat.OfCode | formatters.py:107-109 | The fragments of one kind all have that code and come from the list. |
| DotFormat.DotBody | formatters.py:114-123 | The tagged fragments the Dot `_build` appends: `Emit.Body` with the Dot hooks. |
| DotFormat.DotFormatter.constructor | formatters.py:21-30 | A new formatter holds the modules and the marker table, and its body is empty. |
| DotFormat.DotFormatter.Clear | formatters.py:38-39 | The body is emptied. |
| DotFormat.DotFormatter.Export | formatters.py:31-39 | The body is left as the sorted build, and the output is the text read from it. |
| DotFormat.DotFormatter.Format | formatters.py:103-112 | The body is sorted in place, and the text is read from the sorted list, which is the same object. |
| DotFormat.DotFormatter.AddMarker | formatters.py:125-126 | Appends nothing: the method changes no state. |
| DotFormat.DotFormatter.AddMethod | formatters.py:137-138 | Appends nothing: the method changes no state. |
| DotFormat.DotFormatter.AddClass | formatters.py:128-135 | Appends a box, then an arrow to the first ancestor, or the name to the rank group when there is none. |
| DotFormat.DotFormatter.Build | formatters.py:114-122 | Appends the fragments of every class in pre-order and declared order. |
| DotFormat.DotFormatter.BuildModule | formatters.py:116-123 | One module: the fragments of each of its classes in declared order are appended. |
| DotFormat.DotFormatter.BuildClass | formatters.py:117-123 | One class: the fragments of its marker, the class and its methods in order; for Dot only the class adds any. |
| DotFormat.DotClassKinds | formatters.py:128-135 | Each class adds exactly one box, an arrow exactly when it has an ancestor, and a rank entry otherwise. |
| DotFormat.DotIgnoresMarkers | formatters.py:125-126 | The marker table makes no difference to the diagram. |
| DotFormat.DotBodyCodes | formatters.py:99-101 | Every built fragment has one of the three kind codes. |
| DotFormat.OfCodePermutation | formatters.py:106 | Sorting keeps the fragments of each kind, with their multiplicities. |
| DotFormat.OfCodeSorted | formatters.py:106-109 | The fragments of one kind of a sorted list are sorted. |
| DotFormat.SortedGroups | formatters.py:106-107 | In a sorted list, the non-rank fragments are all boxes, then all arrows. |
| DotFormat.DotLayout | formatters.py:103-112 | After the sort: boxes, then arrows, then rank names; each group ascending and holding exactly the fragments of its kind that were built. |
| DotFormat.DotTextFrame | formatters.py:104-112 | The diagram starts with the fixed `digraph "classes"` header and ends with the rank line of the sorted body's rank names, then `}`. |
| Order.StrLtTotal | formatters.py:106 | Python string order is total. |
| Order.StrLtTransitive | formatters.py:106 | Python string order is transitive. |
| Order.FragLeAntisymmetric | formatters.py:106 | The tuple order on (code, message) is antisymmetric. |
| Order.SortFragsSorted | formatters.py:106 | The sort returns a sorted list. |
| Order.SortFrags | formatters.py:106 | The sort returns a permutation of its input. |
| Order.SortedUnique | formatters.py:106 | Two sorted permutations of the same fragments are equal, so any correct sort gives the same list. |
| Order.SortFragsUnique | formatters.py:106 | The sort gives the one sorted permutation. |
| LatexFormat.LatexMarker | formatters.py:145-149 | The fragments LaTeX `_add_marker` appends, given the title. |
| LatexFormat.LatexClass | formatters.py:151-160 | The fragments LaTeX `_add_class` appends. |
| LatexFormat.LatexMethod | formatters.py:162-174 | The fragments LaTeX `_add_method` appends. |
| LatexFormat.LatexBody | formatters.py:45-54 | The fragments the LaTeX `_build` appends: `Emit.Body` with the LaTeX hooks, `method_to_latex` rendering the docstrings. |
| LatexFormat.LatexFormatter.constructor | formatters.py:21-30 | A new formatter holds the modules, the marker table and the parser, and its body is empty. |
| LatexFormat.LatexFormatter.Export | formatters.py:31-39 | After `export`, the body is the LaTeX build from an empty body, and the output is the body joined with newlines. |
| LatexFormat.LatexFormatter.Clear | formatters.py:38-39 | The body is emptied. |
| LatexFormat.LatexFormatter.Format | formatters.py:142-143 | The output is the body joined with newlines. |
| LatexFormat.LatexFormatter.AddMarker | formatters.py:145-149 | Appends four fragments, with the marker's title from the table in the subsection. |
| LatexFormat.LatexFormatter.AddClass | formatters.py:151-160 | Appends the class lines, the first ancestor marked up when there is one, then the rendered docstring. |
| LatexFormat.LatexFormatter.AddMethod | formatters.py:162-174 | Appends the spacing line, the name line, the rendered docstring and a line-break fragment. |
| LatexFormat.LatexFormatter.Build | formatters.py:45-54 | Appends, in pre-order and declared order, each marked class's subsection, the class, then its own methods. |
| LatexFormat.LatexFormatter.BuildModule | formatters.py:47-54 | One module: the fragments of each of its classes in declared order are appended. |
| LatexFormat.LatexFormatter.BuildClass | formatters.py:48-54 | One class: the subsection when its name is a key of the table, the class, then its methods. |
| LatexFormat.LatexFormatter.BuildMethods | formatters.py:52-54 | The fragments of each of a class's own methods, in declared order, are appended. |
| LatexFormat.LatexMarkerShape | formatters.py:145-149 | A marker adds four fragments, the second the subsection holding the title. |
| LatexFormat.LatexMethodShape | formatters.py:162-174 | A method adds four fragments; the name line reads `Constructor` exactly for `__init__` names; the docstring block is third. |
| LatexFormat.RenderEndsWithExamples | formatters.py:173 | A rendered docstring ends with its examples. |
| LatexFormat.NameLineIff | formatters.py:172 | Name lines agree exactly when the signatures do. |
| LatexFormat.LatexClassShape | formatters.py:151-160 | A class adds three or four fragments; the last is the docstring block, rendered from `None` when absent. |
| LatexFormat.LatexSingleClass | formatters.py:45-54 | A class alone leads with its subsection exactly when marked, and takes four fragments per method. |
| LatexFormat.LatexMarkerTitles | formatters.py:145-149 | With the same keys, two marker tables give bodies equal everywhere except the subsection line. |
| Printer.PrintMarker | model.py:52-56 | The lines `format_marker` prints. |
| Printer.PrintClass | model.py:58-72 | The lines `format_class` prints as written, its methods included. |
| Printer.PrintMethod | model.py:74-87 | The lines `format_method` prints. |
| Printer.PrintedAsWritten | model.py:30-72 | What `export` prints as written. |
| Printer.PrintedOnce | model.py:30-72 | What `export` evidently means to print: each method once. |
| Printer.LatexPrinter.constructor | model.py:21-28 | A new printer holds the modules, the marker table and the parser, and has printed nothing. |
| Printer.LatexPrinter.FormatMarker | model.py:52-56 | Prints the spacing, the subsection with the title, an empty line, and the spacing. |
| Printer.LatexPrinter.FormatClass | model.py:58-72 | Prints the class's lines and rendered docstring, then each of its own methods. |
| Printer.LatexPrinter.FormatMethod | model.py:74-87 | Prints the spacing, the name line, the rendered docstring and an empty line. |
| Printer.LatexPrinter.FormatMethods | model.py:70-72 | Each of a class's own methods is printed through `format_method`, in declared order. |
| Printer.LatexPrinter.ExportModule | model.py:32-39 | One module: each of its classes is printed through the as-written class step, in declared order. |
| Printer.LatexPrinter.Export | model.py:30-39 | Prints, for every class in pre-order, its subsection if marked, `format_class`, then its methods again. |
| Printer.LatexPrinter.ExportClass | model.py:32-39 | One class: marker, `format_class`, then its own methods once more. |
| Printer.ClassPrintedTwice | model.py:30-72 | As written, a class's output is the intended output followed by its methods' blocks a second time. |
| Printer.PrintedTwiceExample | model.py:30-72 | A class with one method prints that method's block twice as written, once as intended. |
| Printer.PrintedLength | model.py:30-39 | A class alone takes four lines per method as intended, and eight as written. |
| Printer.PrintedOnceMatchesBody | model.py:30-87 | The intended printed output is, line for line, formatters.py's LaTeX body, with an empty line for each line-break fragment. |

## Left out

- pdoc introspection is not modelled: modules, `classes()`, `methods()`,
  `mro()`, `params()`, `return_annotation()` and `obj.__doc__`. The
  formatters read `Descriptors` records instead. Ancestors are what pdoc's
  `Class.mro()` returns: the method-resolution order without the class
  itself and without `object`. A class whose only base is `object` has
  none, so it is a Dot rank entry and has no "Inherits from" line. Parameters are the
  already annotated strings.
- `docstring_parser.parse` is a function parameter. Every parse is taken
  to have a short description, so the crash of `markup(None)` when there is
  none is not modelled.
- Writing the output file and `print` are not modelled. `export` returns the
  text `_format` produces, and the printer's output is the sequence of
  printed lines.
- The lazy_docs.py command-line driver is not modelled. It is argument
  parsing and directory checks.
- Python's regular-expression engine is not modelled. Each fixed pattern is a
  hand-written function:
  - the `Union[..]` rewrite;
  - the three greedy span rules of `markup`;
  - the brace and quote substitutions of `examples_to_latex`.
- Sub: the loop takes the substitution step as a parameter `step`, with a
  ghost measure `rank` that every effective step lowers. No particular
  pattern is instantiated, and a pattern that never settles (where Python
  loops forever) is excluded by that requirement.
- DotFormat.DotFormatter.Format: `list.sort` is CPython's built-in Timsort.
  The model sorts with an insertion-sort function and proves that a sorted
  permutation is unique. Any correct sort therefore leaves the same list.
- LatexFormat.LatexFormatter.AddClass and
  Printer.LatexPrinter.FormatClass: the class lines are gathered first and
  appended, or printed, in one step, with the same result.
- LatexFormat.LatexFormatter.AddMethod and
  Printer.LatexPrinter.FormatMethod: one append, or print sequence, of four
  lines instead of four appends or prints.
- LatexFormat.LatexFormatter.AddMarker and
  Printer.LatexPrinter.FormatMarker: require that the name is a key of the
  marker table, because `_build` only calls them then. Python would raise
  `KeyError` otherwise.
- Sanitize.ConvertUnionOfMany: stated for unions whose members, once
  sanitised, hold neither a nested `Union[` nor a `NoneType` of their own. A
  member's own `NoneType` is shortened too, and a nested two-member union is
  itself made `Optional`. Those cases follow from `Replace` and
  `RewriteOptional` but are not stated as lemmas.
- Sanitize.RewriteUnionOfMany: stated for members without a nested `Union[`,
  for the same reason.
- The duplicate helpers of model.py (`_sanitize`, `convert_type`, `sub`,
  `markup`, `parameters_to_latex`, `examples_to_latex`, `meta_to_latex`,
  `method_to_latex`, `canonicalize_description`) are identical to those of
  formatters.py. They share one model.
- Descriptors.Traverse: the intended pre-order over an explicit module tree.
  The call shape of `traverse(submod)` is noted under Findings.

## Findings

| source | as written | input that shows it | evidently intended | confidence | as-written member | corrected member |
|---|---|---|---|---|---|---|
| model.py:36-39, 70-72 | `format_class` prints the class's own methods, and `export` then prints them again | one class with one method: its method block is printed twice | each method block printed once, as formatters.py's `_build` does | not executed | Printer.ClassPrintedTwice, Printer.PrintedTwiceExample | Printer.PrintedOnceMatchesBody |
| formatters.py:13-14 | `traverse(submod)` passes a single module where an iterable of modules is expected | a root module with one submodule: iterating the submodule fails | `traverse(mod.submodules())`, a pre-order over the whole tree | not executed | Descriptors.TraverseAsWrittenFails | Descriptors.TraverseSubmodule |
