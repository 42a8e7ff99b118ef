/** The older, printing `LatexFormatter` (model.py): the same LaTeX lines as
    `LatexFormatter` in formatters.py, written to standard output one
    `print` at a time instead of collected in a body. `output` is the
    sequence of printed lines; `print()` prints the empty line.

    `format_class` prints the class's own methods after its docstring, and
    `export` then prints them once more, so every method block appears twice
    as written. `PrintedOnce` is the evidently intended output. */
module Printer {
  import opened Descriptors
  import opened Emit
  import opened Signature
  import opened LatexBlocks
  import opened LatexFormat
  import Markup

  /** `format_marker`, given the marker's title. */
  function PrintMarker(title: string): seq<string> {
    ["\\vspace{10mm}", "\\subsection{" + title + "}", "", "\\vspace{-12mm}"]
  }

  /** `format_method`, with `render` standing for `method_to_latex`. */
  function PrintMethod(m: MethodDesc, render: string -> string): seq<string> {
    ["\\vspace{8mm}", NameLine(RenderSignature(m)), render(m.docstring), ""]
  }

  function PrintMethodHook(render: string -> string): MethodDesc -> seq<string> {
    m => PrintMethod(m, render)
  }

  /** `format_class` as written: the class's lines, then its own methods. */
  function PrintClass(c: ClassDesc, render: string -> string): seq<string> {
    LatexClass(c, render) + MethodsOut(c.methods, PrintMethodHook(render))
  }

  function PrintClassHook(render: string -> string): ClassDesc -> seq<string> {
    c => PrintClass(c, render)
  }

  /** What `export` prints as written: each class through `format_class`,
      which prints its methods, followed by its methods again. */
  function PrintedAsWritten(roots: seq<ModuleDesc>, markers: map<string, string>, parse: string -> Parsed): seq<string> {
    Body(roots, markers, PrintMarker, PrintClassHook(Render(parse)), PrintMethodHook(Render(parse)))
  }

  /** What `export` evidently means to print: each class's lines followed by
      its methods once. */
  function PrintedOnce(roots: seq<ModuleDesc>, markers: map<string, string>, parse: string -> Parsed): seq<string> {
    Body(roots, markers, PrintMarker, LatexClassHook(Render(parse)), PrintMethodHook(Render(parse)))
  }

  class LatexPrinter {
    const modules: seq<ModuleDesc>
    const markers: map<string, string>
    const parse: string -> Parsed
    var output: seq<string>

    constructor(modules: seq<ModuleDesc>, markers: map<string, string>, parse: string -> Parsed)
      ensures this.modules == modules && this.markers == markers && this.parse == parse && output == []
    {
      this.modules := modules;
      this.markers := markers;
      this.parse := parse;
      output := [];
    }

    /** `format_marker`: the title is looked up in the marker table. */
    method FormatMarker(name: string)
      requires name in markers
      modifies this
      ensures output == old(output) + PrintMarker(markers[name])
    {
      output := output + ["\\vspace{10mm}"];
      output := output + ["\\subsection{" + markers[name] + "}"];
      output := output + [""];
      output := output + ["\\vspace{-12mm}"];
    }

    /** `format_class`: the class's lines, then each of its own methods
        through `format_method`. */
    method FormatClass(c: ClassDesc)
      modifies this
      ensures output == old(output) + PrintClass(c, Render(parse))
    {
      var head := ["\\vspace{15mm}", "\\classname{" + c.name + "}\\vspace{3mm}\\newline"];
      var superclasses := c.ancestors;
      if |superclasses| > 0 {
        head := head + ["\\textbf{Inherits from " + Markup.Markup(superclasses[0]) + "}\\newline"];
      }
      assert head == ClassHead(c);
      var classDoc := ClassDoc(c);
      var latex := MethodToLatex(classDoc, parse);
      RenderIs(parse, classDoc, latex);
      LatexClassIs(c, Render(parse), head, latex);
      output := output + (head + [latex]);
      FormatMethods(c.methods);
      SeqAssoc(old(output), LatexClass(c, Render(parse)), MethodsOut(c.methods, PrintMethodHook(Render(parse))));
    }

    /** `format_method`. */
    method FormatMethod(m: MethodDesc)
      modifies this
      ensures output == old(output) + PrintMethod(m, Render(parse))
    {
      var signature := RenderSignature(m);
      var latex := MethodToLatex(m.docstring, parse);
      RenderIs(parse, m.docstring, latex);
      output := output + ["\\vspace{8mm}", "\\methodname{" + signature + "}\\vspace{2mm}\\newline", latex, ""];
    }

    /** Each method in declared order through `format_method`. */
    method FormatMethods(methods: seq<MethodDesc>)
      modifies this
      ensures output == old(output) + MethodsOut(methods, PrintMethodHook(Render(parse)))
    {
      var meth := PrintMethodHook(Render(parse));
      for k := 0 to |methods|
        invariant output == old(output) + MethodsOut(methods[..k], meth)
      {
        MethodsOutStep(methods, k, meth);
        SeqAssoc(old(output), MethodsOut(methods[..k], meth), PrintMethod(methods[k], Render(parse)));
        FormatMethod(methods[k]);
      }
      assert methods[..|methods|] == methods;
    }

    /** `export` as written. */
    method Export()
      modifies this
      ensures output == old(output) + PrintedAsWritten(modules, markers, parse)
    {
      var mods := Traverse(modules);
      var cls, meth := PrintClassHook(Render(parse)), PrintMethodHook(Render(parse));
      for i := 0 to |mods|
        invariant output == old(output) + ModulesOut(mods[..i], markers, PrintMarker, cls, meth)
      {
        ModulesOutStep(mods, i, markers, PrintMarker, cls, meth);
        SeqAssoc(old(output), ModulesOut(mods[..i], markers, PrintMarker, cls, meth),
          ClassesOut(mods[i].classes, markers, PrintMarker, cls, meth));
        ExportModule(mods[i]);
      }
      assert mods[..|mods|] == mods;
    }

    /** One module in `export`: its classes in declared order. */
    method ExportModule(m: ModuleDesc)
      modifies this
      ensures output == old(output) + ClassesOut(m.classes, markers, PrintMarker, PrintClassHook(Render(parse)), PrintMethodHook(Render(parse)))
    {
      var classes := m.classes;
      var cls, meth := PrintClassHook(Render(parse)), PrintMethodHook(Render(parse));
      for j := 0 to |classes|
        invariant output == old(output) + ClassesOut(classes[..j], markers, PrintMarker, cls, meth)
      {
        ClassesOutStep(classes, j, markers, PrintMarker, cls, meth);
        SeqAssoc(old(output), ClassesOut(classes[..j], markers, PrintMarker, cls, meth),
          ClassOut(classes[j], markers, PrintMarker, cls, meth));
        ExportClass(classes[j]);
      }
      assert classes[..|classes|] == classes;
    }

    /** One class in `export`: its marker when its name is a key,
        `format_class`, then its own methods once more. */
    method ExportClass(c: ClassDesc)
      modifies this
      ensures output == old(output) + ClassOut(c, markers, PrintMarker, PrintClassHook(Render(parse)), PrintMethodHook(Render(parse)))
    {
      if c.name in markers {
        FormatMarker(c.name);
      }
      ghost var marked := output;
      assert marked == old(output) + MarkerOut(c, markers, PrintMarker);
      FormatClass(c);
      ghost var start := output;
      FormatMethods(c.methods);
      PrintClassOutParts(c, markers, Render(parse));
      AppendThree(old(output), MarkerOut(c, markers, PrintMarker), PrintClass(c, Render(parse)),
        MethodsOut(c.methods, PrintMethodHook(Render(parse))), marked, start, output);
    }
  }

  lemma PrintClassOutParts(c: ClassDesc, markers: map<string, string>, render: string -> string)
    ensures ClassOut(c, markers, PrintMarker, PrintClassHook(render), PrintMethodHook(render))
         == MarkerOut(c, markers, PrintMarker) + PrintClass(c, render) + MethodsOut(c.methods, PrintMethodHook(render))
  {
  }

  lemma OnceClassOutParts(c: ClassDesc, markers: map<string, string>, render: string -> string)
    ensures ClassOut(c, markers, PrintMarker, LatexClassHook(render), PrintMethodHook(render))
         == MarkerOut(c, markers, PrintMarker) + LatexClass(c, render) + MethodsOut(c.methods, PrintMethodHook(render))
  {
  }

  // ---------------------------------------------------------------------
  // Properties

  /** As written, a class prints its lines followed by its methods' blocks
      twice over; the intended output has them once. */
  lemma ClassPrintedTwice(c: ClassDesc, markers: map<string, string>, render: string -> string)
    ensures ClassOut(c, markers, PrintMarker, PrintClassHook(render), PrintMethodHook(render))
         == ClassOut(c, markers, PrintMarker, LatexClassHook(render), PrintMethodHook(render))
            + MethodsOut(c.methods, PrintMethodHook(render))
  {
    PrintClassOutParts(c, markers, render);
    OnceClassOutParts(c, markers, render);
    SeqAssoc(MarkerOut(c, markers, PrintMarker), LatexClass(c, render), MethodsOut(c.methods, PrintMethodHook(render)));
  }

  /** A class alone in a module with a single method: as written the method
      block is printed twice, while the intended output prints it once. */
  lemma PrintedTwiceExample(c: ClassDesc, parse: string -> Parsed)
    requires |c.methods| == 1
    ensures var m := c.methods[0];
      PrintedAsWritten([ModuleDesc([c], [])], map[], parse)
        == LatexClass(c, Render(parse)) + PrintMethod(m, Render(parse)) + PrintMethod(m, Render(parse))
      && PrintedOnce([ModuleDesc([c], [])], map[], parse) == LatexClass(c, Render(parse)) + PrintMethod(m, Render(parse))
  {
    SingleMethod(c, Render(parse));
  }

  lemma SingleMethod(c: ClassDesc, render: string -> string)
    requires |c.methods| == 1
    ensures var m := c.methods[0];
      Body([ModuleDesc([c], [])], map[], PrintMarker, PrintClassHook(render), PrintMethodHook(render))
        == LatexClass(c, render) + PrintMethod(m, render) + PrintMethod(m, render)
      && Body([ModuleDesc([c], [])], map[], PrintMarker, LatexClassHook(render), PrintMethodHook(render))
        == LatexClass(c, render) + PrintMethod(m, render)
  {
    var meth := PrintMethodHook(render);
    SoleMethod(c, PrintMarker, PrintClassHook(render), meth);
    SoleMethod(c, PrintMarker, LatexClassHook(render), meth);
    MethodsOutSingle(c.methods, meth);
  }

  /** In the intended output a class documented alone takes its subsection
      (when marked), its own lines and four lines per method; as written the
      methods take eight. */
  lemma PrintedLength(c: ClassDesc, markers: map<string, string>, parse: string -> Parsed)
    ensures |PrintedOnce([ModuleDesc([c], [])], markers, parse)|
         == (if c.name in markers then 4 else 0) + |LatexClass(c, Render(parse))| + 4 * |c.methods|
    ensures |PrintedAsWritten([ModuleDesc([c], [])], markers, parse)|
         == (if c.name in markers then 4 else 0) + |LatexClass(c, Render(parse))| + 8 * |c.methods|
  {
    var render := Render(parse);
    SingleClass(c, markers, PrintMarker, LatexClassHook(render), PrintMethodHook(render));
    SingleClass(c, markers, PrintMarker, PrintClassHook(render), PrintMethodHook(render));
    ClassPrintedTwice(c, markers, render);
    OnceClassOutParts(c, markers, render);
    MethodsOutLength(c.methods, PrintMethodHook(render), 4);
  }

  /** Line for line, a printed line is the body's fragment, or the empty
      line where the body holds a line-break fragment. */
  predicate Matches(printed: seq<string>, body: seq<string>) {
    |printed| == |body|
    && forall i :: 0 <= i < |printed| ==> printed[i] == body[i] || (printed[i] == "" && body[i] == "\n")
  }

  lemma MatchesAppend(p1: seq<string>, b1: seq<string>, p2: seq<string>, b2: seq<string>)
    requires Matches(p1, b1) && Matches(p2, b2)
    ensures Matches(p1 + p2, b1 + b2)
  {
    forall i | |p1| <= i < |p1 + p2|
      ensures (p1 + p2)[i] == (b1 + b2)[i] || ((p1 + p2)[i] == "" && (b1 + b2)[i] == "\n")
    {
      assert (p1 + p2)[i] == p2[i - |p1|] && (b1 + b2)[i] == b2[i - |p1|];
    }
  }

  lemma {:induction false} MethodsMatch(ms: seq<MethodDesc>, render: string -> string)
    ensures Matches(MethodsOut(ms, PrintMethodHook(render)), MethodsOut(ms, LatexMethodHook(render)))
    decreases |ms|
  {
    if ms != [] {
      var m := ms[|ms| - 1];
      MethodsMatch(ms[..|ms| - 1], render);
      assert Matches(PrintMethod(m, render), LatexMethod(m, render));
      MatchesAppend(MethodsOut(ms[..|ms| - 1], PrintMethodHook(render)), MethodsOut(ms[..|ms| - 1], LatexMethodHook(render)),
        PrintMethod(m, render), LatexMethod(m, render));
    }
  }

  lemma ClassMatches(c: ClassDesc, markers: map<string, string>, render: string -> string)
    ensures Matches(ClassOut(c, markers, PrintMarker, LatexClassHook(render), PrintMethodHook(render)),
                    ClassOut(c, markers, LatexMarker, LatexClassHook(render), LatexMethodHook(render)))
  {
    OnceClassOutParts(c, markers, render);
    ClassOutParts(c, markers, render);
    var p, b := MarkerOut(c, markers, PrintMarker), MarkerOut(c, markers, LatexMarker);
    assert Matches(p, b);
    var l := LatexClass(c, render);
    assert Matches(l, l);
    MethodsMatch(c.methods, render);
    MatchesAppend(p, b, l, l);
    MatchesAppend(p + l, b + l, MethodsOut(c.methods, PrintMethodHook(render)), MethodsOut(c.methods, LatexMethodHook(render)));
  }

  lemma {:induction false} ClassesMatch(cs: seq<ClassDesc>, markers: map<string, string>, render: string -> string)
    ensures Matches(ClassesOut(cs, markers, PrintMarker, LatexClassHook(render), PrintMethodHook(render)),
                    ClassesOut(cs, markers, LatexMarker, LatexClassHook(render), LatexMethodHook(render)))
    decreases |cs|
  {
    if cs != [] {
      var c := cs[|cs| - 1];
      ClassesMatch(cs[..|cs| - 1], markers, render);
      ClassMatches(c, markers, render);
      MatchesAppend(ClassesOut(cs[..|cs| - 1], markers, PrintMarker, LatexClassHook(render), PrintMethodHook(render)),
        ClassesOut(cs[..|cs| - 1], markers, LatexMarker, LatexClassHook(render), LatexMethodHook(render)),
        ClassOut(c, markers, PrintMarker, LatexClassHook(render), PrintMethodHook(render)),
        ClassOut(c, markers, LatexMarker, LatexClassHook(render), LatexMethodHook(render)));
    }
  }

  lemma {:induction false} ModulesMatch(mods: seq<ModuleDesc>, markers: map<string, string>, render: string -> string)
    ensures Matches(ModulesOut(mods, markers, PrintMarker, LatexClassHook(render), PrintMethodHook(render)),
                    ModulesOut(mods, markers, LatexMarker, LatexClassHook(render), LatexMethodHook(render)))
    decreases |mods|
  {
    if mods != [] {
      var cs := mods[|mods| - 1].classes;
      ModulesMatch(mods[..|mods| - 1], markers, render);
      ClassesMatch(cs, markers, render);
      MatchesAppend(ModulesOut(mods[..|mods| - 1], markers, PrintMarker, LatexClassHook(render), PrintMethodHook(render)),
        ModulesOut(mods[..|mods| - 1], markers, LatexMarker, LatexClassHook(render), LatexMethodHook(render)),
        ClassesOut(cs, markers, PrintMarker, LatexClassHook(render), PrintMethodHook(render)),
        ClassesOut(cs, markers, LatexMarker, LatexClassHook(render), LatexMethodHook(render)));
    }
  }

  /** The intended output prints, line for line, what formatters.py's
      `LatexFormatter` builds, with an empty line for each line-break
      fragment. */
  lemma PrintedOnceMatchesBody(roots: seq<ModuleDesc>, markers: map<string, string>, parse: string -> Parsed)
    ensures Matches(PrintedOnce(roots, markers, parse), LatexBody(roots, markers, parse))
  {
    ModulesMatch(Traverse(roots), markers, Render(parse));
  }
}
