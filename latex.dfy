/** `LatexFormatter` (formatters.py): a subsection for each marked class,
    then per class its name, its first ancestor and its docstring rendered by
    `method_to_latex`, then per method its signature and its docstring
    rendered the same way. The output joins the fragments with newlines.
    `parse` stands for the docstring parser. */
module LatexFormat {
  import opened Strings
  import opened Descriptors
  import opened Emit
  import opened Signature
  import opened LatexBlocks
  import Markup
  import Sanitize
  import Canonical

  /** `_add_marker`, given the marker's title `markers[name]`. */
  function LatexMarker(title: string): seq<string> {
    ["\\vspace{10mm}", "\\subsection{" + title + "}", "\n", "\\vspace{-12mm}"]
  }

  /** The lines of a class before its docstring block. */
  function ClassHead(c: ClassDesc): seq<string> {
    ["\\vspace{15mm}", "\\classname{" + c.name + "}\\vspace{3mm}\\newline"]
      + if |c.ancestors| > 0 then ["\\textbf{Inherits from " + Markup.Markup(c.ancestors[0]) + "}\\newline"] else []
  }

  /** `_add_class`, with `render` standing for `method_to_latex`. */
  function LatexClass(c: ClassDesc, render: string -> string): seq<string> {
    ClassHead(c) + [render(ClassDoc(c))]
  }

  function NameLine(signature: string): string {
    "\\methodname{" + signature + "}\\vspace{2mm}\\newline"
  }

  /** `_add_method`, with `render` standing for `method_to_latex`. */
  function LatexMethod(m: MethodDesc, render: string -> string): seq<string> {
    ["\\vspace{8mm}", NameLine(RenderSignature(m)), render(m.docstring), "\n"]
  }

  /** `method_to_latex` with the given docstring parser. */
  function Render(parse: string -> Parsed): string -> string {
    docstring => MethodLatex(docstring, parse)
  }

  function LatexClassHook(render: string -> string): ClassDesc -> seq<string> {
    c => LatexClass(c, render)
  }

  function LatexMethodHook(render: string -> string): MethodDesc -> seq<string> {
    m => LatexMethod(m, render)
  }

  function LatexBody(roots: seq<ModuleDesc>, markers: map<string, string>, parse: string -> Parsed): seq<string> {
    Body(roots, markers, LatexMarker, LatexClassHook(Render(parse)), LatexMethodHook(Render(parse)))
  }

  class LatexFormatter {
    const modules: seq<ModuleDesc>
    const markers: map<string, string>
    const parse: string -> Parsed
    var body: seq<string>

    constructor(modules: seq<ModuleDesc>, markers: map<string, string>, parse: string -> Parsed)
      ensures this.modules == modules && this.markers == markers && this.parse == parse && body == []
    {
      this.modules := modules;
      this.markers := markers;
      this.parse := parse;
      body := [];
    }

    /** `export`, without the file: the body is cleared and rebuilt, and
        the fragments are joined with newlines. */
    method Export() returns (out: string)
      modifies this
      ensures body == LatexBody(modules, markers, parse)
      ensures out == Join(body, "\n")
    {
      Clear();
      Build();
      assert body == LatexBody(modules, markers, parse);
      out := Format();
    }

    /** `_clear`. */
    method Clear()
      modifies this
      ensures body == []
    {
      body := [];
    }

    /** `_format`. */
    method Format() returns (out: string)
      ensures out == Join(body, "\n")
    {
      out := Join(body, "\n");
    }

    /** `_add_marker`: the title is looked up in the marker table. */
    method AddMarker(name: string)
      requires name in markers
      modifies this
      ensures body == old(body) + LatexMarker(markers[name])
    {
      body := body + ["\\vspace{10mm}"];
      body := body + ["\\subsection{" + markers[name] + "}"];
      body := body + ["\n"];
      body := body + ["\\vspace{-12mm}"];
    }

    /** `_add_class`. */
    method AddClass(c: ClassDesc)
      modifies this
      ensures body == old(body) + LatexClass(c, Render(parse))
    {
      var head := ["\\vspace{15mm}", "\\classname{" + c.name + "}\\vspace{3mm}\\newline"];
      var superclasses := c.ancestors;
      if |superclasses| > 0 {
        head := head + ["\\textbf{Inherits from " + Markup.Markup(superclasses[0]) + "}\\newline"];
      }
      assert head == ClassHead(c);
      var classDoc := ClassDoc(c);
      var latex := MethodToLatex(classDoc, parse);
      RenderIs(parse, classDoc, latex);
      LatexClassIs(c, Render(parse), head, latex);
      body := body + (head + [latex]);
    }

    /** `_add_method`. */
    method AddMethod(m: MethodDesc)
      modifies this
      ensures body == old(body) + LatexMethod(m, Render(parse))
    {
      var signature := RenderSignature(m);
      var latex := MethodToLatex(m.docstring, parse);
      RenderIs(parse, m.docstring, latex);
      body := body + ["\\vspace{8mm}", "\\methodname{" + signature + "}\\vspace{2mm}\\newline", latex, "\n"];
    }

    /** `_build`. */
    method Build()
      modifies this
      ensures body == old(body) + LatexBody(modules, markers, parse)
    {
      var mods := Traverse(modules);
      var cls, meth := LatexClassHook(Render(parse)), LatexMethodHook(Render(parse));
      for i := 0 to |mods|
        invariant body == old(body) + ModulesOut(mods[..i], markers, LatexMarker, cls, meth)
      {
        ModulesOutStep(mods, i, markers, LatexMarker, cls, meth);
        SeqAssoc(old(body), ModulesOut(mods[..i], markers, LatexMarker, cls, meth),
          ClassesOut(mods[i].classes, markers, LatexMarker, cls, meth));
        BuildModule(mods[i]);
      }
      assert mods[..|mods|] == mods;
    }

    /** One module in `_build`: its classes in declared order. */
    method BuildModule(m: ModuleDesc)
      modifies this
      ensures body == old(body) + ClassesOut(m.classes, markers, LatexMarker, LatexClassHook(Render(parse)), LatexMethodHook(Render(parse)))
    {
      var classes := m.classes;
      var cls, meth := LatexClassHook(Render(parse)), LatexMethodHook(Render(parse));
      for j := 0 to |classes|
        invariant body == old(body) + ClassesOut(classes[..j], markers, LatexMarker, cls, meth)
      {
        ClassesOutStep(classes, j, markers, LatexMarker, cls, meth);
        SeqAssoc(old(body), ClassesOut(classes[..j], markers, LatexMarker, cls, meth),
          ClassOut(classes[j], markers, LatexMarker, cls, meth));
        BuildClass(classes[j]);
      }
      assert classes[..|classes|] == classes;
    }

    /** One class in `_build`: its marker when its name is a key, the class,
        then its own methods. */
    method BuildClass(c: ClassDesc)
      modifies this
      ensures body == old(body) + ClassOut(c, markers, LatexMarker, LatexClassHook(Render(parse)), LatexMethodHook(Render(parse)))
    {
      if c.name in markers {
        AddMarker(c.name);
      }
      ghost var marked := body;
      assert marked == old(body) + MarkerOut(c, markers, LatexMarker);
      AddClass(c);
      ghost var start := body;
      BuildMethods(c.methods);
      ClassOutParts(c, markers, Render(parse));
      AppendThree(old(body), MarkerOut(c, markers, LatexMarker), LatexClass(c, Render(parse)),
        MethodsOut(c.methods, LatexMethodHook(Render(parse))), marked, start, body);
    }

    /** The methods of one class in `_build`, in declared order. */
    method BuildMethods(methods: seq<MethodDesc>)
      modifies this
      ensures body == old(body) + MethodsOut(methods, LatexMethodHook(Render(parse)))
    {
      var meth := LatexMethodHook(Render(parse));
      for k := 0 to |methods|
        invariant body == old(body) + MethodsOut(methods[..k], meth)
      {
        MethodsOutStep(methods, k, meth);
        SeqAssoc(old(body), MethodsOut(methods[..k], meth), LatexMethod(methods[k], Render(parse)));
        AddMethod(methods[k]);
      }
      assert methods[..|methods|] == methods;
    }
  }

  lemma RenderIs(parse: string -> Parsed, docstring: string, latex: string)
    requires latex == MethodLatex(docstring, parse)
    ensures Render(parse)(docstring) == latex
  {
  }

  /** A class's fragments, from its heading lines and its rendered
      docstring. */
  lemma LatexClassIs(c: ClassDesc, render: string -> string, head: seq<string>, latex: string)
    requires head == ClassHead(c) && latex == render(ClassDoc(c))
    ensures LatexClass(c, render) == head + [latex]
  {
  }

  /** A class's fragments with the LaTeX hooks. */
  lemma ClassOutParts(c: ClassDesc, markers: map<string, string>, render: string -> string)
    ensures ClassOut(c, markers, LatexMarker, LatexClassHook(render), LatexMethodHook(render))
         == MarkerOut(c, markers, LatexMarker) + LatexClass(c, render) + MethodsOut(c.methods, LatexMethodHook(render))
  {
  }

  // ---------------------------------------------------------------------
  // Properties

  /** A marker adds four fragments, the second the subsection holding its
      title. */
  lemma LatexMarkerShape(title: string)
    ensures |LatexMarker(title)| == 4
    ensures LatexMarker(title)[1] == "\\subsection{" + title + "}"
  {
  }

  /** A method adds four fragments: its name line reads `Constructor`
      exactly when its name, with the internal prefixes removed, starts with
      `__init__`, and its docstring block follows. */
  lemma LatexMethodShape(m: MethodDesc, render: string -> string)
    ensures |LatexMethod(m, render)| == 4
    ensures LatexMethod(m, render)[1] == NameLine("Constructor")
        <==> StartsWith(Sanitize.StripPrefixes(m.name), "__init__")
    ensures LatexMethod(m, render)[2] == render(m.docstring)
  {
    ConstructorIff(m);
    NameLineIff(RenderSignature(m), "Constructor");
  }

  /** A docstring block ends with the docstring's examples. */
  lemma RenderEndsWithExamples(parse: string -> Parsed, docstring: string)
    ensures EndsWith(Render(parse)(docstring),
      AllExamples(ExampleMetas(parse(Canonical.CanonicalText(docstring)).meta)))
  {
    MethodLatexEndsWithExamples(docstring, parse);
  }

  /** Name lines agree exactly when the signatures do. */
  lemma NameLineIff(a: string, b: string)
    ensures NameLine(a) == NameLine(b) <==> a == b
  {
    var pre := "\\methodname{";
    var post := "}\\vspace{2mm}\\newline";
    if pre + a + post == pre + b + post {
      assert a == (pre + a + post)[|pre|..|pre| + |a|];
      assert b == (pre + b + post)[|pre|..|pre| + |b|];
    }
  }

  /** A class adds its head, with its first ancestor marked up when it has
      one, and then its docstring block, rendered from `None` when it has no
      docstring. */
  lemma LatexClassShape(c: ClassDesc, render: string -> string)
    ensures |LatexClass(c, render)| == if |c.ancestors| > 0 then 4 else 3
    ensures LatexClass(c, render)[1] == "\\classname{" + c.name + "}\\vspace{3mm}\\newline"
    ensures LatexClass(c, render)[|LatexClass(c, render)| - 1]
         == render(if c.doc.Some? then c.doc.value else "None")
  {
  }

  /** A class documented alone in a module: its subsection comes first
      exactly when its name is a key of the marker table, and it takes four
      fragments per method. */
  lemma LatexSingleClass(c: ClassDesc, markers: map<string, string>, render: string -> string)
    ensures var b := Body([ModuleDesc([c], [])], markers, LatexMarker, LatexClassHook(render), LatexMethodHook(render));
      |b| == (if c.name in markers then 4 else 0) + |LatexClass(c, render)| + 4 * |c.methods|
      && (c.name in markers ==> b[..4] == LatexMarker(markers[c.name]))
      && (c.name !in markers ==> b[..2] == LatexClass(c, render)[..2])
  {
    SingleClass(c, markers, LatexMarker, LatexClassHook(render), LatexMethodHook(render));
    ClassOutParts(c, markers, render);
    MethodsOutLength(c.methods, LatexMethodHook(render), 4);
    LatexClassShape(c, render);
    var b := Body([ModuleDesc([c], [])], markers, LatexMarker, LatexClassHook(render), LatexMethodHook(render));
    var rest := LatexClass(c, render) + MethodsOut(c.methods, LatexMethodHook(render));
    SeqAssoc(MarkerOut(c, markers, LatexMarker), LatexClass(c, render), MethodsOut(c.methods, LatexMethodHook(render)));
    assert b == MarkerOut(c, markers, LatexMarker) + rest;
    if c.name in markers {
      assert b[..4] == MarkerOut(c, markers, LatexMarker);
    } else {
      assert b == rest;
      assert rest[..2] == LatexClass(c, render)[..2];
    }
  }

  /** The marker titles change nothing but the subsection lines: with the
      same keys, two tables give bodies equal everywhere except at the
      subsection line. */
  lemma LatexMarkerTitles(c: ClassDesc, m1: map<string, string>, m2: map<string, string>, render: string -> string)
    requires c.name in m1 <==> c.name in m2
    ensures var b1 := Body([ModuleDesc([c], [])], m1, LatexMarker, LatexClassHook(render), LatexMethodHook(render));
      var b2 := Body([ModuleDesc([c], [])], m2, LatexMarker, LatexClassHook(render), LatexMethodHook(render));
      |b1| == |b2| && forall i :: 0 <= i < |b1| && i != 1 ==> b1[i] == b2[i]
  {
    SingleClass(c, m1, LatexMarker, LatexClassHook(render), LatexMethodHook(render));
    SingleClass(c, m2, LatexMarker, LatexClassHook(render), LatexMethodHook(render));
    ClassOutParts(c, m1, render);
    ClassOutParts(c, m2, render);
    var rest := LatexClass(c, render) + MethodsOut(c.methods, LatexMethodHook(render));
    SeqAssoc(MarkerOut(c, m1, LatexMarker), LatexClass(c, render), MethodsOut(c.methods, LatexMethodHook(render)));
    SeqAssoc(MarkerOut(c, m2, LatexMarker), LatexClass(c, render), MethodsOut(c.methods, LatexMethodHook(render)));
    SameBut(MarkerOut(c, m1, LatexMarker), MarkerOut(c, m2, LatexMarker), rest);
  }

  /** Prefixes of equal length that agree except at index 1 keep doing so
      when the same fragments follow. */
  lemma SameBut(p1: seq<string>, p2: seq<string>, rest: seq<string>)
    requires |p1| == |p2| && forall i :: 0 <= i < |p1| && i != 1 ==> p1[i] == p2[i]
    ensures |p1 + rest| == |p2 + rest|
    ensures forall i :: 0 <= i < |p1 + rest| && i != 1 ==> (p1 + rest)[i] == (p2 + rest)[i]
  {
  }
}
