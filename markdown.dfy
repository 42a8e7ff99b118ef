/** `MarkdownFormatter` (formatters.py): a heading per class followed by
    its first ancestor and its docstring, then a heading per method holding
    its rendered signature, followed by the method's docstring and a line
    break fragment. The output joins the fragments with newlines. */
module MarkdownFormat {
  import opened Strings
  import opened Descriptors
  import opened Emit
  import opened Signature
  import Sanitize

  /** `_add_marker` adds nothing. */
  function MarkdownMarker(title: string): seq<string> {
    []
  }

  /** `_add_class`. */
  function MarkdownClass(c: ClassDesc): seq<string> {
    ["# " + c.name]
      + (if |c.ancestors| > 0 then ["Inherits from `" + c.ancestors[0] + "`"] else [])
      + ["doc: " + ClassDoc(c)]
  }

  /** `_add_method`. */
  function MarkdownMethod(m: MethodDesc): seq<string> {
    ["## `" + RenderSignature(m) + "`", m.docstring, "\n"]
  }

  function MarkdownBody(roots: seq<ModuleDesc>, markers: map<string, string>): seq<string> {
    Body(roots, markers, MarkdownMarker, MarkdownClass, MarkdownMethod)
  }

  class MarkdownFormatter {
    const modules: seq<ModuleDesc>
    const markers: map<string, string>
    var body: seq<string>

    constructor(modules: seq<ModuleDesc>, markers: map<string, string>)
      ensures this.modules == modules && this.markers == markers && body == []
    {
      this.modules := modules;
      this.markers := markers;
      body := [];
    }

    /** `export`, without the file: the body is cleared and rebuilt, and
        the fragments are joined with newlines. */
    method Export() returns (out: string)
      modifies this
      ensures body == MarkdownBody(modules, markers)
      ensures out == Join(body, "\n")
    {
      Clear();
      Build();
      assert body == MarkdownBody(modules, markers);
      out := Format();
    }

    /** `_clear`. */
    method Clear()
      modifies this
      ensures body == []
    {
      body := [];
    }

    /** `_format`. */
    method Format() returns (out: string)
      ensures out == Join(body, "\n")
    {
      out := Join(body, "\n");
    }

    /** `_add_marker`: nothing. */
    method AddMarker(name: string) {
    }

    /** `_add_class`. */
    method AddClass(c: ClassDesc)
      modifies this
      ensures body == old(body) + MarkdownClass(c)
    {
      body := body + ["# " + c.name];
      var superclasses := c.ancestors;
      if |superclasses| > 0 {
        body := body + ["Inherits from `" + superclasses[0] + "`"];
      }
      var classDoc := ClassDoc(c);
      body := body + ["doc: " + classDoc];
    }

    /** `_add_method`. */
    method AddMethod(m: MethodDesc)
      modifies this
      ensures body == old(body) + MarkdownMethod(m)
    {
      var signature := RenderSignature(m);
      body := body + ["## `" + signature + "`"];
      body := body + [m.docstring];
      body := body + ["\n"];
    }

    /** `_build`. */
    method Build()
      modifies this
      ensures body == old(body) + MarkdownBody(modules, markers)
    {
      var mods := Traverse(modules);
      for i := 0 to |mods|
        invariant body == old(body) + ModulesOut(mods[..i], markers, MarkdownMarker, MarkdownClass, MarkdownMethod)
      {
        ModulesOutStep(mods, i, markers, MarkdownMarker, MarkdownClass, MarkdownMethod);
        SeqAssoc(old(body), ModulesOut(mods[..i], markers, MarkdownMarker, MarkdownClass, MarkdownMethod),
          ClassesOut(mods[i].classes, markers, MarkdownMarker, MarkdownClass, MarkdownMethod));
        BuildModule(mods[i]);
      }
      assert mods[..|mods|] == mods;
    }

    /** One module in `_build`: its classes in declared order. */
    method BuildModule(m: ModuleDesc)
      modifies this
      ensures body == old(body) + ClassesOut(m.classes, markers, MarkdownMarker, MarkdownClass, MarkdownMethod)
    {
      var classes := m.classes;
      for j := 0 to |classes|
        invariant body == old(body) + ClassesOut(classes[..j], markers, MarkdownMarker, MarkdownClass, MarkdownMethod)
      {
        ClassesOutStep(classes, j, markers, MarkdownMarker, MarkdownClass, MarkdownMethod);
        SeqAssoc(old(body), ClassesOut(classes[..j], markers, MarkdownMarker, MarkdownClass, MarkdownMethod),
          ClassOut(classes[j], markers, MarkdownMarker, MarkdownClass, MarkdownMethod));
        BuildClass(classes[j]);
      }
      assert classes[..|classes|] == classes;
    }

    /** One class in `_build`: its marker when its name is a key, the class,
        then its own methods. */
    method BuildClass(c: ClassDesc)
      modifies this
      ensures body == old(body) + ClassOut(c, markers, MarkdownMarker, MarkdownClass, MarkdownMethod)
    {
      if c.name in markers {
        AddMarker(c.name);
      }
      AddClass(c);
      ghost var start := body;
      var methods := c.methods;
      for k := 0 to |methods|
        invariant body == start + MethodsOut(methods[..k], MarkdownMethod)
      {
        MethodsOutStep(methods, k, MarkdownMethod);
        SeqAssoc(start, MethodsOut(methods[..k], MarkdownMethod), MarkdownMethod(methods[k]));
        AddMethod(methods[k]);
      }
      assert methods[..|methods|] == methods;
      assert MarkerOut(c, markers, MarkdownMarker) == [];
      ClassOutUnmarked(c, markers, MarkdownMarker, MarkdownClass, MarkdownMethod);
      SeqAssoc(old(body), MarkdownClass(c), MethodsOut(methods, MarkdownMethod));
    }
  }

  // ---------------------------------------------------------------------
  // Properties

  /** A method's heading reads `Constructor` exactly when its name, with the
      internal prefixes removed, starts with `__init__`, and is followed by
      its docstring and the line break fragment. */
  lemma MarkdownMethodShape(m: MethodDesc)
    ensures |MarkdownMethod(m)| == 3
    ensures MarkdownMethod(m)[0] == "## `Constructor`" <==> StartsWith(Sanitize.StripPrefixes(m.name), "__init__")
    ensures MarkdownMethod(m)[1] == m.docstring && MarkdownMethod(m)[2] == "\n"
  {
    ConstructorIff(m);
    HeadingIff(RenderSignature(m), "Constructor");
    assert "## `" + "Constructor" + "`" == "## `Constructor`";
  }

  /** Headings agree exactly when the signatures do. */
  lemma HeadingIff(a: string, b: string)
    ensures "## `" + a + "`" == "## `" + b + "`" <==> a == b
  {
    if "## `" + a + "`" == "## `" + b + "`" {
      assert a == ("## `" + a + "`")[4..|a| + 4];
      assert b == ("## `" + b + "`")[4..|b| + 4];
    }
  }

  /** A class adds its heading, its first ancestor when it has one, and its
      docstring, `None` when it has none. */
  lemma MarkdownClassShape(c: ClassDesc)
    ensures |MarkdownClass(c)| == if |c.ancestors| > 0 then 3 else 2
    ensures MarkdownClass(c)[0] == "# " + c.name
    ensures MarkdownClass(c)[|MarkdownClass(c)| - 1]
         == "doc: " + (if c.doc.Some? then c.doc.value else "None")
  {
  }

  /** The marker table makes no difference to the Markdown output. */
  lemma MarkdownIgnoresMarkers(roots: seq<ModuleDesc>, m1: map<string, string>, m2: map<string, string>)
    ensures MarkdownBody(roots, m1) == MarkdownBody(roots, m2)
  {
    BodyIgnoresMarkers(roots, m1, m2, MarkdownMarker, MarkdownClass, MarkdownMethod);
  }

  /** A class documented alone in a module takes its own fragments plus
      three per method. */
  lemma MarkdownSingleClass(c: ClassDesc, markers: map<string, string>)
    ensures |MarkdownBody([ModuleDesc([c], [])], markers)| == |MarkdownClass(c)| + 3 * |c.methods|
  {
    SingleClass(c, markers, MarkdownMarker, MarkdownClass, MarkdownMethod);
    MethodsOutLength(c.methods, MarkdownMethod, 3);
    assert MarkerOut(c, markers, MarkdownMarker) == [];
  }
}
