/** How a method's signature is rendered (formatters.py, in both
    `MarkdownFormatter._add_method` and `LatexFormatter._add_method`). */
module Signature {
  import opened Strings
  import opened Sanitize
  import opened Descriptors

  /** The sanitised form of `__init__`, which marks a constructor. */
  const InitMark: string := "\\_\\_init\\_\\_"

  /** `name(params) -> ret`, with the name sanitised and the joined
      parameter list and the return annotation type-converted. */
  function RawSignature(m: MethodDesc): string {
    Sanitize.Sanitize(m.name) + "(" + SignatureTail(m)
  }

  /** Everything after the opening parenthesis. */
  function SignatureTail(m: MethodDesc): string {
    ConvertType(Join(m.params, ", ")) + ")" + " -> " + ConvertType(m.returnType)
  }

  /** The rendered signature: a constructor is shown as `Constructor`. */
  function RenderSignature(m: MethodDesc): string {
    var raw := RawSignature(m);
    if StartsWith(raw, InitMark) then "Constructor" else raw
  }

  /** `__init__` escaped is the constructor mark. */
  lemma EscapeInit()
    ensures Escape("__init__", '_', '#') == InitMark
  {
    var s := "__init__";
    assert s[1..][1..][1..][1..][1..][1..][1..][1..] == [];
  }

  /** A signature is shown as `Constructor` exactly when the method's name,
      with the internal prefixes removed, starts with `__init__`. */
  lemma ConstructorIff(m: MethodDesc)
    ensures RenderSignature(m) == "Constructor" <==> StartsWith(StripPrefixes(m.name), "__init__")
  {
    var raw := RawSignature(m);
    SanitizeIsEscape(m.name);
    assert raw != "Constructor" by {
      assert raw[|Sanitize.Sanitize(m.name)|] == '(';
    }
    MarkIff(StripPrefixes(m.name), SignatureTail(m));
  }

  /** The escaped name followed by `(` starts with the mark exactly when the
      name starts with `__init__`. */
  lemma MarkIff(p: string, t: string)
    ensures StartsWith(Escape(p, '_', '#') + "(" + t, InitMark) <==> StartsWith(p, "__init__")
  {
    EscapeInit();
    if StartsWith(Escape(p, '_', '#') + "(" + t, InitMark) {
      NameBeforeParen(Escape(p, '_', '#'), t, InitMark);
      EscapeDecode(p, "__init__", '_', '#');
    }
    if StartsWith(p, "__init__") {
      assert p == "__init__" + p[8..];
      EscapeConcat("__init__", p[8..], '_', '#');
      PrefixOfFront(InitMark, Escape(p[8..], '_', '#'), "(" + t);
      Assoc(InitMark + Escape(p[8..], '_', '#'), "(", t);
    }
  }

  /** A mark without `(` found at the front of `sn + "(" + rest` lies
      within `sn`. */
  lemma NameBeforeParen(sn: string, rest: string, mark: string)
    requires '(' !in mark && StartsWith(sn + "(" + rest, mark)
    ensures StartsWith(sn, mark)
  {
    var s := sn + "(" + rest;
    assert s[|sn|] == '(';
    assert |sn| >= |mark|;
    assert sn[..|mark|] == s[..|mark|];
  }

  lemma PrefixOfFront(a: string, b: string, c: string)
    ensures StartsWith(a + b + c, a)
  {
    assert (a + b + c)[..|a|] == a;
  }
}
