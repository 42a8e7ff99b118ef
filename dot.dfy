/** `DotFormatter` (formatters.py): a Graphviz class diagram. Every class
    adds a box, and an arrow to its first ancestor or, when it has none, its
    name to the group of classes drawn on one rank. The output sorts the
    fragments first, so boxes precede arrows, each in ascending order. */
module DotFormat {
  import opened Strings
  import opened Descriptors
  import opened Emit
  import opened Order

  /** The fragment kinds, in the order they are sorted. */
  const NODE: int := 0
  const EDGE: int := 1
  const RANK: int := 2

  const DotHeader: string := "digraph \"classes\" {\ncharset=\"utf-8\"\nrankdir=BT\n"

  function NodeLine(name: string): string {
    "\"" + name + "\" [color=cyan3, label=\"" + name + "\", shape=\"box\"];"
  }

  function EdgeLine(name: string, superclass: string): string {
    "\"" + name + "\" -> \"" + superclass + "\" [arrowhead=\"empty\", arrowtail=\"none\"];"
  }

  /** `_add_marker` and `_add_method` add nothing. */
  function DotMarker(title: string): seq<Frag> {
    []
  }

  function DotMethod(m: MethodDesc): seq<Frag> {
    []
  }

  /** `_add_class`. */
  function DotClass(c: ClassDesc): seq<Frag> {
    [Frag(NODE, NodeLine(c.name))]
      + if |c.ancestors| > 0 then [Frag(EDGE, EdgeLine(c.name, c.ancestors[0]))] else [Frag(RANK, c.name)]
  }

  /** What `_build` appends. */
  function DotBody(roots: seq<ModuleDesc>, markers: map<string, string>): seq<Frag> {
    Body(roots, markers, DotMarker, DotClass, DotMethod)
  }

  // ---------------------------------------------------------------------
  // _format

  /** The fragments of one kind, in order. */
  function OfCode(s: seq<Frag>, k: int): (r: seq<Frag>)
    ensures forall i :: 0 <= i < |r| ==> r[i].code == k && r[i] in s
    decreases |s|
  {
    if s == [] then []
    else (if s[0].code == k then [s[0]] else []) + OfCode(s[1..], k)
  }

  /** The fragments that are not rank entries, in order. */
  function NonRank(s: seq<Frag>): seq<Frag>
    decreases |s|
  {
    if s == [] then []
    else (if s[0].code != RANK then [s[0]] else []) + NonRank(s[1..])
  }

  function Messages(s: seq<Frag>): (r: seq<string>)
    ensures |r| == |s| && forall i :: 0 <= i < |s| ==> r[i] == s[i].message
    decreases |s|
  {
    if s == [] then [] else [s[0].message] + Messages(s[1..])
  }

  /** Each rank entry's class name in double quotes. */
  function Quoted(s: seq<Frag>): (r: seq<string>)
    ensures |r| == |s| && forall i :: 0 <= i < |s| ==> r[i] == "\"" + s[i].message + "\""
    decreases |s|
  {
    if s == [] then [] else ["\"" + s[0].message + "\""] + Quoted(s[1..])
  }

  /** The line that puts every class without an ancestor on the same rank,
      each name quoted. */
  function RankGroup(s: seq<Frag>): string {
    "\n{ rank=same; " + Join(Quoted(OfCode(s, RANK)), ", ") + " }\n"
  }

  /** The text `_format` returns for an already sorted body: the header, the
      box and arrow lines, the rank group and the closing brace. */
  function DotText(s: seq<Frag>): string {
    DotHeader + Join(Messages(NonRank(s)), "\n") + RankGroup(s) + "}"
  }

  class DotFormatter {
    const modules: seq<ModuleDesc>
    const markers: map<string, string>
    var body: seq<Frag>

    constructor(modules: seq<ModuleDesc>, markers: map<string, string>)
      ensures this.modules == modules && this.markers == markers && body == []
    {
      this.modules := modules;
      this.markers := markers;
      body := [];
    }

    /** `export`, without the file: the body is cleared and rebuilt, and
        the formatted text is returned; the body is left sorted. */
    method Export() returns (out: string)
      modifies this
      ensures body == SortFrags(DotBody(modules, markers))
      ensures out == DotText(body)
    {
      Clear();
      Build();
      assert body == DotBody(modules, markers);
      out := Format();
    }

    /** `_clear`. */
    method Clear()
      modifies this
      ensures body == []
    {
      body := [];
    }

    /** `_format(self._body)`: the list is sorted in place, and the text is
        read from the sorted list. */
    method Format() returns (out: string)
      modifies this
      ensures body == SortFrags(old(body))
      ensures out == DotText(body)
    {
      body := SortFrags(body);
      out := DotHeader + Join(Messages(NonRank(body)), "\n");
      out := out + RankGroup(body);
      out := out + "}";
    }

    /** `_add_marker`: nothing. */
    method AddMarker(name: string) {
    }

    /** `_add_class`. */
    method AddClass(c: ClassDesc)
      modifies this
      ensures body == old(body) + DotClass(c)
    {
      body := body + [Frag(NODE, NodeLine(c.name))];
      if |c.ancestors| > 0 {
        var superclass := c.ancestors[0];
        body := body + [Frag(EDGE, EdgeLine(c.name, superclass))];
      } else {
        body := body + [Frag(RANK, c.name)];
      }
    }

    /** `_add_method`: nothing. */
    method AddMethod(m: MethodDesc) {
    }

    /** `_build`. */
    method Build()
      modifies this
      ensures body == old(body) + DotBody(modules, markers)
    {
      var mods := Traverse(modules);
      for i := 0 to |mods|
        invariant body == old(body) + ModulesOut(mods[..i], markers, DotMarker, DotClass, DotMethod)
      {
        ModulesOutStep(mods, i, markers, DotMarker, DotClass, DotMethod);
        SeqAssoc(old(body), ModulesOut(mods[..i], markers, DotMarker, DotClass, DotMethod),
          ClassesOut(mods[i].classes, markers, DotMarker, DotClass, DotMethod));
        BuildModule(mods[i]);
      }
      assert mods[..|mods|] == mods;
    }

    /** One module in `_build`: its classes in declared order. */
    method BuildModule(m: ModuleDesc)
      modifies this
      ensures body == old(body) + ClassesOut(m.classes, markers, DotMarker, DotClass, DotMethod)
    {
      var classes := m.classes;
      for j := 0 to |classes|
        invariant body == old(body) + ClassesOut(classes[..j], markers, DotMarker, DotClass, DotMethod)
      {
        ClassesOutStep(classes, j, markers, DotMarker, DotClass, DotMethod);
        SeqAssoc(old(body), ClassesOut(classes[..j], markers, DotMarker, DotClass, DotMethod),
          ClassOut(classes[j], markers, DotMarker, DotClass, DotMethod));
        BuildClass(classes[j]);
      }
      assert classes[..|classes|] == classes;
    }

    /** One class in `_build`: its marker when its name is a key, the class,
        then its own methods. */
    method BuildClass(c: ClassDesc)
      modifies this
      ensures body == old(body) + ClassOut(c, markers, DotMarker, DotClass, DotMethod)
    {
      if c.name in markers {
        AddMarker(c.name);
      }
      AddClass(c);
      var methods := c.methods;
      for k := 0 to |methods|
        invariant body == old(body) + DotClass(c) + MethodsOut(methods[..k], DotMethod)
      {
        MethodsOutStep(methods, k, DotMethod);
        AddMethod(methods[k]);
      }
      assert methods[..|methods|] == methods;
      assert MarkerOut(c, markers, DotMarker) == [];
      ClassOutUnmarked(c, markers, DotMarker, DotClass, DotMethod);
    }
  }

  // ---------------------------------------------------------------------
  // Properties

  /** Every class adds one box; and an arrow to its first ancestor when it
      has one, its name to the rank group otherwise. */
  lemma DotClassKinds(c: ClassDesc)
    ensures OfCode(DotClass(c), NODE) == [Frag(NODE, NodeLine(c.name))]
    ensures OfCode(DotClass(c), EDGE)
         == if |c.ancestors| > 0 then [Frag(EDGE, EdgeLine(c.name, c.ancestors[0]))] else []
    ensures OfCode(DotClass(c), RANK) == if |c.ancestors| > 0 then [] else [Frag(RANK, c.name)]
  {
    var t := if |c.ancestors| > 0 then Frag(EDGE, EdgeLine(c.name, c.ancestors[0])) else Frag(RANK, c.name);
    assert DotClass(c) == [Frag(NODE, NodeLine(c.name)), t];
    OfCodePair(Frag(NODE, NodeLine(c.name)), t, NODE);
    OfCodePair(Frag(NODE, NodeLine(c.name)), t, EDGE);
    OfCodePair(Frag(NODE, NodeLine(c.name)), t, RANK);
  }

  lemma OfCodePair(a: Frag, b: Frag, k: int)
    ensures OfCode([a, b], k) == (if a.code == k then [a] else []) + (if b.code == k then [b] else [])
  {
    assert [a, b][1..] == [b] && [b][1..] == [];
    assert OfCode([b], k) == (if b.code == k then [b] else []) + OfCode([], k);
  }

  /** The marker table makes no difference to the diagram. */
  lemma DotIgnoresMarkers(roots: seq<ModuleDesc>, m1: map<string, string>, m2: map<string, string>)
    ensures DotBody(roots, m1) == DotBody(roots, m2)
  {
    BodyIgnoresMarkers(roots, m1, m2, DotMarker, DotClass, DotMethod);
  }

  predicate ValidCode(f: Frag) {
    NODE <= f.code <= RANK
  }

  lemma DotBodyCodes(roots: seq<ModuleDesc>, markers: map<string, string>)
    ensures AllOf(DotBody(roots, markers), ValidCode)
  {
    forall c: ClassDesc ensures AllOf(DotClass(c), ValidCode) {
    }
    BodyAll(roots, markers, DotMarker, DotClass, DotMethod, ValidCode);
  }

  /** How many fragments of kind `k` equal to `x` there are. */
  lemma {:induction false} OfCodeCount(s: seq<Frag>, k: int, x: Frag)
    ensures multiset(OfCode(s, k))[x] == if x.code == k then multiset(s)[x] else 0
    decreases |s|
  {
    if s != [] {
      var head := if s[0].code == k then [s[0]] else [];
      OfCodeCount(s[1..], k, x);
      assert s == [s[0]] + s[1..];
      assert multiset(s) == multiset{s[0]} + multiset(s[1..]);
      assert multiset(OfCode(s, k)) == multiset(head) + multiset(OfCode(s[1..], k));
    }
  }

  /** Fragments of one kind after sorting are those before, rearranged. */
  lemma OfCodePermutation(a: seq<Frag>, b: seq<Frag>, k: int)
    requires multiset(a) == multiset(b)
    ensures multiset(OfCode(a, k)) == multiset(OfCode(b, k))
  {
    forall x | true
      ensures multiset(OfCode(a, k))[x] == multiset(OfCode(b, k))[x]
    {
      OfCodeCount(a, k, x);
      OfCodeCount(b, k, x);
    }
  }

  /** The fragments of one kind of a sorted list are sorted. */
  lemma {:induction false} OfCodeSorted(s: seq<Frag>, k: int)
    requires Sorted(s)
    ensures Sorted(OfCode(s, k))
    decreases |s|
  {
    if s != [] {
      SortedRest(s);
      OfCodeSorted(s[1..], k);
      var t := OfCode(s[1..], k);
      if s[0].code == k {
        forall y | y in t
          ensures FragLe(s[0], y)
        {
          var j :| 0 <= j < |t| && t[j] == y;
        }
        SortedCons(s[0], t);
      }
    }
  }

  /** With no fragment of kind `k`, there is nothing to select. */
  lemma {:induction false} OfCodeNone(s: seq<Frag>, k: int)
    requires forall i :: 0 <= i < |s| ==> s[i].code != k
    ensures OfCode(s, k) == []
    decreases |s|
  {
    if s != [] {
      OfCodeNone(s[1..], k);
    }
  }

  lemma {:induction false} NonRankNone(s: seq<Frag>)
    requires forall i :: 0 <= i < |s| ==> s[i].code == RANK
    ensures NonRank(s) == []
    decreases |s|
  {
    if s != [] {
      NonRankNone(s[1..]);
    }
  }

  /** In a sorted list of valid fragments, the non-rank part is all boxes
      followed by all arrows. */
  lemma {:induction false} SortedGroups(s: seq<Frag>)
    requires Sorted(s) && AllOf(s, ValidCode)
    ensures NonRank(s) == OfCode(s, NODE) + OfCode(s, EDGE)
    decreases |s|
  {
    if s != [] {
      SortedRest(s);
      ValidRest(s);
      SortedGroups(s[1..]);
      CodesAfterFirst(s);
      GroupsStep(s);
    }
  }

  lemma ValidRest(s: seq<Frag>)
    requires s != [] && AllOf(s, ValidCode)
    ensures ValidCode(s[0]) && AllOf(s[1..], ValidCode)
  {
    forall i | 0 <= i < |s[1..]|
      ensures ValidCode(s[1..][i])
    {
      assert s[1..][i] == s[i + 1];
    }
  }

  /** In a sorted list of valid fragments, no later fragment has a smaller
      kind code than the first. */
  lemma CodesAfterFirst(s: seq<Frag>)
    requires s != [] && Sorted(s) && AllOf(s, ValidCode)
    ensures forall i :: 0 <= i < |s[1..]| ==> s[0].code <= s[1..][i].code <= RANK
  {
    forall i | 0 <= i < |s[1..]|
      ensures s[0].code <= s[1..][i].code <= RANK
    {
      assert s[1..][i] == s[i + 1];
      assert FragLe(s[0], s[i + 1]) && ValidCode(s[i + 1]);
    }
  }

  /** One step of the grouping: a first fragment whose code is at most the
      codes of the rest. */
  lemma GroupsStep(s: seq<Frag>)
    requires s != [] && ValidCode(s[0])
    requires forall i :: 0 <= i < |s[1..]| ==> s[0].code <= s[1..][i].code <= RANK
    requires NonRank(s[1..]) == OfCode(s[1..], NODE) + OfCode(s[1..], EDGE)
    ensures NonRank(s) == OfCode(s, NODE) + OfCode(s, EDGE)
  {
    if s[0].code == NODE {
      NodeFirst(s);
    } else if s[0].code == EDGE {
      OfCodeNone(s[1..], NODE);
      EdgeFirst(s);
    } else {
      OfCodeNone(s[1..], NODE);
      OfCodeNone(s[1..], EDGE);
      NonRankNone(s[1..]);
      RankFirst(s);
    }
  }

  lemma NodeFirst(s: seq<Frag>)
    requires s != [] && s[0].code == NODE
    requires NonRank(s[1..]) == OfCode(s[1..], NODE) + OfCode(s[1..], EDGE)
    ensures NonRank(s) == OfCode(s, NODE) + OfCode(s, EDGE)
  {
    var x, r := s[0], s[1..];
    assert NonRank(s) == [x] + NonRank(r);
    assert OfCode(s, NODE) == [x] + OfCode(r, NODE);
    assert OfCode(s, EDGE) == [] + OfCode(r, EDGE);
    SeqAssoc([x], OfCode(r, NODE), OfCode(r, EDGE));
  }

  lemma EdgeFirst(s: seq<Frag>)
    requires s != [] && s[0].code == EDGE && OfCode(s[1..], NODE) == []
    requires NonRank(s[1..]) == OfCode(s[1..], NODE) + OfCode(s[1..], EDGE)
    ensures NonRank(s) == OfCode(s, NODE) + OfCode(s, EDGE)
  {
    var x, r := s[0], s[1..];
    assert NonRank(s) == [x] + NonRank(r);
    assert OfCode(s, NODE) == [] + [];
    assert OfCode(s, EDGE) == [x] + OfCode(r, EDGE);
  }

  lemma RankFirst(s: seq<Frag>)
    requires s != [] && s[0].code == RANK
    requires OfCode(s[1..], NODE) == [] && OfCode(s[1..], EDGE) == [] && NonRank(s[1..]) == []
    ensures NonRank(s) == OfCode(s, NODE) + OfCode(s, EDGE)
  {
    assert NonRank(s) == [] + [];
    assert OfCode(s, NODE) == [] + [];
    assert OfCode(s, EDGE) == [] + [];
  }

  /** The diagram's layout: after the in-place sort, the lines are every
      class box followed by every arrow, each group in ascending order and
      holding exactly the fragments of its kind that were built; the rank
      group holds the built rank entries in ascending order. */
  lemma DotLayout(roots: seq<ModuleDesc>, markers: map<string, string>)
    ensures var built := DotBody(roots, markers);
      var s := SortFrags(built);
      NonRank(s) == OfCode(s, NODE) + OfCode(s, EDGE)
      && Sorted(OfCode(s, NODE)) && Sorted(OfCode(s, EDGE)) && Sorted(OfCode(s, RANK))
      && multiset(OfCode(s, NODE)) == multiset(OfCode(built, NODE))
      && multiset(OfCode(s, EDGE)) == multiset(OfCode(built, EDGE))
      && multiset(OfCode(s, RANK)) == multiset(OfCode(built, RANK))
  {
    var built := DotBody(roots, markers);
    var s := SortFrags(built);
    DotBodyCodes(roots, markers);
    SortFragsSorted(built);
    SortedCodes(built, s);
    SortedGroups(s);
    OfCodeSorted(s, NODE);
    OfCodeSorted(s, EDGE);
    OfCodeSorted(s, RANK);
    OfCodePermutation(s, built, NODE);
    OfCodePermutation(s, built, EDGE);
    OfCodePermutation(s, built, RANK);
  }

  /** Rearranging keeps every fragment's code valid. */
  lemma SortedCodes(a: seq<Frag>, b: seq<Frag>)
    requires AllOf(a, ValidCode) && multiset(b) == multiset(a)
    ensures AllOf(b, ValidCode)
  {
    forall i | 0 <= i < |b|
      ensures ValidCode(b[i])
    {
      assert b[i] in multiset(a);
      var j :| 0 <= j < |a| && a[j] == b[i];
    }
  }

  /** The text is framed by the fixed header and the closing brace. */
  lemma DotTextFrame(s: seq<Frag>)
    ensures StartsWith(DotText(s), DotHeader)
    ensures EndsWith(DotText(s), RankGroup(s) + "}")
  {
    var lines := Join(Messages(NonRank(s)), "\n");
    assert DotText(s) == DotHeader + lines + (RankGroup(s) + "}");
    assert (DotHeader + lines + (RankGroup(s) + "}"))[..|DotHeader|] == DotHeader;
    EndsWithConcat(DotHeader + lines, RankGroup(s) + "}");
  }
}
