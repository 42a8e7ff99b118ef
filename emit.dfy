/** The fragment list `Formatter._build` produces, independent of the output
    format: modules in pre-order, their classes in declared order, and for
    each class its marker fragments (only when its name is a key of the
    marker table), its own fragments, then those of its own methods in
    declared order. A format is given by its three hooks (`_add_marker`,
    `_add_class`, `_add_method`), each returning the fragments it appends;
    the marker hook receives the marker's title, `markers[name]`. */
module Emit {
  import opened Descriptors

  function MethodsOut<T>(ms: seq<MethodDesc>, meth: MethodDesc -> seq<T>): seq<T>
    decreases |ms|
  {
    if ms == [] then [] else MethodsOut(ms[..|ms| - 1], meth) + meth(ms[|ms| - 1])
  }

  /** The marker fragments of a class: none unless its name is a key. */
  function MarkerOut<T>(c: ClassDesc, markers: map<string, string>, marker: string -> seq<T>): seq<T> {
    if c.name in markers then marker(markers[c.name]) else []
  }

  function ClassOut<T>(c: ClassDesc, markers: map<string, string>, marker: string -> seq<T>,
                       cls: ClassDesc -> seq<T>, meth: MethodDesc -> seq<T>): seq<T> {
    MarkerOut(c, markers, marker) + cls(c) + MethodsOut(c.methods, meth)
  }

  function ClassesOut<T>(cs: seq<ClassDesc>, markers: map<string, string>, marker: string -> seq<T>,
                         cls: ClassDesc -> seq<T>, meth: MethodDesc -> seq<T>): seq<T>
    decreases |cs|
  {
    if cs == [] then []
    else ClassesOut(cs[..|cs| - 1], markers, marker, cls, meth) + ClassOut(cs[|cs| - 1], markers, marker, cls, meth)
  }

  /** The fragments of already traversed modules. */
  function ModulesOut<T>(mods: seq<ModuleDesc>, markers: map<string, string>, marker: string -> seq<T>,
                         cls: ClassDesc -> seq<T>, meth: MethodDesc -> seq<T>): seq<T>
    decreases |mods|
  {
    if mods == [] then []
    else
      ModulesOut(mods[..|mods| - 1], markers, marker, cls, meth)
      + ClassesOut(mods[|mods| - 1].classes, markers, marker, cls, meth)
  }

  /** What `_build` appends to the body for the given root modules. */
  function Body<T>(roots: seq<ModuleDesc>, markers: map<string, string>, marker: string -> seq<T>,
                   cls: ClassDesc -> seq<T>, meth: MethodDesc -> seq<T>): seq<T> {
    ModulesOut(Traverse(roots), markers, marker, cls, meth)
  }

  // ---------------------------------------------------------------------
  // One more element: the steps of the three loops of `_build`

  lemma SeqAssoc<T>(a: seq<T>, b: seq<T>, c: seq<T>)
    ensures a + b + c == a + (b + c)
  {
  }

  /** Three appends in a row append the three parts. */
  lemma AppendThree<T>(b0: seq<T>, x: seq<T>, y: seq<T>, z: seq<T>, b1: seq<T>, b2: seq<T>, b3: seq<T>)
    requires b1 == b0 + x && b2 == b1 + y && b3 == b2 + z
    ensures b3 == b0 + (x + y + z)
  {
  }

  lemma MethodsOutStep<T>(ms: seq<MethodDesc>, k: nat, meth: MethodDesc -> seq<T>)
    requires k < |ms|
    ensures MethodsOut(ms[..k + 1], meth) == MethodsOut(ms[..k], meth) + meth(ms[k])
  {
    assert ms[..k + 1][..k] == ms[..k];
  }

  lemma ClassesOutStep<T>(cs: seq<ClassDesc>, j: nat, markers: map<string, string>, marker: string -> seq<T>,
                          cls: ClassDesc -> seq<T>, meth: MethodDesc -> seq<T>)
    requires j < |cs|
    ensures ClassesOut(cs[..j + 1], markers, marker, cls, meth)
         == ClassesOut(cs[..j], markers, marker, cls, meth) + ClassOut(cs[j], markers, marker, cls, meth)
  {
    assert cs[..j + 1][..j] == cs[..j];
  }

  lemma ModulesOutStep<T>(mods: seq<ModuleDesc>, i: nat, markers: map<string, string>, marker: string -> seq<T>,
                          cls: ClassDesc -> seq<T>, meth: MethodDesc -> seq<T>)
    requires i < |mods|
    ensures ModulesOut(mods[..i + 1], markers, marker, cls, meth)
         == ModulesOut(mods[..i], markers, marker, cls, meth) + ClassesOut(mods[i].classes, markers, marker, cls, meth)
  {
    assert mods[..i + 1][..i] == mods[..i];
  }

  /** A class whose marker adds nothing contributes its own fragments and
      its methods'. */
  lemma ClassOutUnmarked<T>(c: ClassDesc, markers: map<string, string>, marker: string -> seq<T>,
                            cls: ClassDesc -> seq<T>, meth: MethodDesc -> seq<T>)
    requires MarkerOut(c, markers, marker) == []
    ensures ClassOut(c, markers, marker, cls, meth) == cls(c) + MethodsOut(c.methods, meth)
  {
    assert [] + cls(c) == cls(c);
  }

  // ---------------------------------------------------------------------
  // Properties of the body

  lemma {:induction false} ModulesOutAppend<T>(a: seq<ModuleDesc>, b: seq<ModuleDesc>, markers: map<string, string>,
                                               marker: string -> seq<T>, cls: ClassDesc -> seq<T>, meth: MethodDesc -> seq<T>)
    ensures ModulesOut(a + b, markers, marker, cls, meth)
         == ModulesOut(a, markers, marker, cls, meth) + ModulesOut(b, markers, marker, cls, meth)
    decreases |b|
  {
    if b == [] {
      assert a + b == a;
    } else {
      var b0 := b[..|b| - 1];
      assert (a + b)[..|a + b| - 1] == a + b0;
      ModulesOutAppend(a, b0, markers, marker, cls, meth);
      SeqAssoc(ModulesOut(a, markers, marker, cls, meth), ModulesOut(b0, markers, marker, cls, meth),
        ClassesOut(b[|b| - 1].classes, markers, marker, cls, meth));
    }
  }

  /** Building for two lists of roots is building for each in turn. */
  lemma BodyAppend<T>(a: seq<ModuleDesc>, b: seq<ModuleDesc>, markers: map<string, string>,
                      marker: string -> seq<T>, cls: ClassDesc -> seq<T>, meth: MethodDesc -> seq<T>)
    ensures Body(a + b, markers, marker, cls, meth)
         == Body(a, markers, marker, cls, meth) + Body(b, markers, marker, cls, meth)
  {
    TraverseAppend(a, b);
    ModulesOutAppend(Traverse(a), Traverse(b), markers, marker, cls, meth);
  }

  /** A format whose marker hook adds nothing builds the same body whatever
      the marker table. */
  lemma {:induction false} ClassesIgnoreMarkers<T>(cs: seq<ClassDesc>, m1: map<string, string>, m2: map<string, string>,
                                                   marker: string -> seq<T>, cls: ClassDesc -> seq<T>, meth: MethodDesc -> seq<T>)
    requires forall v :: marker(v) == []
    ensures ClassesOut(cs, m1, marker, cls, meth) == ClassesOut(cs, m2, marker, cls, meth)
    decreases |cs|
  {
    if cs != [] {
      ClassesIgnoreMarkers(cs[..|cs| - 1], m1, m2, marker, cls, meth);
      var c := cs[|cs| - 1];
      assert MarkerOut(c, m1, marker) == [] && MarkerOut(c, m2, marker) == [];
    }
  }

  lemma {:induction false} ModulesIgnoreMarkers<T>(mods: seq<ModuleDesc>, m1: map<string, string>, m2: map<string, string>,
                                                   marker: string -> seq<T>, cls: ClassDesc -> seq<T>, meth: MethodDesc -> seq<T>)
    requires forall v :: marker(v) == []
    ensures ModulesOut(mods, m1, marker, cls, meth) == ModulesOut(mods, m2, marker, cls, meth)
    decreases |mods|
  {
    if mods != [] {
      ModulesIgnoreMarkers(mods[..|mods| - 1], m1, m2, marker, cls, meth);
      ClassesIgnoreMarkers(mods[|mods| - 1].classes, m1, m2, marker, cls, meth);
    }
  }

  lemma BodyIgnoresMarkers<T>(roots: seq<ModuleDesc>, m1: map<string, string>, m2: map<string, string>,
                              marker: string -> seq<T>, cls: ClassDesc -> seq<T>, meth: MethodDesc -> seq<T>)
    requires forall v :: marker(v) == []
    ensures Body(roots, m1, marker, cls, meth) == Body(roots, m2, marker, cls, meth)
  {
    ModulesIgnoreMarkers(Traverse(roots), m1, m2, marker, cls, meth);
  }

  /** A hook adding the same number of fragments for every method adds
      that many times the number of methods. */
  lemma {:induction false} MethodsOutLength<T>(ms: seq<MethodDesc>, meth: MethodDesc -> seq<T>, n: nat)
    requires forall m :: |meth(m)| == n
    ensures |MethodsOut(ms, meth)| == n * |ms|
    decreases |ms|
  {
    if ms != [] {
      MethodsOutLength(ms[..|ms| - 1], meth, n);
      assert n * |ms| == n * (|ms| - 1) + n;
    }
  }

  /** Every fragment satisfies `p`. */
  predicate AllOf<T>(s: seq<T>, p: T -> bool) {
    forall i :: 0 <= i < |s| ==> p(s[i])
  }

  lemma AllOfAppend<T>(a: seq<T>, b: seq<T>, p: T -> bool)
    requires AllOf(a, p) && AllOf(b, p)
    ensures AllOf(a + b, p)
  {
    forall i | 0 <= i < |a + b|
      ensures p((a + b)[i])
    {
      if i >= |a| {
        assert (a + b)[i] == b[i - |a|];
      }
    }
  }

  /** Hooks whose fragments all satisfy `p` build a body whose fragments
      all satisfy `p`. */
  lemma BodyAll<T>(roots: seq<ModuleDesc>, markers: map<string, string>, marker: string -> seq<T>,
                   cls: ClassDesc -> seq<T>, meth: MethodDesc -> seq<T>, p: T -> bool)
    requires forall v :: AllOf(marker(v), p)
    requires forall c :: AllOf(cls(c), p)
    requires forall m :: AllOf(meth(m), p)
    ensures AllOf(Body(roots, markers, marker, cls, meth), p)
  {
    ModulesAll(Traverse(roots), markers, marker, cls, meth, p);
  }

  lemma {:induction false} ModulesAll<T>(mods: seq<ModuleDesc>, markers: map<string, string>, marker: string -> seq<T>,
                                         cls: ClassDesc -> seq<T>, meth: MethodDesc -> seq<T>, p: T -> bool)
    requires forall v :: AllOf(marker(v), p)
    requires forall c :: AllOf(cls(c), p)
    requires forall m :: AllOf(meth(m), p)
    ensures AllOf(ModulesOut(mods, markers, marker, cls, meth), p)
    decreases |mods|
  {
    if mods != [] {
      ModulesAll(mods[..|mods| - 1], markers, marker, cls, meth, p);
      ClassesAll(mods[|mods| - 1].classes, markers, marker, cls, meth, p);
      AllOfAppend(ModulesOut(mods[..|mods| - 1], markers, marker, cls, meth),
        ClassesOut(mods[|mods| - 1].classes, markers, marker, cls, meth), p);
    }
  }

  lemma {:induction false} ClassesAll<T>(cs: seq<ClassDesc>, markers: map<string, string>, marker: string -> seq<T>,
                                         cls: ClassDesc -> seq<T>, meth: MethodDesc -> seq<T>, p: T -> bool)
    requires forall v :: AllOf(marker(v), p)
    requires forall c :: AllOf(cls(c), p)
    requires forall m :: AllOf(meth(m), p)
    ensures AllOf(ClassesOut(cs, markers, marker, cls, meth), p)
    decreases |cs|
  {
    if cs != [] {
      var c := cs[|cs| - 1];
      ClassesAll(cs[..|cs| - 1], markers, marker, cls, meth, p);
      MethodsAll(c.methods, meth, p);
      assert AllOf(MarkerOut(c, markers, marker), p);
      AllOfAppend(MarkerOut(c, markers, marker), cls(c), p);
      AllOfAppend(MarkerOut(c, markers, marker) + cls(c), MethodsOut(c.methods, meth), p);
      AllOfAppend(ClassesOut(cs[..|cs| - 1], markers, marker, cls, meth), ClassOut(c, markers, marker, cls, meth), p);
    }
  }

  lemma {:induction false} MethodsAll<T>(ms: seq<MethodDesc>, meth: MethodDesc -> seq<T>, p: T -> bool)
    requires forall m :: AllOf(meth(m), p)
    ensures AllOf(MethodsOut(ms, meth), p)
    decreases |ms|
  {
    if ms != [] {
      MethodsAll(ms[..|ms| - 1], meth, p);
      AllOfAppend(MethodsOut(ms[..|ms| - 1], meth), meth(ms[|ms| - 1]), p);
    }
  }

  /** The fragments of a single module holding a single class. */
  lemma SingleClass<T>(c: ClassDesc, markers: map<string, string>, marker: string -> seq<T>,
                       cls: ClassDesc -> seq<T>, meth: MethodDesc -> seq<T>)
    ensures Body([ModuleDesc([c], [])], markers, marker, cls, meth) == ClassOut(c, markers, marker, cls, meth)
  {
    var root := ModuleDesc([c], []);
    assert [root][1..] == [];
    assert Traverse([root]) == [root];
    assert [root][..0] == [];
    assert [c][..0] == [];
    assert ModulesOut([root], markers, marker, cls, meth) == [] + ClassesOut([c], markers, marker, cls, meth);
    assert ClassesOut([c], markers, marker, cls, meth) == [] + ClassOut(c, markers, marker, cls, meth);
  }

  /** A single method contributes its own fragments. */
  lemma MethodsOutSingle<T>(ms: seq<MethodDesc>, meth: MethodDesc -> seq<T>)
    requires |ms| == 1
    ensures MethodsOut(ms, meth) == meth(ms[0])
  {
    assert ms[..0] == [];
    assert MethodsOut(ms, meth) == [] + meth(ms[0]);
  }

  /** Without markers, a module holding a single class with a single method
      gives the class's fragments, then the method's. */
  lemma SoleMethod<T>(c: ClassDesc, marker: string -> seq<T>, cls: ClassDesc -> seq<T>, meth: MethodDesc -> seq<T>)
    requires |c.methods| == 1
    ensures Body([ModuleDesc([c], [])], map[], marker, cls, meth) == cls(c) + meth(c.methods[0])
  {
    SingleClass(c, map[], marker, cls, meth);
    assert MarkerOut(c, map[], marker) == [];
    ClassOutUnmarked(c, map[], marker, cls, meth);
    MethodsOutSingle(c.methods, meth);
  }
}
