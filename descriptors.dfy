/** What the formatters read from the introspected modules: a tree of
    modules, each holding its classes in declared order; a class has a name,
    a docstring that may be missing, its ancestors in method-resolution
    order (itself excluded) and its own methods in declared order. */
module Descriptors {
  import opened Wrappers

  datatype MethodDesc = MethodDesc(name: string, params: seq<string>, returnType: string, docstring: string)

  datatype ClassDesc = ClassDesc(name: string, doc: Option<string>, ancestors: seq<string>, methods: seq<MethodDesc>)

  datatype ModuleDesc = ModuleDesc(classes: seq<ClassDesc>, submodules: seq<ModuleDesc>)

  /** `str(clazz.obj.__doc__)`: a missing docstring is rendered as `None`. */
  function ClassDoc(c: ClassDesc): (r: string)
    ensures c.doc.None? ==> r == "None"
    ensures c.doc.Some? ==> r == c.doc.value
  {
    match c.doc
    case None => "None"
    case Some(d) => d
  }

  // ---------------------------------------------------------------------
  // traverse

  /** `traverse`: every module, then (recursively) its submodules, in
      pre-order, root after root. */
  function Traverse(mods: seq<ModuleDesc>): seq<ModuleDesc>
    decreases mods
  {
    if mods == [] then []
    else [mods[0]] + Traverse(mods[0].submodules) + Traverse(mods[1..])
  }

  /** The number of modules in a forest. */
  function Size(mods: seq<ModuleDesc>): nat
    decreases mods
  {
    if mods == [] then 0 else 1 + Size(mods[0].submodules) + Size(mods[1..])
  }

  /** Traversal visits every module of the forest exactly once in count. */
  lemma {:induction false} TraverseSize(mods: seq<ModuleDesc>)
    ensures |Traverse(mods)| == Size(mods)
    decreases mods
  {
    if mods != [] {
      TraverseSize(mods[0].submodules);
      TraverseSize(mods[1..]);
    }
  }

  /** Traversing two forests one after the other is traversing their
      concatenation. */
  lemma {:induction false} TraverseAppend(a: seq<ModuleDesc>, b: seq<ModuleDesc>)
    ensures Traverse(a + b) == Traverse(a) + Traverse(b)
    decreases a
  {
    if a == [] {
      assert a + b == b;
    } else {
      assert (a + b)[0] == a[0] && (a + b)[1..] == a[1..] + b;
      TraverseAppend(a[1..], b);
    }
  }

  /** Every root is visited, and before everything below it. */
  lemma {:induction false} TraverseRoots(mods: seq<ModuleDesc>, i: nat)
    requires i < |mods|
    ensures Traverse(mods) == Traverse(mods[..i]) + [mods[i]] + Traverse(mods[i].submodules) + Traverse(mods[i + 1..])
    decreases i
  {
    if i == 0 {
      assert mods[..0] == [];
    } else {
      TraverseRoots(mods[1..], i - 1);
      assert mods[1..][..i - 1] == mods[1..i];
      assert mods[1..][i - 1] == mods[i] && mods[1..][i..] == mods[i + 1..];
      assert mods[..i] == [mods[0]] + mods[1..i];
      TraverseAppend([mods[0]], mods[1..i]);
      assert [mods[0]][1..] == [];
    }
  }

  /** Visiting is closed under taking submodules: every module below a
      visited one is visited too. */
  lemma TraverseSubmodule(mods: seq<ModuleDesc>, m: ModuleDesc, i: nat)
    requires m in Traverse(mods) && i < |m.submodules|
    ensures m.submodules[i] in Traverse(mods)
  {
    var j := TraverseIndex(mods, m);
    TraverseBelow(mods, j, i);
  }

  /** Where a visited module sits in the traversal. */
  lemma TraverseIndex(mods: seq<ModuleDesc>, m: ModuleDesc) returns (j: nat)
    requires m in Traverse(mods)
    ensures j < |Traverse(mods)| && Traverse(mods)[j] == m
  {
    j :| j < |Traverse(mods)| && Traverse(mods)[j] == m;
  }

  /** The submodules of the module visited at `j` come right after it, in
      their own traversal. */
  lemma {:induction false} TraverseBelow(mods: seq<ModuleDesc>, j: nat, i: nat)
    requires j < |Traverse(mods)| && i < |Traverse(mods)[j].submodules|
    ensures Traverse(mods)[j].submodules[i] in Traverse(mods)
    decreases mods
  {
    var t0, t1 := Traverse(mods[0].submodules), Traverse(mods[1..]);
    assert Traverse(mods) == [mods[0]] + t0 + t1;
    if j == 0 {
      TraverseRoots(mods[0].submodules, i);
      assert mods[0].submodules[i] in t0;
    } else if j <= |t0| {
      assert Traverse(mods)[j] == t0[j - 1];
      TraverseBelow(mods[0].submodules, j - 1, i);
    } else {
      assert Traverse(mods)[j] == t1[j - 1 - |t0|];
      TraverseBelow(mods[1..], j - 1 - |t0|, i);
    }
  }

  // ---------------------------------------------------------------------
  // traverse as written

  /** `traverse` as written recurses with `traverse(submod)`, handing a
      single module where an iterable of modules is expected; iterating a
      module fails, so the traversal fails (`None`) as soon as a visited
      module has a submodule, and lists only the roots otherwise. */
  function TraverseAsWritten(mods: seq<ModuleDesc>): (r: Option<seq<ModuleDesc>>)
    decreases |mods|
  {
    if mods == [] then Some([])
    else if mods[0].submodules != [] then None
    else match TraverseAsWritten(mods[1..])
      case None => None
      case Some(rest) => Some([mods[0]] + rest)
  }

  /** Flat forests are traversed as intended. */
  lemma {:induction false} TraverseAsWrittenFlat(mods: seq<ModuleDesc>)
    requires forall i :: 0 <= i < |mods| ==> mods[i].submodules == []
    ensures TraverseAsWritten(mods) == Some(Traverse(mods))
    decreases |mods|
  {
    if mods != [] {
      assert forall i :: 0 <= i < |mods| - 1 ==> mods[1..][i] == mods[i + 1];
      TraverseAsWrittenFlat(mods[1..]);
      assert mods[0].submodules == [];
      assert Traverse(mods) == [mods[0]] + [] + Traverse(mods[1..]);
      assert [mods[0]] + [] == [mods[0]];
    }
  }

  /** A single package with one submodule: the intended traversal visits
      both, the traversal as written fails. */
  lemma TraverseAsWrittenFails(leaf: ModuleDesc)
    ensures var root := ModuleDesc([], [leaf]);
      TraverseAsWritten([root]) == None && Traverse([root]) == [root] + Traverse([leaf])
  {
    var root := ModuleDesc([], [leaf]);
    assert [root][1..] == [];
  }
}
