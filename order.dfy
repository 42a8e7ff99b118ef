/** The ordering `DotFormatter._format` sorts its fragments by: a fragment
    is a (kind code, message) pair and pairs compare as Python tuples do,
    first the code, then the message in code-point order. `list.sort` is the
    library's; the model sorts by insertion and shows that a sorted
    permutation is unique, so any correct sort gives the same list. */
module Order {

  datatype Frag = Frag(code: int, message: string)

  /** Python's `<` on strings: lexicographic on code points, a proper prefix
      first. */
  predicate StrLt(a: string, b: string)
    decreases |a|
  {
    b != [] && (a == [] || a[0] < b[0] || (a[0] == b[0] && StrLt(a[1..], b[1..])))
  }

  lemma {:induction false} StrLtIrreflexive(a: string)
    ensures !StrLt(a, a)
    decreases |a|
  {
    if a != [] {
      StrLtIrreflexive(a[1..]);
    }
  }

  lemma {:induction false} StrLtTransitive(a: string, b: string, c: string)
    requires StrLt(a, b) && StrLt(b, c)
    ensures StrLt(a, c)
    decreases |a|
  {
    if a != [] && a[0] == b[0] && b[0] == c[0] {
      StrLtTransitive(a[1..], b[1..], c[1..]);
    }
  }

  lemma {:induction false} StrLtTotal(a: string, b: string)
    ensures a == b || StrLt(a, b) || StrLt(b, a)
    decreases |a|
  {
    if a != [] && b != [] && a[0] == b[0] {
      StrLtTotal(a[1..], b[1..]);
      if a[1..] == b[1..] {
        assert a == [a[0]] + a[1..] && b == [b[0]] + b[1..];
      }
    }
  }

  predicate FragLt(x: Frag, y: Frag) {
    x.code < y.code || (x.code == y.code && StrLt(x.message, y.message))
  }

  predicate FragLe(x: Frag, y: Frag) {
    x == y || FragLt(x, y)
  }

  lemma FragLeTotal(x: Frag, y: Frag)
    ensures FragLe(x, y) || FragLe(y, x)
  {
    StrLtTotal(x.message, y.message);
  }

  lemma FragLeTransitive(x: Frag, y: Frag, z: Frag)
    requires FragLe(x, y) && FragLe(y, z)
    ensures FragLe(x, z)
  {
    if x != y && y != z && x.code == y.code && y.code == z.code {
      StrLtTransitive(x.message, y.message, z.message);
    }
  }

  lemma FragLeAntisymmetric(x: Frag, y: Frag)
    requires FragLe(x, y) && FragLe(y, x)
    ensures x == y
  {
    if x != y {
      StrLtIrreflexive(x.message);
      if x.code == y.code {
        StrLtTransitive(x.message, y.message, x.message);
      }
    }
  }

  predicate Sorted(s: seq<Frag>) {
    forall i, j :: 0 <= i < j < |s| ==> FragLe(s[i], s[j])
  }

  // ---------------------------------------------------------------------
  // Insertion sort

  function Insert(x: Frag, s: seq<Frag>): (r: seq<Frag>)
    ensures multiset(r) == multiset(s) + multiset{x}
    decreases |s|
  {
    if s == [] then [x]
    else if FragLe(x, s[0]) then [x] + s
    else
      assert s == [s[0]] + s[1..];
      [s[0]] + Insert(x, s[1..])
  }

  /** The fragments in ascending order. */
  function SortFrags(s: seq<Frag>): (r: seq<Frag>)
    ensures multiset(r) == multiset(s)
    decreases |s|
  {
    if s == [] then []
    else
      assert s == [s[0]] + s[1..];
      Insert(s[0], SortFrags(s[1..]))
  }

  lemma {:induction false} InsertSorted(x: Frag, s: seq<Frag>)
    requires Sorted(s)
    ensures Sorted(Insert(x, s))
    decreases |s|
  {
    if s == [] {
    } else if FragLe(x, s[0]) {
      forall y | y in s
        ensures FragLe(x, y)
      {
        var j :| 0 <= j < |s| && s[j] == y;
        if j > 0 {
          FragLeTransitive(x, s[0], s[j]);
        }
      }
      SortedCons(x, s);
    } else {
      FragLeTotal(x, s[0]);
      SortedRest(s);
      InsertSorted(x, s[1..]);
      var t := Insert(x, s[1..]);
      forall y | y in t
        ensures FragLe(s[0], y)
      {
        assert y in multiset(t);
        if y != x {
          assert y in multiset(s[1..]);
        }
      }
      SortedCons(s[0], t);
    }
  }

  lemma {:induction false} SortFragsSorted(s: seq<Frag>)
    ensures Sorted(SortFrags(s))
    decreases |s|
  {
    if s != [] {
      SortFragsSorted(s[1..]);
      InsertSorted(s[0], SortFrags(s[1..]));
    }
  }

  /** Two sorted lists holding the same fragments are equal. */
  lemma {:induction false} SortedUnique(a: seq<Frag>, b: seq<Frag>)
    requires Sorted(a) && Sorted(b) && multiset(a) == multiset(b)
    ensures a == b
    decreases |a|
  {
    assert |a| == |multiset(a)| == |multiset(b)| == |b|;
    if a != [] {
      SortedFirst(a, b[0]);
      SortedFirst(b, a[0]);
      FragLeAntisymmetric(a[0], b[0]);
      SortedTail(a);
      SortedTail(b);
      SortedUnique(a[1..], b[1..]);
      assert a == [a[0]] + a[1..] && b == [b[0]] + b[1..];
    }
  }

  /** The first fragment of a sorted list is at most any of its fragments. */
  lemma SortedFirst(a: seq<Frag>, x: Frag)
    requires Sorted(a) && x in multiset(a)
    ensures FragLe(a[0], x)
  {
    var i :| 0 <= i < |a| && a[i] == x;
    if i > 0 {
      assert FragLe(a[0], a[i]);
    }
  }

  lemma SortedTail(a: seq<Frag>)
    requires Sorted(a) && a != []
    ensures Sorted(a[1..])
    ensures multiset(a[1..]) == multiset(a) - multiset{a[0]}
  {
    assert a == [a[0]] + a[1..];
    forall i, j | 0 <= i < j < |a[1..]|
      ensures FragLe(a[1..][i], a[1..][j])
    {
      assert a[1..][i] == a[i + 1] && a[1..][j] == a[j + 1];
    }
  }

  /** Past its first fragment a sorted list stays sorted, and every later
      fragment is at least the first. */
  lemma SortedRest(a: seq<Frag>)
    requires Sorted(a) && a != []
    ensures Sorted(a[1..])
    ensures forall y :: y in a[1..] ==> FragLe(a[0], y)
  {
    forall i, j | 0 <= i < j < |a[1..]|
      ensures FragLe(a[1..][i], a[1..][j])
    {
      assert a[1..][i] == a[i + 1] && a[1..][j] == a[j + 1];
    }
    forall y | y in a[1..]
      ensures FragLe(a[0], y)
    {
      var i :| 0 <= i < |a[1..]| && a[1..][i] == y;
      assert a[i + 1] == y;
    }
  }

  /** A fragment at most every fragment of a sorted list can go in front. */
  lemma SortedCons(x: Frag, t: seq<Frag>)
    requires Sorted(t) && forall y :: y in t ==> FragLe(x, y)
    ensures Sorted([x] + t)
  {
    var r := [x] + t;
    forall i, j | 0 <= i < j < |r|
      ensures FragLe(r[i], r[j])
    {
      assert r[j] == t[j - 1];
      if i > 0 {
        assert r[i] == t[i - 1];
      }
    }
  }

  /** Sorting gives the one sorted permutation of the fragments. */
  lemma SortFragsUnique(s: seq<Frag>, t: seq<Frag>)
    requires Sorted(t) && multiset(t) == multiset(s)
    ensures SortFrags(s) == t
  {
    SortFragsSorted(s);
    SortedUnique(SortFrags(s), t);
  }
}
