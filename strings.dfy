/** The handful of Python `str` operations the documentation pipeline relies
    on, each specified by what it computes rather than by how. */
module Strings {

  /** Python's `str.isspace()` for a single character: the characters
      CPython's `strip()` and `rstrip()` remove by default. */
  predicate IsSpace(c: char) {
    c == ' ' || ('\t' <= c <= '\r') || ('\U{1c}' <= c <= '\U{1f}')
    || c == '\U{85}' || c == '\U{a0}' || c == '\U{1680}'
    || ('\U{2000}' <= c <= '\U{200a}') || c == '\U{2028}' || c == '\U{2029}'
    || c == '\U{202f}' || c == '\U{205f}' || c == '\U{3000}'
  }

  lemma Assoc(a: string, b: string, c: string)
    ensures a + b + c == a + (b + c)
  {
  }

  predicate StartsWith(s: string, prefix: string) {
    |prefix| <= |s| && s[..|prefix|] == prefix
  }

  predicate EndsWith(s: string, suffix: string) {
    |suffix| <= |s| && s[|s| - |suffix|..] == suffix
  }

  lemma EndsWithConcat(a: string, b: string)
    ensures EndsWith(a + b, b)
  {
    assert (a + b)[|a|..] == b;
  }

  /** `s.rstrip()`: `s` without its trailing whitespace. */
  function RStrip(s: string): string
    decreases |s|
  {
    if |s| == 0 || !IsSpace(s[|s| - 1]) then s else RStrip(s[..|s| - 1])
  }

  /** `s.lstrip()`: `s` without its leading whitespace. */
  function LStrip(s: string): string
    decreases |s|
  {
    if |s| == 0 || !IsSpace(s[0]) then s else LStrip(s[1..])
  }

  /** `s.strip()`. */
  function Strip(s: string): string {
    RStrip(LStrip(s))
  }

  /** `RStrip` keeps the longest prefix that does not end in whitespace: all
      that it drops is whitespace. */
  lemma {:induction false} RStripSpec(s: string)
    ensures RStrip(s) <= s
    ensures RStrip(s) == [] || !IsSpace(RStrip(s)[|RStrip(s)| - 1])
    ensures forall i :: |RStrip(s)| <= i < |s| ==> IsSpace(s[i])
    decreases |s|
  {
    if |s| > 0 && IsSpace(s[|s| - 1]) {
      RStripSpec(s[..|s| - 1]);
    }
  }

  /** `LStrip` keeps the longest suffix that does not start with
      whitespace: all that it drops is whitespace. */
  lemma {:induction false} LStripSpec(s: string)
    ensures |LStrip(s)| <= |s| && LStrip(s) == s[|s| - |LStrip(s)|..]
    ensures LStrip(s) == [] || !IsSpace(LStrip(s)[0])
    ensures forall i :: 0 <= i < |s| - |LStrip(s)| ==> IsSpace(s[i])
    decreases |s|
  {
    if |s| > 0 && IsSpace(s[0]) {
      LStripSpec(s[1..]);
    }
  }

  /** A string made only of whitespace strips to the empty string. */
  lemma {:induction false} BlankStrips(s: string)
    requires forall i :: 0 <= i < |s| ==> IsSpace(s[i])
    ensures RStrip(s) == [] && LStrip(s) == [] && Strip(s) == []
    decreases |s|
  {
    if s != [] {
      BlankStrips(s[..|s| - 1]);
      BlankStrips(s[1..]);
    }
  }

  /** `s.replace(pat, rep)`: every occurrence of `pat`, found scanning left to
      right without overlaps, is replaced by `rep`. */
  function Replace(s: string, pat: string, rep: string): string
    requires |pat| > 0
    decreases |s|
  {
    if |s| < |pat| then s
    else if s[..|pat|] == pat then rep + Replace(s[|pat|..], pat, rep)
    else [s[0]] + Replace(s[1..], pat, rep)
  }

  /** A string that lacks some character of `pat` has no occurrence of it and
      is left as it is. */
  lemma {:induction false} ReplaceAbsent(s: string, pat: string, rep: string, c: char)
    requires |pat| > 0 && c in pat && c !in s
    ensures Replace(s, pat, rep) == s
    decreases |s|
  {
    if |s| >= |pat| {
      ReplaceAbsent(s[1..], pat, rep, c);
    }
  }

  /** A prefix that cannot start an occurrence of `pat` passes through. */
  lemma {:induction false} ReplaceKeepsPrefix(x: string, w: string, pat: string, rep: string)
    requires |pat| > 0 && pat[0] !in x
    ensures Replace(x + w, pat, rep) == x + Replace(w, pat, rep)
    decreases |x|
  {
    if x == [] {
      assert x + w == w;
    } else {
      var s := x + w;
      assert |s| >= |pat| ==> s[..|pat|] != pat by {
        if |s| >= |pat| {
          assert s[..|pat|][0] == x[0];
        }
      }
      ReplaceFront(s, pat, rep);
      assert s[0] == x[0] && s[1..] == x[1..] + w;
      ReplaceKeepsPrefix(x[1..], w, pat, rep);
      assert x == [x[0]] + x[1..];
    }
  }

  lemma ReplaceShort(s: string, pat: string, rep: string)
    requires |pat| > 0 && |s| < |pat|
    ensures Replace(s, pat, rep) == s
  {
  }

  /** A suffix whose first character does not occur in `pat`, and which
      cannot start an occurrence itself, passes through, and no occurrence
      straddles it. */
  lemma {:induction false} ReplaceKeepsSuffix(y: string, z: string, pat: string, rep: string)
    requires |pat| > 0 && pat[0] !in z && (z == [] || z[0] !in pat)
    ensures Replace(y + z, pat, rep) == Replace(y, pat, rep) + z
    decreases |y|
  {
    var s := y + z;
    if y == [] {
      assert s == z + [];
      ReplaceKeepsPrefix(z, [], pat, rep);
    } else if |s| < |pat| {
      ReplaceShort(y, pat, rep);
    } else {
      var hit := s[..|pat|] == pat;
      if |y| < |pat| {
        assert !hit by {
          assert s[..|pat|][|y|] == z[0];
        }
        ReplaceShort(y, pat, rep);
        ReplaceShort(y[1..], pat, rep);
        ReplaceSuffixStep(y, z, pat, rep);
      } else if hit {
        assert y[..|pat|] == pat;
        assert s[|pat|..] == y[|pat|..] + z;
        ReplaceKeepsSuffix(y[|pat|..], z, pat, rep);
      } else {
        assert y[..|pat|] == s[..|pat|];
        ReplaceSuffixStep(y, z, pat, rep);
      }
    }
  }

  /** One step of `ReplaceKeepsSuffix` when no occurrence starts at the front. */
  lemma {:induction false} ReplaceSuffixStep(y: string, z: string, pat: string, rep: string)
    requires |pat| > 0 && pat[0] !in z && (z == [] || z[0] !in pat)
    requires y != [] && |y + z| >= |pat| && (y + z)[..|pat|] != pat
    requires |y| >= |pat| ==> y[..|pat|] != pat
    ensures Replace(y + z, pat, rep) == Replace(y, pat, rep) + z
    decreases |y|, 0
  {
    var s := y + z;
    assert s[1..] == y[1..] + z;
    ReplaceKeepsSuffix(y[1..], z, pat, rep);
    assert Replace(s, pat, rep) == [y[0]] + (Replace(y[1..], pat, rep) + z);
    ReplaceFront(y, pat, rep);
  }

  /** Where no occurrence starts at the front, the first character is kept. */
  lemma ReplaceFront(y: string, pat: string, rep: string)
    requires |pat| > 0 && y != []
    requires |y| >= |pat| ==> y[..|pat|] != pat
    ensures Replace(y, pat, rep) == [y[0]] + Replace(y[1..], pat, rep)
  {
    if |y| < |pat| {
      ReplaceShort(y, pat, rep);
      ReplaceShort(y[1..], pat, rep);
      assert y == [y[0]] + y[1..];
    }
  }

  /** `Replace` only rewrites the middle of `x + y + z` when neither `x` nor
      `z` can take part in an occurrence. */
  lemma ReplaceInside(x: string, y: string, z: string, pat: string, rep: string)
    requires |pat| > 0 && pat[0] !in x && pat[0] !in z && (z == [] || z[0] !in pat)
    ensures Replace(x + y + z, pat, rep) == x + Replace(y, pat, rep) + z
  {
    assert x + y + z == x + (y + z);
    ReplaceKeepsPrefix(x, y + z, pat, rep);
    ReplaceKeepsSuffix(y, z, pat, rep);
  }

  /** Replacing a single character distributes over concatenation. */
  lemma {:induction false} ReplaceCharConcat(a: string, b: string, c: char, rep: string)
    ensures Replace(a + b, [c], rep) == Replace(a, [c], rep) + Replace(b, [c], rep)
    decreases |a|
  {
    if a == [] {
      assert a + b == b;
    } else {
      var s := a + b;
      assert s[..1] == a[..1];
      assert s[1..] == a[1..] + b;
      ReplaceCharConcat(a[1..], b, c, rep);
      var head := if a[..1] == [c] then rep else [a[0]];
      assert Replace(s, [c], rep) == head + Replace(s[1..], [c], rep);
      assert Replace(a, [c], rep) == head + Replace(a[1..], [c], rep);
    }
  }

  /** Replacing a single character by a string without it removes it. */
  lemma {:induction false} ReplaceCharGone(s: string, c: char, rep: string)
    requires c !in rep
    ensures c !in Replace(s, [c], rep)
    decreases |s|
  {
    if s != [] {
      ReplaceCharGone(s[1..], c, rep);
    }
  }

  /** `pat in s` for a non-empty `pat`: some suffix of `s` starts with it. */
  predicate Contains(s: string, pat: string) {
    exists i :: 0 <= i <= |s| && StartsWith(s[i..], pat)
  }

  /** A string lacking some character of `pat` does not contain `pat`. */
  lemma ContainsNoChar(s: string, pat: string, c: char)
    requires c in pat && c !in s
    ensures !Contains(s, pat)
  {
    forall i | 0 <= i <= |s|
      ensures !StartsWith(s[i..], pat)
    {
      var j :| 0 <= j < |pat| && pat[j] == c;
      if i + j < |s| {
        assert s[i + j] != c;
        assert |pat| <= |s[i..]| ==> s[i..][..|pat|][j] == s[i + j];
      }
    }
  }

  /** A front part that lacks the first character of `pat` adds no
      occurrence of it. */
  lemma NotContainedFront(x: string, y: string, pat: string)
    requires |pat| > 0 && pat[0] !in x && !Contains(y, pat)
    ensures !Contains(x + y, pat)
  {
    var s := x + y;
    forall i | 0 <= i <= |s|
      ensures !StartsWith(s[i..], pat)
    {
      if i < |x| {
        assert |pat| <= |s[i..]| ==> s[i..][..|pat|][0] == x[i];
      } else {
        assert s[i..] == y[i - |x|..];
      }
    }
  }

  /** No occurrence of `pat` crosses a character that `pat` lacks. */
  lemma NotContainedSep(x: string, c: char, y: string, pat: string)
    requires c !in pat && !Contains(x, pat) && !Contains(y, pat)
    ensures !Contains(x + [c] + y, pat)
  {
    var s := x + [c] + y;
    forall i | 0 <= i <= |s|
      ensures !StartsWith(s[i..], pat)
    {
      if i + |pat| <= |x| {
        assert x[i..][..|pat|] == s[i..][..|pat|];
      } else if i > |x| {
        assert s[i..] == y[i - |x| - 1..];
      } else if i + |pat| <= |s| {
        assert s[i..][..|pat|][|x| - i] == c;
      }
    }
  }

  /** The tail of a string that does not contain `pat` does not either. */
  lemma NotContainedTail(s: string, pat: string)
    requires s != [] && !Contains(s, pat)
    ensures !Contains(s[1..], pat)
  {
    forall i | 0 <= i <= |s[1..]|
      ensures !StartsWith(s[1..][i..], pat)
    {
      assert s[1..][i..] == s[i + 1..];
    }
  }

  /** A string that does not contain `pat` is left as it is. */
  lemma {:induction false} ReplaceNotContained(s: string, pat: string, rep: string)
    requires |pat| > 0 && !Contains(s, pat)
    ensures Replace(s, pat, rep) == s
    decreases |s|
  {
    if |s| >= |pat| {
      assert s[0..] == s;
      NotContainedTail(s, pat);
      ReplaceNotContained(s[1..], pat, rep);
      assert s == [s[0]] + s[1..];
    }
  }

  /** Replacement works separately on both sides of a character that `pat`
      lacks, since no occurrence can include it. */
  lemma {:induction false} ReplaceAroundSep(x: string, c: char, y: string, pat: string, rep: string)
    requires |pat| > 0 && c !in pat
    ensures Replace(x + [c] + y, pat, rep) == Replace(x, pat, rep) + [c] + Replace(y, pat, rep)
    decreases |x|
  {
    var s := x + [c] + y;
    if |x| < |pat| <= |s| {
      SepNotInPrefix(x, c, y, pat);
    }
    if x == [] {
      assert s == [c] + y;
      ReplaceKeepsPrefix([c], y, pat, rep);
    } else if |s| < |pat| {
      ReplaceShort(x, pat, rep);
      ReplaceShort(y, pat, rep);
    } else if s[..|pat|] == pat {
      assert x[..|pat|] == pat;
      assert s[|pat|..] == x[|pat|..] + [c] + y;
      ReplaceAroundSep(x[|pat|..], c, y, pat, rep);
    } else {
      if |x| >= |pat| {
        assert s[..|pat|] == x[..|pat|];
      }
      ReplaceFront(x, pat, rep);
      assert s[1..] == x[1..] + [c] + y;
      ReplaceAroundSep(x[1..], c, y, pat, rep);
    }
  }

  /** An occurrence at the front cannot reach over a character `pat` lacks. */
  lemma SepNotInPrefix(x: string, c: char, y: string, pat: string)
    requires c !in pat && |x| < |pat| <= |x| + 1 + |y|
    ensures (x + [c] + y)[..|pat|] != pat
  {
    assert (x + [c] + y)[..|pat|][|x|] == c;
  }

  /** `sep.join(xs)`. */
  function Join(xs: seq<string>, sep: string): string
    decreases |xs|
  {
    if |xs| == 0 then []
    else if |xs| == 1 then xs[0]
    else xs[0] + sep + Join(xs[1..], sep)
  }

  /** `s.split(sep)` for a one-character separator: the pieces between
      separators, always at least one, never containing the separator, and
      joined back by the separator they give `s` again. */
  function Split(s: string, sep: char): (r: seq<string>)
    ensures |r| >= 1
    ensures forall i :: 0 <= i < |r| ==> sep !in r[i]
    ensures Join(r, [sep]) == s
    decreases |s|
  {
    if s == [] then [[]]
    else
      var rest := Split(s[1..], sep);
      if s[0] == sep then
        assert Join([[]] + rest, [sep]) == [sep] + Join(rest, [sep]) by {
          assert ([[]] + rest)[1..] == rest;
        }
        [[]] + rest
      else
        var r := [[s[0]] + rest[0]] + rest[1..];
        assert Join(r, [sep]) == s by {
          if |rest| > 1 {
            assert Join(rest, [sep]) == rest[0] + [sep] + Join(rest[1..], [sep]);
            assert r[1..] == rest[1..];
          }
          assert s == [s[0]] + s[1..];
        }
        r
  }

  /** A string without the separator is a single piece. */
  lemma SplitPlain(s: string, sep: char)
    requires sep !in s
    ensures Split(s, sep) == [s]
  {
  }

  /** The piece before the first separator is split off first. */
  lemma {:induction false} SplitFirst(a: string, b: string, sep: char)
    requires sep !in a
    ensures Split(a + [sep] + b, sep) == [a] + Split(b, sep)
    decreases |a|
  {
    var s := a + [sep] + b;
    if a == [] {
      assert s[0] == sep && s[1..] == b;
    } else {
      assert s[0] == a[0] && s[1..] == a[1..] + [sep] + b;
      SplitFirst(a[1..], b, sep);
      assert [a[0]] + a[1..] == a;
    }
  }

  /** Splitting undoes joining, for pieces without the separator. */
  lemma {:induction false} SplitJoin(xs: seq<string>, sep: char)
    requires |xs| >= 1
    requires forall i :: 0 <= i < |xs| ==> sep !in xs[i]
    ensures Split(Join(xs, [sep]), sep) == xs
    decreases |xs|
  {
    if |xs| == 1 {
      SplitPlain(xs[0], sep);
    } else {
      SplitJoin(xs[1..], sep);
      SplitFirst(xs[0], Join(xs[1..], [sep]), sep);
    }
  }

  /** Backslash-escaping of two characters in one left-to-right pass: each
      `c1` or `c2` becomes a backslash followed by itself. */
  function Escape(s: string, c1: char, c2: char): string
    decreases |s|
  {
    if s == [] then [] else EscapeChar(s[0], c1, c2) + Escape(s[1..], c1, c2)
  }

  function EscapeChar(c: char, c1: char, c2: char): string {
    if c == c1 || c == c2 then ['\\', c] else [c]
  }

  /** Every `c1` and every `c2` in `s` is immediately preceded by a backslash. */
  predicate Escaped(s: string, c1: char, c2: char) {
    forall i :: 0 <= i < |s| && (s[i] == c1 || s[i] == c2) ==> i > 0 && s[i - 1] == '\\'
  }

  lemma {:induction false} EscapeConcat(a: string, b: string, c1: char, c2: char)
    ensures Escape(a + b, c1, c2) == Escape(a, c1, c2) + Escape(b, c1, c2)
    decreases |a|
  {
    if a == [] {
      assert a + b == b;
    } else {
      assert (a + b)[0] == a[0] && (a + b)[1..] == a[1..] + b;
      EscapeConcat(a[1..], b, c1, c2);
    }
  }

  /** Two chained single-character `replace` calls are that one pass. */
  lemma {:induction false} EscapeByReplace(s: string, c1: char, c2: char)
    requires c1 != c2 && c1 != '\\' && c2 != '\\'
    ensures Replace(Replace(s, [c1], ['\\', c1]), [c2], ['\\', c2]) == Escape(s, c1, c2)
    decreases |s|
  {
    if s != [] {
      var head1 := if s[0] == c1 then ['\\', c1] else [s[0]];
      var once := Replace(s, [c1], ['\\', c1]);
      assert s[..1] == [s[0]];
      assert once == head1 + Replace(s[1..], [c1], ['\\', c1]);
      ReplaceCharConcat(head1, Replace(s[1..], [c1], ['\\', c1]), c2, ['\\', c2]);
      if s[0] == c1 {
        ReplaceAbsent(head1, [c2], ['\\', c2], c2);
      } else {
        assert head1[..1] == head1;
      }
      EscapeByReplace(s[1..], c1, c2);
    }
  }

  /** The point of escaping: no escaped character is left bare. */
  lemma {:induction false} EscapeMarksAll(s: string, c1: char, c2: char)
    requires c1 != '\\' && c2 != '\\'
    ensures Escaped(Escape(s, c1, c2), c1, c2)
    decreases |s|
  {
    if s != [] {
      EscapeMarksAll(s[1..], c1, c2);
      var h := EscapeChar(s[0], c1, c2);
      var t := Escape(s[1..], c1, c2);
      assert Escape(s, c1, c2) == h + t;
      forall i | 0 <= i < |h + t| && ((h + t)[i] == c1 || (h + t)[i] == c2)
        ensures i > 0 && (h + t)[i - 1] == '\\'
      {
        if i >= |h| {
          assert t[i - |h|] == (h + t)[i];
        }
      }
    }
  }

  /** Text with neither character is left unchanged. */
  lemma {:induction false} EscapeIdentity(s: string, c1: char, c2: char)
    requires c1 !in s && c2 !in s
    ensures Escape(s, c1, c2) == s
    decreases |s|
  {
    if s != [] {
      EscapeIdentity(s[1..], c1, c2);
    }
  }

  /** Escaping never introduces a character other than the backslash. */
  lemma {:induction false} EscapeKeepsAbsent(s: string, c1: char, c2: char, c: char)
    requires c !in s && c != '\\'
    ensures c !in Escape(s, c1, c2)
    decreases |s|
  {
    if s != [] {
      EscapeKeepsAbsent(s[1..], c1, c2, c);
    }
  }

  /** Escaping is uniquely decodable at the front: if the escaped text starts
      with the escaped form of a backslash-free word, the text starts with it. */
  lemma {:induction false} EscapeDecode(s: string, w: string, c1: char, c2: char)
    requires c1 != '\\' && c2 != '\\' && '\\' !in w
    requires StartsWith(Escape(s, c1, c2), Escape(w, c1, c2))
    ensures StartsWith(s, w)
    decreases |w|
  {
    if w != [] {
      EscapeDecodeHead(s, w, c1, c2);
      EscapeDecode(s[1..], w[1..], c1, c2);
      assert s[..|w|] == [s[0]] + s[1..][..|w| - 1];
      assert w == [w[0]] + w[1..];
    }
  }

  /** The first character of an escaped prefix is read back, and the rest
      is again an escaped prefix. */
  lemma EscapeDecodeHead(s: string, w: string, c1: char, c2: char)
    requires c1 != '\\' && c2 != '\\' && '\\' !in w && w != []
    requires StartsWith(Escape(s, c1, c2), Escape(w, c1, c2))
    ensures s != [] && s[0] == w[0]
    ensures StartsWith(Escape(s[1..], c1, c2), Escape(w[1..], c1, c2))
  {
    var rw := Escape(w[1..], c1, c2);
    var hw := EscapeChar(w[0], c1, c2);
    assert Escape(w, c1, c2) == hw + rw;
    assert s != [];
    var rs := Escape(s[1..], c1, c2);
    var hs := EscapeChar(s[0], c1, c2);
    assert Escape(s, c1, c2) == hs + rs;
    EscapeFront(s[1..], c1, c2);
    EscapeCharDecode(s[0], w[0], rs, rw, c1, c2);
    StartsWithDrop(hw, rs, rw);
  }

  /** An escaped character at the front of an escaped prefix is the same
      character. */
  lemma EscapeCharDecode(a: char, b: char, ra: string, rb: string, c1: char, c2: char)
    requires c1 != '\\' && c2 != '\\' && b != '\\'
    requires ra == [] || (ra[0] != c1 && ra[0] != c2)
    requires StartsWith(EscapeChar(a, c1, c2) + ra, EscapeChar(b, c1, c2) + rb)
    ensures a == b
  {
    var ea, eb := EscapeChar(a, c1, c2) + ra, EscapeChar(b, c1, c2) + rb;
    assert ea[0] == eb[0];
    if b == c1 || b == c2 {
      assert ea[1] == eb[1];
    }
  }

  /** Escaped text never starts with one of the escaped characters. */
  lemma EscapeFront(s: string, c1: char, c2: char)
    requires c1 != '\\' && c2 != '\\'
    ensures var e := Escape(s, c1, c2); e == [] || (e[0] != c1 && e[0] != c2)
  {
    if s != [] {
      assert Escape(s, c1, c2)[0] == EscapeChar(s[0], c1, c2)[0];
    }
  }

  /** A common front can be dropped from both sides of a prefix relation. */
  lemma StartsWithDrop(h: string, x: string, y: string)
    requires StartsWith(h + x, h + y)
    ensures StartsWith(x, y)
  {
    assert x[..|y|] == (h + x)[|h|..|h| + |y|];
    assert (h + y)[|h|..] == y;
  }

  /** `Replace` never introduces a character that is in neither the text nor
      the replacement. */
  lemma {:induction false} ReplaceKeepsAbsent(s: string, pat: string, rep: string, c: char)
    requires |pat| > 0 && c !in s && c !in rep
    ensures c !in Replace(s, pat, rep)
    decreases |s|
  {
    if |s| >= |pat| {
      if s[..|pat|] == pat {
        ReplaceKeepsAbsent(s[|pat|..], pat, rep, c);
      } else {
        ReplaceKeepsAbsent(s[1..], pat, rep, c);
      }
    }
  }

  /** Position of the first `c` in `s`, or `|s|` when there is none. */
  function FirstIndex(s: string, c: char): (k: nat)
    ensures k <= |s| && c !in s[..k]
    ensures k < |s| ==> s[k] == c
    decreases |s|
  {
    if s == [] || s[0] == c then 0 else 1 + FirstIndex(s[1..], c)
  }

  /** The first `c` of `x + y` is the one starting `y`. */
  lemma {:induction false} FirstIndexJoin(x: string, y: string, c: char)
    requires c !in x && y != [] && y[0] == c
    ensures FirstIndex(x + y, c) == |x|
    decreases |x|
  {
    if x == [] {
      assert x + y == y;
    } else {
      assert (x + y)[1..] == x[1..] + y;
      FirstIndexJoin(x[1..], y, c);
    }
  }

  /** A text cut at one occurrence of a character: the part before and
      the part after it. */
  datatype Cut = NoCut | Cut(before: string, after: string)

  /** The cut at the first `c` of `s`. */
  function CutFirst(s: string, c: char): (r: Cut)
    ensures r.Cut? ==> s == r.before + [c] + r.after && c !in r.before
    ensures r.NoCut? ==> c !in s
    decreases |s|
  {
    if s == [] then NoCut
    else if s[0] == c then Cut([], s[1..])
    else match CutFirst(s[1..], c)
      case NoCut => NoCut
      case Cut(b, a) => Cut([s[0]] + b, a)
  }

  /** The cut at the last `c` of `s`. */
  function CutLast(s: string, c: char): (r: Cut)
    ensures r.Cut? ==> s == r.before + [c] + r.after && c !in r.after
    ensures r.NoCut? ==> c !in s
    decreases |s|
  {
    if s == [] then NoCut
    else match CutLast(s[1..], c)
      case Cut(b, a) => Cut([s[0]] + b, a)
      case NoCut => if s[0] == c then Cut([], s[1..]) else NoCut
  }

  /** The first cut is unique: it is the one whose front holds no `c`. */
  lemma {:induction false} CutFirstUnique(x: string, r: string, c: char)
    requires c !in x
    ensures CutFirst(x + [c] + r, c) == Cut(x, r)
    decreases |x|
  {
    var s := x + [c] + r;
    if x == [] {
      assert s[1..] == r;
    } else {
      assert s[0] == x[0] && s[1..] == x[1..] + [c] + r;
      CutFirstUnique(x[1..], r, c);
      assert [x[0]] + x[1..] == x;
    }
  }

  /** The last cut is unique: it is the one whose back holds no `c`. */
  lemma {:induction false} CutLastUnique(m: string, y: string, c: char)
    requires c !in y
    ensures CutLast(m + [c] + y, c) == Cut(m, y)
    decreases |m|
  {
    var s := m + [c] + y;
    if m == [] {
      assert s[1..] == y;
    } else {
      assert s[0] == m[0] && s[1..] == m[1..] + [c] + y;
      CutLastUnique(m[1..], y, c);
      assert [m[0]] + m[1..] == m;
    }
  }
}
