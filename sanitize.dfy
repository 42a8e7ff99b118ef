/** Identifier sanitisation and type-name simplification (`_sanitize` and
    `convert_type` in formatters.py; model.py carries identical copies). */
module Sanitize {
  import opened Strings

  /** The two internal package prefixes hidden from every rendered text. */
  const SupportPrefix: string := "a2_support."
  const SolutionPrefix: string := "a2_solution."

  function StripPrefixes(text: string): string {
    Replace(Replace(text, SupportPrefix, ""), SolutionPrefix, "")
  }

  /** `_sanitize`: drop the internal prefixes, then escape `_` and `#` for
      LaTeX, in this order, each step a plain `str.replace`. */
  function Sanitize(text: string): string {
    Replace(Replace(StripPrefixes(text), "_", "\\_"), "#", "\\#")
  }

  /** Sanitising is stripping the prefixes, then one escaping pass. */
  lemma SanitizeIsEscape(text: string)
    ensures Sanitize(text) == Escape(StripPrefixes(text), '_', '#')
  {
    EscapeByReplace(StripPrefixes(text), '_', '#');
  }

  /** In sanitised text every `_` and every `#` is preceded by a backslash. */
  lemma SanitizeEscapes(text: string)
    ensures Escaped(Sanitize(text), '_', '#')
  {
    SanitizeIsEscape(text);
    EscapeMarksAll(StripPrefixes(text), '_', '#');
  }

  /** Text without `_` and `#` (and so without either prefix) comes back
      unchanged; in particular sanitising such text again changes nothing. */
  lemma SanitizeIdentity(text: string)
    requires '_' !in text && '#' !in text
    ensures Sanitize(text) == text
  {
    ReplaceAbsent(text, SupportPrefix, "", '_');
    ReplaceAbsent(text, SolutionPrefix, "", '_');
    SanitizeIsEscape(text);
    EscapeIdentity(text, '_', '#');
  }

  /** Neither internal prefix survives sanitisation literally: the `_` in it
      would have to follow a backslash, but follows `2`. */
  lemma SanitizeHidesPrefixes(text: string, i: nat)
    requires i <= |Sanitize(text)|
    ensures !StartsWith(Sanitize(text)[i..], SupportPrefix)
    ensures !StartsWith(Sanitize(text)[i..], SolutionPrefix)
  {
    var r := Sanitize(text);
    SanitizeEscapes(text);
    if i + 2 < |r| && r[i + 2] == '_' {
      assert r[i + 1] == '\\';
    }
  }

  /** Sanitising introduces no character except the backslash. */
  lemma SanitizeKeepsAbsent(text: string, c: char)
    requires c !in text && c != '\\'
    ensures c !in Sanitize(text)
  {
    ReplaceKeepsAbsent(text, SupportPrefix, "", c);
    ReplaceKeepsAbsent(Replace(text, SupportPrefix, ""), SolutionPrefix, "", c);
    SanitizeIsEscape(text);
    EscapeKeepsAbsent(StripPrefixes(text), '_', '#', c);
  }

  /** A front part that cannot start a prefix is only escaped. */
  lemma SanitizeFront(x: string, y: string)
    requires 'a' !in x
    ensures StripPrefixes(x + y) == x + StripPrefixes(y)
    ensures Sanitize(x + y) == Escape(x, '_', '#') + Sanitize(y)
  {
    ReplaceKeepsPrefix(x, y, SupportPrefix, "");
    ReplaceKeepsPrefix(x, Replace(y, SupportPrefix, ""), SolutionPrefix, "");
    SanitizeIsEscape(x + y);
    SanitizeIsEscape(y);
    EscapeConcat(x, StripPrefixes(y), '_', '#');
  }

  /** Sanitising `x + y + z` touches only `y` when `x` and `z` hold none of
      `a`, `_`, `#` and `z` starts with a comma. */
  lemma SanitizeInside(x: string, y: string, z: string)
    requires 'a' !in x && '_' !in x && '#' !in x
    requires 'a' !in z && '_' !in z && '#' !in z && (z == [] || z[0] == ',')
    ensures Sanitize(x + y + z) == x + Sanitize(y) + z
  {
    ReplaceInside(x, y, z, SupportPrefix, "");
    var y1 := Replace(y, SupportPrefix, "");
    ReplaceInside(x, y1, z, SolutionPrefix, "");
    var y2 := Replace(y1, SolutionPrefix, "");
    ReplaceInside(x, y2, z, "_", "\\_");
    var y3 := Replace(y2, "_", "\\_");
    ReplaceInside(x, y3, z, "#", "\\#");
  }

  // ---------------------------------------------------------------------
  // convert_type

  /** The separator the introspection layer writes before `NoneType` inside
      a `Union[...]`: a no-break space, U+00A0, not an ASCII space. */
  const UnionSep: char := '\U{a0}'

  /** What must follow the captured type for the Optional rewrite to fire. */
  function OptionalTail(sep: char): string {
    [',', sep] + "NoneType]"
  }

  datatype UnionMatch = NoMatch | Matched(inner: string, length: nat)

  /** The pattern `Union\[([^,]+?),<sep>NoneType\]` tried at the front of
      `s`. The lazy group cannot hold a comma and the tail starts with one,
      so the only candidate is the text up to the first comma. */
  function MatchOptional(s: string, sep: char): (m: UnionMatch)
    ensures m.Matched? ==>
      m.inner != [] && ',' !in m.inner && m.length <= |s|
      && s[..m.length] == "Union[" + m.inner + OptionalTail(sep)
  {
    if !StartsWith(s, "Union[") then NoMatch
    else
      var rest := s[6..];
      var k := FirstIndex(rest, ',');
      if k > 0 && StartsWith(rest[k..], OptionalTail(sep)) then
        Matched(rest[..k], 6 + k + 11)
      else NoMatch
  }

  /** The match is found whenever the text does start with such a union:
      together with the contract above, the match is exactly the regular
      expression's. */
  lemma MatchOptionalComplete(s: string, sep: char, g: string)
    requires g != [] && ',' !in g
    requires StartsWith(s, "Union[" + g + OptionalTail(sep))
    ensures MatchOptional(s, sep) == Matched(g, |g| + 17)
  {
    var pat := "Union[" + g + OptionalTail(sep);
    assert s[..6] == pat[..6];
    var rest := s[6..];
    assert pat[6..] == g + OptionalTail(sep);
    assert rest[..|g| + 11] == g + OptionalTail(sep);
    assert rest[|g|] == ',';
    var k := FirstIndex(rest, ',');
    assert k == |g|;
    assert rest[k..][..11] == (g + OptionalTail(sep))[|g|..];
    assert rest[..k] == g;
  }

  /** `re.sub(r'Union\[([^,]+?),<sep>NoneType\]', r'Optional[\1]', s)`:
      scan left to right, rewrite each match, resume after it. */
  function RewriteOptional(s: string, sep: char): string
    decreases |s|
  {
    if s == [] then []
    else match MatchOptional(s, sep)
      case Matched(g, n) => "Optional[" + g + "]" + RewriteOptional(s[n..], sep)
      case NoMatch => [s[0]] + RewriteOptional(s[1..], sep)
  }

  /** `convert_type`: sanitise, rewrite `Union[T, NoneType]` to
      `Optional[T]`, then every remaining `NoneType` to `None`. */
  function ConvertType(typeRep: string): string {
    Replace(RewriteOptional(Sanitize(typeRep), UnionSep), "NoneType", "None")
  }

  /** Without a `U` there is no `Union[` to rewrite. */
  lemma {:induction false} RewriteNoUnion(s: string, sep: char)
    requires 'U' !in s
    ensures RewriteOptional(s, sep) == s
    decreases |s|
  {
    if s != [] {
      if |s| >= 6 {
        assert s[..6][0] == s[0];
      }
      assert MatchOptional(s, sep).NoMatch?;
      RewriteNoUnion(s[1..], sep);
    }
  }

  /** One match consumes the whole of `Union[<st>,<sep>NoneType]`. */
  lemma RewriteOptionalWhole(st: string, sep: char)
    requires st != [] && ',' !in st
    ensures RewriteOptional("Union[" + st + OptionalTail(sep), sep) == "Optional[" + st + "]"
  {
    var tail := OptionalTail(sep);
    var s := "Union[" + st + tail;
    assert s[6..] == st + tail;
    FirstIndexJoin(st, tail, ',');
    assert (st + tail)[|st|..] == tail;
    assert MatchOptional(s, sep) == Matched(st, |s|);
    assert s[|s|..] == [];
  }

  /** A two-member optional union collapses to `Optional[...]` around the
      sanitised member (in which only a literal `NoneType` is shortened). */
  lemma ConvertOptional(t: string)
    requires ',' !in t && Sanitize(t) != []
    ensures ConvertType("Union[" + t + OptionalTail(UnionSep))
         == "Optional[" + Replace(Sanitize(t), "NoneType", "None") + "]"
  {
    var u, tail, st := "Union[", OptionalTail(UnionSep), Sanitize(t);
    SanitizeUnion(t);
    SanitizeKeepsAbsent(t, ',');
    RewriteOptionalWhole(st, UnionSep);
    ReplaceInside("Optional[", st, "]", "NoneType", "None");
    ConvertStages(u + t + tail, u + st + tail, "Optional[" + st + "]");
  }

  /** Sanitising a two-member optional union touches only its member. */
  lemma SanitizeUnion(t: string)
    ensures Sanitize("Union[" + t + OptionalTail(UnionSep))
         == "Union[" + Sanitize(t) + OptionalTail(UnionSep)
  {
    SanitizeInside("Union[", t, OptionalTail(UnionSep));
  }

  /** `convert_type` as its three stages, given the first two results. */
  lemma ConvertStages(t: string, sanitized: string, rewritten: string)
    requires Sanitize(t) == sanitized
    requires RewriteOptional(sanitized, UnionSep) == rewritten
    ensures ConvertType(t) == Replace(rewritten, "NoneType", "None")
  {
  }

  /** The same, for a member that does not mention `NoneType` itself. */
  lemma ConvertOptionalPlain(t: string)
    requires ',' !in t && 'N' !in t && Sanitize(t) != []
    ensures ConvertType("Union[" + t + OptionalTail(UnionSep)) == "Optional[" + Sanitize(t) + "]"
  {
    ConvertOptional(t);
    SanitizeKeepsAbsent(t, 'N');
    ReplaceAbsent(Sanitize(t), "NoneType", "None", 'N');
  }

  /** Text without `_`, `#` or `U` only has its `NoneType`s shortened
      to `None`. */
  lemma ConvertPlain(t: string)
    requires '_' !in t && '#' !in t && 'U' !in t
    ensures ConvertType(t) == Replace(t, "NoneType", "None")
  {
    SanitizeIdentity(t);
    RewriteNoUnion(t, UnionSep);
  }

  lemma ConvertNoneType()
    ensures ConvertType("NoneType") == "None"
  {
    ConvertPlain("NoneType");
  }

  /** Text without `Union[` is not rewritten. */
  lemma {:induction false} RewriteNotContained(s: string, sep: char)
    requires !Contains(s, "Union[")
    ensures RewriteOptional(s, sep) == s
    decreases |s|
  {
    if s != [] {
      assert s[0..] == s;
      NotContainedTail(s, "Union[");
      RewriteNotContained(s[1..], sep);
      assert s == [s[0]] + s[1..];
    }
  }

  /** No match at the front when the first member is not followed by the
      Optional tail. */
  lemma NoMatchAfterMember(a: string, after: string, sep: char)
    requires ',' !in a && after != [] && after[0] == ','
    requires !StartsWith(after, OptionalTail(sep))
    ensures MatchOptional("Union[" + a + after, sep).NoMatch?
  {
    var s := "Union[" + a + after;
    assert s[6..] == a + after;
    FirstIndexJoin(a, after, ',');
    assert (a + after)[|a|..] == after;
  }

  /** `Union[<a>,<space><b>,<sep>`: a union of three or more members up to
      its final `NoneType]`. `a` is the first member, `b` the members between
      it and `NoneType`, with the commas that separate them. */
  function UnionOfMany(a: string, b: string, space: char): string {
    "Union[" + a + [',', space] + b + [',', UnionSep]
  }

  /** The same text followed by `close`, cut at the two commas around the
      middle members. */
  lemma UnionOfManyCut(a: string, b: string, space: char, close: string)
    ensures UnionOfMany(a, b, space) + close
         == ("Union[" + a) + [','] + ([space] + b) + [','] + ([UnionSep] + close)
  {
  }

  /** The same text, grouped as `Union[` + first member + the rest. */
  lemma UnionOfManyRegroup(a: string, b: string, space: char)
    ensures UnionOfMany(a, b, space) + "NoneType]"
         == "Union[" + a + ([',', space] + b + OptionalTail(UnionSep))
  {
  }

  /** After the first member comes `,<space>` and the middle members, which are
      not the Optional tail unless the space is the no-break space and the
      middle members start with `NoneType]`. */
  lemma NotOptionalTail(b: string, space: char)
    requires space != UnionSep || !StartsWith(b, "NoneType]")
    ensures !StartsWith([',', space] + b + OptionalTail(UnionSep), OptionalTail(UnionSep))
  {
    var tail := OptionalTail(UnionSep);
    var t := [',', space] + b + tail;
    assert tail[1] == UnionSep && ',' !in tail[2..];
    if space != UnionSep {
      assert t[1] == space;
    } else if |b| >= 9 {
      assert t[2..11] == b[..9];
      assert tail[2..] == "NoneType]";
    } else {
      assert t[2 + |b|] == ',';
    }
  }

  /** The Optional rewrite leaves a union of three or more members alone: the
      text after the first member is not `,<sep>NoneType]`, and no later
      `Union[` exists. */
  lemma RewriteUnionOfMany(a: string, b: string, space: char)
    requires IsSpace(space) && ',' !in a
    requires !Contains(a, "Union[") && !Contains(b, "Union[")
    requires space != UnionSep || !StartsWith(b, "NoneType]")
    ensures RewriteOptional(UnionOfMany(a, b, space) + "NoneType]", UnionSep)
         == UnionOfMany(a, b, space) + "NoneType]"
  {
    var s := UnionOfMany(a, b, space) + "NoneType]";
    var after := [',', space] + b + OptionalTail(UnionSep);
    UnionOfManyRegroup(a, b, space);
    NotOptionalTail(b, space);
    NoMatchAfterMember(a, after, UnionSep);
    RestHasNoUnion(a, b, space);
    RewriteNotContained(s[1..], UnionSep);
    assert s == [s[0]] + s[1..];
  }

  /** Past its first character, the union text holds no `Union[`. */
  lemma RestHasNoUnion(a: string, b: string, space: char)
    requires IsSpace(space)
    requires !Contains(a, "Union[") && !Contains(b, "Union[")
    ensures !Contains((UnionOfMany(a, b, space) + "NoneType]")[1..], "Union[")
  {
    var pat := "Union[";
    var front, middle, last := "Union[" + a, [space] + b, [UnionSep] + "NoneType]";
    assert front[1..] == "nion[" + a;
    NotContainedFront("nion[", a, pat);
    NotContainedFront([space], b, pat);
    ContainsNoChar(last, pat, 'U');
    UnionOfManyCut(a, b, space, "NoneType]");
    CutTail(front, middle, last);
    NotContainedSep(front[1..], ',', middle, pat);
    NotContainedSep(front[1..] + [','] + middle, ',', last, pat);
  }

  /** Dropping the first character of a text cut at two commas. */
  lemma CutTail(front: string, middle: string, last: string)
    requires front != []
    ensures (front + [','] + middle + [','] + last)[1..]
         == front[1..] + [','] + middle + [','] + last
  {
  }

  /** Sanitising works separately on both sides of a comma or a space, which
      neither prefix nor either escaped character contains. */
  lemma SanitizeAroundSep(x: string, c: char, y: string)
    requires c == ',' || IsSpace(c)
    ensures Sanitize(x + [c] + y) == Sanitize(x) + [c] + Sanitize(y)
  {
    ReplaceAroundSep(x, c, y, SupportPrefix, "");
    var x1, y1 := Replace(x, SupportPrefix, ""), Replace(y, SupportPrefix, "");
    ReplaceAroundSep(x1, c, y1, SolutionPrefix, "");
    var x2, y2 := Replace(x1, SolutionPrefix, ""), Replace(y1, SolutionPrefix, "");
    ReplaceAroundSep(x2, c, y2, "_", "\\_");
    var x3, y3 := Replace(x2, "_", "\\_"), Replace(y2, "_", "\\_");
    ReplaceAroundSep(x3, c, y3, "#", "\\#");
  }

  /** Hence sanitising a text cut at two commas sanitises each piece. */
  lemma SanitizeCut(front: string, middle: string, last: string)
    ensures Sanitize(front + [','] + middle + [','] + last)
         == Sanitize(front) + [','] + Sanitize(middle) + [','] + Sanitize(last)
  {
    SanitizeAroundSep(front + [','] + middle, ',', last);
    SanitizeAroundSep(front, ',', middle);
  }

  /** The opening piece of a union, sanitised. */
  lemma SanitizeOpening(a: string)
    ensures Sanitize("Union[" + a) == "Union[" + Sanitize(a)
  {
    SanitizeFront("Union[", a);
    EscapeIdentity("Union[", '_', '#');
  }

  /** A member after its separating space, sanitised. */
  lemma SanitizeSpaced(b: string, space: char)
    requires IsSpace(space)
    ensures Sanitize([space] + b) == [space] + Sanitize(b)
  {
    SanitizeFront([space], b);
    EscapeIdentity([space], '_', '#');
  }

  /** The closing piece of a union, which sanitising leaves alone. */
  lemma SanitizeClosing()
    ensures Sanitize([UnionSep] + "NoneType]") == [UnionSep] + "NoneType]"
  {
    SanitizeIdentity([UnionSep] + "NoneType]");
  }

  /** Sanitising a union of three or more members sanitises each member. */
  lemma SanitizeUnionOfMany(a: string, b: string, space: char)
    requires IsSpace(space)
    ensures Sanitize(UnionOfMany(a, b, space) + "NoneType]")
         == UnionOfMany(Sanitize(a), Sanitize(b), space) + "NoneType]"
  {
    UnionOfManyCut(a, b, space, "NoneType]");
    SanitizeCut("Union[" + a, [space] + b, [UnionSep] + "NoneType]");
    SanitizeOpening(a);
    SanitizeSpaced(b, space);
    SanitizeClosing();
    UnionOfManyCut(Sanitize(a), Sanitize(b), space, "NoneType]");
  }

  /** Shortening `NoneType` in a text cut at two commas shortens each piece. */
  lemma ShortenCut(front: string, middle: string, last: string)
    ensures Replace(front + [','] + middle + [','] + last, "NoneType", "None")
         == Replace(front, "NoneType", "None") + [','] + Replace(middle, "NoneType", "None")
          + [','] + Replace(last, "NoneType", "None")
  {
    ReplaceAroundSep(front + [','] + middle, ',', last, "NoneType", "None");
    ReplaceAroundSep(front, ',', middle, "NoneType", "None");
  }

  /** The three pieces of a union whose members do not mention `NoneType`,
      shortened. */
  lemma ShortenPieces(a: string, b: string, space: char)
    requires IsSpace(space)
    requires !Contains(a, "NoneType") && !Contains(b, "NoneType")
    ensures Replace("Union[" + a, "NoneType", "None") == "Union[" + a
    ensures Replace([space] + b, "NoneType", "None") == [space] + b
    ensures Replace([UnionSep] + "NoneType]", "NoneType", "None") == [UnionSep] + "None]"
  {
    NotContainedFront("Union[", a, "NoneType");
    ReplaceNotContained("Union[" + a, "NoneType", "None");
    NotContainedFront([space], b, "NoneType");
    ReplaceNotContained([space] + b, "NoneType", "None");
    ReplaceKeepsPrefix([UnionSep], "NoneType]", "NoneType", "None");
    assert Replace("]", "NoneType", "None") == "]";
  }

  /** Shortening `NoneType` in a union of three or more members whose members
      do not mention it touches only the final one. */
  lemma ShortenUnionOfMany(a: string, b: string, space: char)
    requires IsSpace(space)
    requires !Contains(a, "NoneType") && !Contains(b, "NoneType")
    ensures Replace(UnionOfMany(a, b, space) + "NoneType]", "NoneType", "None")
         == UnionOfMany(a, b, space) + "None]"
  {
    UnionOfManyCut(a, b, space, "NoneType]");
    ShortenCut("Union[" + a, [space] + b, [UnionSep] + "NoneType]");
    ShortenPieces(a, b, space);
    UnionOfManyCut(a, b, space, "None]");
  }

  /** A text that does not contain `NoneType` does not start with `NoneType]`. */
  lemma NoNoneTypeFront(b: string)
    requires !Contains(b, "NoneType")
    ensures !StartsWith(b, "NoneType]")
  {
    assert b[0..] == b;
    if |b| >= 9 {
      assert b[..9][..8] == b[..8];
    }
  }

  /** A union of three or more members is not turned into `Optional`: each
      member is sanitised, and only the final `NoneType` becomes `None`. The
      members are what the pattern reads: the first is comma-free, and once
      sanitised no member holds a nested `Union[` or a `NoneType` of its
      own. */
  lemma ConvertUnionOfMany(a: string, b: string, space: char)
    requires IsSpace(space) && ',' !in a
    requires !Contains(Sanitize(a), "Union[") && !Contains(Sanitize(b), "Union[")
    requires !Contains(Sanitize(a), "NoneType") && !Contains(Sanitize(b), "NoneType")
    ensures ConvertType(UnionOfMany(a, b, space) + "NoneType]")
         == UnionOfMany(Sanitize(a), Sanitize(b), space) + "None]"
  {
    var sa, sb := Sanitize(a), Sanitize(b);
    SanitizeUnionOfMany(a, b, space);
    SanitizeKeepsAbsent(a, ',');
    NoNoneTypeFront(sb);
    RewriteUnionOfMany(sa, sb, space);
    ShortenUnionOfMany(sa, sb, space);
    ConvertStages(UnionOfMany(a, b, space) + "NoneType]",
      UnionOfMany(sa, sb, space) + "NoneType]", UnionOfMany(sa, sb, space) + "NoneType]");
  }

  /** Text that sanitising and the Optional rewrite leave alone only has its
      `NoneType`s shortened. */
  lemma ConvertUntouched(y: string)
    requires '_' !in y && '#' !in y
    requires RewriteOptional(y, UnionSep) == y
    ensures ConvertType(y) == Replace(y, "NoneType", "None")
  {
    SanitizeIdentity(y);
    ConvertStages(y, y, y);
  }
}
