/** The docstring canonicaliser (`canonicalize_description` in
    formatters.py and model.py): prose lines are folded into paragraphs,
    `*` lines become LaTeX list items, and from the first section marker on
    every line is passed through as it is. */
module Canonical {
  import opened Strings

  /** The section headings after which nothing is regrouped. */
  const StopMarkers: set<string> := {"Parameters:", "Examples:", "Raises:"}

  predicate IsStop(line: string) {
    Strip(line) in StopMarkers
  }

  predicate IsBullet(line: string) {
    StartsWith(Strip(line), "*")
  }

  /** What one line in grouping mode adds to the text, and whether a list is
      open after it. */
  datatype Piece = Piece(text: string, open: bool)

  /** A grouped line: the empty line closes an open list and ends the
      paragraph; a bullet opens a list if none is open and adds an item with
      every `*` removed; any other line (a blank but non-empty one
      included) is appended to the paragraph after a space. */
  function GroupedLine(line: string, open: bool): Piece {
    if line == "" then
      Piece((if open then "\n\\end{itemize}" else "") + "\n\n", false)
    else if IsBullet(line) then
      Piece((if open then "" else "\\begin{itemize}") + ItemText(line), true)
    else
      Piece(" " + RStrip(line), open)
  }

  function ItemText(line: string): string {
    "\n\\item" + RStrip(Replace(line, "*", ""))
  }

  // ---------------------------------------------------------------------
  // The reference: grouped part, then verbatim part

  /** Index of the first section marker, or `|lines|`. */
  function FirstStop(lines: seq<string>): (k: nat)
    ensures k <= |lines|
    decreases |lines|
  {
    if lines == [] || IsStop(lines[0]) then 0 else 1 + FirstStop(lines[1..])
  }

  /** `FirstStop` is the first section marker: none comes before it. */
  lemma {:induction false} FirstStopIsFirst(lines: seq<string>)
    ensures var k := FirstStop(lines);
      (forall i :: 0 <= i < k ==> !IsStop(lines[i])) && (k < |lines| ==> IsStop(lines[k]))
    decreases |lines|
  {
    if lines != [] && !IsStop(lines[0]) {
      FirstStopIsFirst(lines[1..]);
      assert forall i :: 1 <= i < |lines| ==> lines[i] == lines[1..][i - 1];
    }
  }

  /** No section marker comes before the first one. */
  lemma {:induction false} FirstStopBefore(lines: seq<string>, j: nat)
    requires j < |lines| && IsStop(lines[j])
    ensures FirstStop(lines) <= j
    decreases j
  {
    if !IsStop(lines[0]) {
      assert lines[1..][j - 1] == lines[j];
      FirstStopBefore(lines[1..], j - 1);
    }
  }

  /** Without a section marker, grouping runs to the last line. */
  lemma {:induction false} FirstStopNone(lines: seq<string>)
    requires forall i :: 0 <= i < |lines| ==> !IsStop(lines[i])
    ensures FirstStop(lines) == |lines|
    decreases |lines|
  {
    if lines != [] {
      assert !IsStop(lines[0]);
      assert forall i :: 0 <= i < |lines| - 1 ==> lines[1..][i] == lines[i + 1];
      FirstStopNone(lines[1..]);
    }
  }

  /** Grouped lines, starting with a list open or not. */
  function Grouped(lines: seq<string>, open: bool): string
    decreases |lines|
  {
    if lines == [] then ""
    else
      var p := GroupedLine(lines[0], open);
      p.text + Grouped(lines[1..], p.open)
  }

  /** Lines passed through, each followed by a newline. */
  function Verbatim(lines: seq<string>): string
    decreases |lines|
  {
    if lines == [] then "" else lines[0] + "\n" + Verbatim(lines[1..])
  }

  /** The canonical form of a docstring: the lines before the first section
      marker grouped, the marker and every line after it verbatim. */
  function CanonicalText(docstring: string): string {
    var lines := Split(docstring, '\n');
    var k := FirstStop(lines);
    Grouped(lines[..k], false) + Verbatim(lines[k..])
  }

  // ---------------------------------------------------------------------
  // The loop

  /** The three variables of the loop. */
  datatype State = State(block: string, group: bool, inList: bool)

  /** One iteration of the loop over the lines. */
  function Step(st: State, line: string): State {
    var group := st.group && !IsStop(line);
    if group then
      var p := GroupedLine(line, st.inList);
      State(st.block + p.text, true, p.open)
    else
      State(st.block + line + "\n", false, st.inList)
  }

  /** The remaining iterations. */
  function Run(st: State, lines: seq<string>): State
    decreases |lines|
  {
    if lines == [] then st else Run(Step(st, lines[0]), lines[1..])
  }

  /** `canonicalize_description`. */
  method CanonicalizeDescription(docstring: string) returns (block: string)
    ensures block == CanonicalText(docstring)
  {
    var lines := Split(docstring, '\n');
    var group, inList := true, false;
    block := "";
    for i := 0 to |lines|
      invariant Run(State(block, group, inList), lines[i..]) == Run(State("", true, false), lines)
    {
      var line := lines[i];
      ghost var before := State(block, group, inList);
      assert lines[i..][1..] == lines[i + 1..];
      if Strip(line) in StopMarkers {
        group := false;
      }
      if group {
        if line == "" {
          if inList {
            block := block + "\n\\end{itemize}";
            inList := false;
          }
          block := block + "\n\n";
          assert block == before.block + GroupedLine(line, before.inList).text by {
            if before.inList {
              Assoc(before.block, "\n\\end{itemize}", "\n\n");
            } else {
              assert "" + "\n\n" == "\n\n";
            }
          }
          continue;
        }
        if StartsWith(Strip(line), "*") {
          if !inList {
            block := block + "\\begin{itemize}";
            inList := true;
          }
          block := block + "\n\\item" + RStrip(Replace(line, "*", ""));
          assert block == before.block + GroupedLine(line, before.inList).text by {
            Assoc(before.block + (if before.inList then "" else "\\begin{itemize}"),
              "\n\\item", RStrip(Replace(line, "*", "")));
            if before.inList {
              assert before.block + "" == before.block;
              assert "" + ItemText(line) == ItemText(line);
            } else {
              Assoc(before.block, "\\begin{itemize}", ItemText(line));
            }
          }
          continue;
        }
        block := block + " " + RStrip(line);
        Assoc(before.block, " ", RStrip(line));
      } else {
        block := block + line + "\n";
      }
    }
    RunCanonical("", false, lines);
  }

  // ---------------------------------------------------------------------
  // The loop computes the reference

  /** After grouping has stopped every line is copied. */
  lemma {:induction false} RunVerbatim(b: string, open: bool, lines: seq<string>)
    ensures Run(State(b, false, open), lines) == State(b + Verbatim(lines), false, open)
    decreases |lines|
  {
    if lines != [] {
      RunVerbatim(b + lines[0] + "\n", open, lines[1..]);
    }
  }

  /** From grouping mode, the loop appends the grouped part and then the
      verbatim part of the remaining lines. */
  lemma {:induction false} RunCanonical(b: string, open: bool, lines: seq<string>)
    ensures var k := FirstStop(lines);
      Run(State(b, true, open), lines).block == b + Grouped(lines[..k], open) + Verbatim(lines[k..])
    decreases |lines|
  {
    var k := FirstStop(lines);
    if lines == [] {
    } else if IsStop(lines[0]) {
      RunVerbatim(b + lines[0] + "\n", open, lines[1..]);
      assert lines[k..] == lines;
    } else {
      var p := GroupedLine(lines[0], open);
      RunCanonical(b + p.text, p.open, lines[1..]);
      assert lines[..k][1..] == lines[1..][..k - 1];
      assert lines[k..] == lines[1..][k - 1..];
      var g, v := Grouped(lines[1..][..k - 1], p.open), Verbatim(lines[k..]);
      assert Grouped(lines[..k], open) == p.text + g;
      assert Run(State(b, true, open), lines) == Run(State(b + p.text, true, p.open), lines[1..]);
      Assoc(b, p.text, g);
    }
  }

  /** Whether the loop ends in grouping mode: exactly when no line is a
      section marker (the flag only ever goes from true to false). */
  lemma {:induction false} RunGroupFlag(st: State, lines: seq<string>)
    ensures Run(st, lines).group <==> st.group && forall i :: 0 <= i < |lines| ==> !IsStop(lines[i])
    decreases |lines|
  {
    if lines != [] {
      RunGroupFlag(Step(st, lines[0]), lines[1..]);
      assert forall i :: 1 <= i < |lines| ==> lines[i] == lines[1..][i - 1];
    }
  }

  // ---------------------------------------------------------------------
  // The verbatim part

  lemma {:induction false} VerbatimAppend(a: seq<string>, b: seq<string>)
    ensures Verbatim(a + b) == Verbatim(a) + Verbatim(b)
    decreases |a|
  {
    if a == [] {
      assert a + b == b;
    } else {
      assert (a + b)[1..] == a[1..] + b;
      VerbatimAppend(a[1..], b);
    }
  }

  /** Every section marker, the first or a later one, is followed in the
      output by itself and every later line, unchanged. */
  lemma StopSuffix(docstring: string, j: nat)
    requires var lines := Split(docstring, '\n'); j < |lines| && IsStop(lines[j])
    ensures var lines := Split(docstring, '\n');
      EndsWith(CanonicalText(docstring), Verbatim(lines[j..]))
  {
    var lines := Split(docstring, '\n');
    var k := FirstStop(lines);
    FirstStopBefore(lines, j);
    assert lines[k..] == lines[k..j] + lines[j..];
    VerbatimAppend(lines[k..j], lines[j..]);
    var g := Grouped(lines[..k], false) + Verbatim(lines[k..j]);
    Assoc(Grouped(lines[..k], false), Verbatim(lines[k..j]), Verbatim(lines[j..]));
    EndsWithConcat(g, Verbatim(lines[j..]));
  }

  /** Without a section marker the whole docstring is grouped. */
  lemma NoStopAllGrouped(docstring: string)
    requires forall line :: line in Split(docstring, '\n') ==> !IsStop(line)
    ensures CanonicalText(docstring) == Grouped(Split(docstring, '\n'), false)
  {
    var lines := Split(docstring, '\n');
    FirstStopNone(lines);
    assert lines[..|lines|] == lines;
  }

  // ---------------------------------------------------------------------
  // The grouped part

  lemma {:induction false} GroupedAppend(a: seq<string>, b: seq<string>, open: bool)
    ensures Grouped(a + b, open) == Grouped(a, open) + Grouped(b, OpenAfter(a, open))
    decreases |a|
  {
    if a == [] {
      assert a + b == b;
    } else {
      assert (a + b)[1..] == a[1..] + b;
      GroupedAppend(a[1..], b, GroupedLine(a[0], open).open);
    }
  }

  /** Whether a list is open after grouping `lines`. */
  function OpenAfter(lines: seq<string>, open: bool): bool
    decreases |lines|
  {
    if lines == [] then open else OpenAfter(lines[1..], GroupedLine(lines[0], open).open)
  }

  /** The text of consecutive list items. */
  function Items(bullets: seq<string>): string
    decreases |bullets|
  {
    if bullets == [] then "" else ItemText(bullets[0]) + Items(bullets[1..])
  }

  /** The text of consecutive paragraph lines. */
  function Prose(lines: seq<string>): string
    decreases |lines|
  {
    if lines == [] then "" else " " + RStrip(lines[0]) + Prose(lines[1..])
  }

  /** Bullets inside an open list add one item each, in order. */
  lemma {:induction false} BulletsInList(bullets: seq<string>, rest: seq<string>)
    requires forall i :: 0 <= i < |bullets| ==> IsBullet(bullets[i]) && bullets[i] != ""
    ensures Grouped(bullets + rest, true) == Items(bullets) + Grouped(rest, true)
    decreases |bullets|
  {
    if bullets == [] {
      assert bullets + rest == rest;
    } else {
      assert (bullets + rest)[1..] == bullets[1..] + rest;
      BulletsInList(bullets[1..], rest);
    }
  }

  /** A run of bullets outside a list opens exactly one list and adds one
      item per bullet, in order. */
  lemma BulletRun(bullets: seq<string>, rest: seq<string>)
    requires |bullets| > 0
    requires forall i :: 0 <= i < |bullets| ==> IsBullet(bullets[i])
    ensures Grouped(bullets + rest, false)
         == "\\begin{itemize}" + Items(bullets) + Grouped(rest, true)
  {
    BulletsNotEmpty(bullets);
    assert (bullets + rest)[1..] == bullets[1..] + rest;
    BulletsInList(bullets[1..], rest);
  }

  /** A bullet is never the empty line. */
  lemma BulletsNotEmpty(bullets: seq<string>)
    requires forall i :: 0 <= i < |bullets| ==> IsBullet(bullets[i])
    ensures forall i :: 0 <= i < |bullets| ==> bullets[i] != ""
  {
    assert !IsBullet("") by {
      BlankStrips("");
    }
  }

  /** An empty line after a run of bullets closes the list and then ends the
      paragraph. */
  lemma BulletRunClosed(bullets: seq<string>, rest: seq<string>)
    requires |bullets| > 0
    requires forall i :: 0 <= i < |bullets| ==> IsBullet(bullets[i])
    ensures Grouped(bullets + [""] + rest, false)
         == "\\begin{itemize}" + Items(bullets) + "\n\\end{itemize}" + "\n\n" + Grouped(rest, false)
  {
    assert bullets + [""] + rest == bullets + ([""] + rest);
    BulletRun(bullets, [""] + rest);
    assert ([""] + rest)[1..] == rest;
  }

  /** A list still open when the grouped lines run out is never closed. */
  lemma BulletRunUnclosed(bullets: seq<string>)
    requires |bullets| > 0
    requires forall i :: 0 <= i < |bullets| ==> IsBullet(bullets[i])
    ensures Grouped(bullets, false) == "\\begin{itemize}" + Items(bullets)
  {
    BulletRun(bullets, []);
    assert bullets + [] == bullets;
  }

  /** No `*` survives in an item, not only the leading one. */
  lemma ItemNoStar(line: string)
    ensures '*' !in ItemText(line)
  {
    ReplaceCharGone(line, '*', "");
    RStripSpec(Replace(line, "*", ""));
  }

  /** Lines that are neither empty nor bullets are folded into the running
      paragraph, each after a single space and with trailing white space
      removed, and do not change whether a list is open. */
  lemma {:induction false} ProseRun(lines: seq<string>, rest: seq<string>, open: bool)
    requires forall i :: 0 <= i < |lines| ==> lines[i] != "" && !IsBullet(lines[i])
    ensures Grouped(lines + rest, open) == Prose(lines) + Grouped(rest, open)
    decreases |lines|
  {
    if lines == [] {
      assert lines + rest == rest;
    } else {
      assert (lines + rest)[1..] == lines[1..] + rest;
      ProseRun(lines[1..], rest, open);
    }
  }

  /** A line of white space only is not the empty line: it adds a single
      space to the paragraph instead of ending it. */
  lemma WhitespaceLine(line: string, rest: seq<string>, open: bool)
    requires line != [] && forall i :: 0 <= i < |line| ==> IsSpace(line[i])
    ensures Grouped([line] + rest, open) == " " + Grouped(rest, open)
  {
    BlankStrips(line);
    assert ([line] + rest)[1..] == rest;
  }
}
