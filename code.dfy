/**
 * The code command (`code` of the command manager in Markdown.Editor.js): a
 * selection on lines of its own, or over several lines, is indented by four
 * spaces (or outdented when none of its lines reads as text); a selection
 * inside a line is put between backticks, or has them taken off.
 */
module Code {
  import opened Strings
  import opened Chunks
  import opened Textarea
  import opened Texts
  import opened Lines

  /** `/\S[ ]*$/`: `before` has text on its last line, before spaces only. */
  predicate HasTextBefore(b: string) {
    var t := TrailingRun(b, Only(' '));
    t < |b| && !IsSpace(b[|b| - t - 1])
  }

  /** `/^[ ]*\S/`: `after` has text on its first line, after spaces only. */
  predicate HasTextAfter(a: string) {
    var l := LeadingRun(a, Only(' '));
    l < |a| && !IsSpace(a[l])
  }

  // ---------------------------------------------------------------------
  // Four-space code
  // ---------------------------------------------------------------------

  /** `(\t|[ ]{4,})` at `p`, within `s[..end]`. */
  predicate IndentAt(s: string, p: nat, end: nat)
    requires p <= end <= |s|
  {
    (p < end && s[p] == '\t') || (p + 4 <= end && s[p..p + 4] == "    ")
  }

  /** `/(\n|^)(\t|[ ]{4,}).*\n$/`: the last line of `before` is a code line, and a line break ends it. */
  predicate EndsWithCodeLine(b: string) {
    |b| > 0 && b[|b| - 1] == '\n' &&
    var m := |b| - 1;
    var q := m - TrailingRun(b[..m], Dot);
    (q == 0 || b[q - 1] == '\n') && IndentAt(b, q, m)
  }

  /** `/^\n(\t|[ ]{4,})/`: the line after the line break `after` starts with is a code line. */
  predicate StartsWithCodeLine(a: string) {
    |a| > 0 && a[0] == '\n' && IndentAt(a, 1, |a|)
  }

  /**
   * Four spaces at the end of `before` join the selection, which is then
   * put on lines of its own: one blank line around it, none next to code
   * lines it continues.
   */
  function IndentedLines(x: Regions): Regions {
    OwnLines(IndentJoined(x))
  }

  /** Four spaces at the end of `before` join the selection. */
  function IndentJoined(x: Regions): Regions {
    if EndsWith(x.before, "    ") then x.(before := x.before[..|x.before| - 4], selection := "    " + x.selection) else x
  }

  /** The selection put on lines of its own, next to code lines it continues. */
  function OwnLines(y: Regions): Regions {
    var back := if EndsWithCodeLine(y.before) then 0 else 1;
    var forward := if StartsWithCodeLine(y.after) then 0 else 1;
    SkipLinesSpec(y, back, forward, false)
  }

  /** `^[ ]{0,3}\S` at `p`: a line that reads as text, not as code. */
  predicate TextLineAt(s: string, p: nat)
    requires p <= |s|
  {
    var a := Min(RunEnd(s, p, Only(' ')) - p, 3);
    p + a < |s| && !IsSpace(s[p + a])
  }

  /** `/^[ ]{0,3}\S/m`: some line of `s` reads as text. */
  predicate HasTextLine(s: string)
    decreases |s|
  {
    TextLineAt(s, 0) || (var e := RunEnd(s, 0, Dot); e < |s| && HasTextLine(s[e + 1..]))
  }

  /** `line.replace(/^(?:[ ]{4}|[ ]{0,3}\t)/, "")`: one level of indentation off. */
  function OutdentLine(line: string): string {
    if |line| >= 4 && line[..4] == "    " then line[4..]
    else
      var a := Min(RunEnd(line, 0, Only(' ')), 3);
      if a < |line| && line[a] == '\t' then line[a + 1..] else line
  }

  /** `s.replace(/^(?:[ ]{4}|[ ]{0,3}\t)/gm, "")`: one level of indentation off every line. */
  function OutdentLines(s: string): string
    decreases |s|
  {
    var e := RunEnd(s, 0, Dot);
    var line := OutdentLine(s[..e]);
    if e == |s| then line else line + [s[e]] + OutdentLines(s[e + 1..])
  }

  /**
   * The four-space branch: an empty selection becomes the example text
   * after four spaces; one with a line that reads as text is indented (a
   * single line by four spaces added to `before`, so they are not
   * selected); any other is outdented.
   */
  function IndentBranch(x: Regions, strings: map<string, string>): Regions {
    IndentSelection(IndentedLines(x), strings)
  }

  /** The four-space branch once the selection is on lines of its own. */
  function IndentSelection(y: Regions, strings: map<string, string>): Regions {
    if y.selection == [] then y.(startTag := "    ", selection := GetString(strings, "codeexample"))
    else if HasTextLine(y.selection) then
      if '\n' in y.selection then y.(selection := PrefixLines(y.selection, "    ")) else y.(before := y.before + "    ")
    else y.(selection := OutdentLines(y.selection))
  }

  // ---------------------------------------------------------------------
  // Backticks
  // ---------------------------------------------------------------------

  /** The chunk `trimWhitespace()` and `findTags(/`/, /`/)` leave. */
  function BacktickTags(x: Regions): Regions {
    FindTagsSpec(TrimWhitespaceSpec(x, false), Backtick, Backtick)
  }

  /**
   * The backtick branch: with no backtick around the selection, one goes on
   * each side (and an empty selection becomes the example text); a lone end
   * backtick is appended to `before`; otherwise both tags are dropped.
   */
  function BacktickBranch(x: Regions, strings: map<string, string>): Regions {
    ResolveBackticks(BacktickTags(x), strings)
  }

  /** The backtick branch once the tags are found. */
  function ResolveBackticks(y: Regions, strings: map<string, string>): Regions {
    if y.startTag == [] && y.endTag == [] then
      y.(startTag := "`", endTag := "`", selection := if y.selection == [] then GetString(strings, "codeexample") else y.selection)
    else if y.endTag != [] && y.startTag == [] then y.(before := y.before + y.endTag, endTag := "")
    else y.(startTag := "", endTag := "")
  }

  /** Four spaces for a selection on lines of its own or over several lines, backticks otherwise. */
  predicate UsesIndent(x: Regions) {
    (!HasTextAfter(x.after) && !HasTextBefore(x.before)) || '\n' in x.selection
  }

  /** `code` on the chunks. */
  function CodeRegions(x: Regions, strings: map<string, string>): Regions {
    if UsesIndent(x) then IndentBranch(x, strings) else BacktickBranch(x, strings)
  }

  /** `code` on the text area. */
  function CodeSpec(st: State, strings: map<string, string>): State {
    StateOf(CodeRegions(RegionsOf(st), strings), st.scrollTop)
  }

  // ---------------------------------------------------------------------
  // Properties
  // ---------------------------------------------------------------------

  /** Four spaces come off a line they were put on. */
  lemma OutdentIndented(line: string)
    ensures OutdentLine("    " + line) == line
  {
    assert ("    " + line)[..4] == "    ";
  }

  /** `OutdentLines` on a first line and its terminator. */
  lemma OutdentLinesCons(line: string, c: char, rest: string)
    requires All(line, Dot) && !In(c, Dot)
    ensures OutdentLines(line + [c] + rest) == OutdentLine(line) + [c] + OutdentLines(rest)
  {
    FirstLine(line, c, rest);
  }

  /** `OutdentLines` on a last line without a terminator. */
  lemma OutdentLinesOne(line: string)
    requires All(line, Dot)
    ensures OutdentLines(line) == OutdentLine(line)
  {
    OnlyLine(line);
    assert line[..|line|] == line;
  }

  /** One line indented and outdented. */
  lemma OutdentIndentedLine(s: string)
    requires RunEnd(s, 0, Dot) == |s|
    ensures OutdentLines(PrefixLines(s, "    ")) == s
  {
    assert All("    " + s, Dot) by {
      forall k | 0 <= k < |s| ensures In(s[k], Dot) { }
    }
    OutdentLinesOne("    " + s);
    OutdentIndented(s);
  }

  /** One more line, on the front of lines that come back. */
  lemma OutdentIndentedStep(s: string, e: nat)
    requires e == RunEnd(s, 0, Dot) < |s|
    requires OutdentLines(PrefixLines(s[e + 1..], "    ")) == s[e + 1..]
    ensures OutdentLines(PrefixLines(s, "    ")) == s
  {
    var line, rest := s[..e], s[e + 1..];
    LineSplit(s, e, "    ");
    PrefixLinesCons(s, e, "    ");
    OutdentLinesCons("    " + line, s[e], PrefixLines(rest, "    "));
    OutdentIndented(line);
  }

  /** Outdenting gives back the lines indented by four spaces. */
  lemma {:induction false} OutdentIndentedLines(s: string)
    ensures OutdentLines(PrefixLines(s, "    ")) == s
    decreases |s|
  {
    var e := RunEnd(s, 0, Dot);
    if e == |s| {
      OutdentIndentedLine(s);
    } else {
      OutdentIndentedLines(s[e + 1..]);
      OutdentIndentedStep(s, e);
    }
  }

  /** A line indented by four spaces does not read as text. */
  lemma IndentedNotText(s: string)
    ensures !TextLineAt("    " + s, 0)
  {
    var r := "    " + s;
    assert r[3] == ' ';
    assert RunEnd(r, 0, Only(' ')) >= 3 by {
      assert r[0] == ' ' && r[1] == ' ' && r[2] == ' ';
    }
  }

  /**
   * No line indented by four spaces reads as text, so the command run
   * again on the indented lines outdents them.
   */
  lemma {:induction false} IndentedHasNoTextLine(s: string)
    ensures !HasTextLine(PrefixLines(s, "    "))
    decreases |s|
  {
    var e := RunEnd(s, 0, Dot);
    var r := PrefixLines(s, "    ");
    if e == |s| {
      assert r == "    " + s;
      IndentedNotText(s);
      assert All(r, Dot) by {
        forall k | 0 <= k < |s| ensures In(s[k], Dot) { }
      }
      OnlyLine(r);
    } else {
      IndentedHasNoTextLine(s[e + 1..]);
      IndentedNoTextStep(s, e);
    }
  }

  lemma IndentedNoTextStep(s: string, e: nat)
    requires e == RunEnd(s, 0, Dot) < |s|
    requires !HasTextLine(PrefixLines(s[e + 1..], "    "))
    ensures !HasTextLine(PrefixLines(s, "    "))
  {
    PrefixLinesCons(s, e, "    ");
    LineSplit(s, e, "");
    assert "" + s[..e] == s[..e];
    IndentedLineNotText(s[..e], s[e], PrefixLines(s[e + 1..], "    "));
  }

  /** An indented first line, followed by lines that are not text, leaves no text line. */
  lemma IndentedLineNotText(u: string, c: char, rest: string)
    requires All(u, Dot) && !In(c, Dot) && !HasTextLine(rest)
    ensures !HasTextLine(("    " + u) + [c] + rest)
  {
    var line := "    " + u;
    assert All(line, Dot) by {
      forall k | 0 <= k < |line| ensures In(line[k], Dot) {
        if k >= 4 {
          assert line[k] == u[k - 4];
        }
      }
    }
    IndentedNotText(u + [c] + rest);
    assert line + [c] + rest == "    " + (u + [c] + rest);
    NoTextLineCons(line, c, rest);
  }

  /** A first line that is not text, followed by lines that are not, leaves no text line. */
  lemma NoTextLineCons(line: string, c: char, rest: string)
    requires All(line, Dot) && !In(c, Dot)
    requires !TextLineAt(line + [c] + rest, 0) && !HasTextLine(rest)
    ensures !HasTextLine(line + [c] + rest)
  {
    FirstLine(line, c, rest);
  }

  /** A selection without white space at its edges is left where it is by `trimWhitespace`. */
  lemma TrimKeeps(x: Regions)
    requires x.selection != [] && !IsSpace(x.selection[0]) && !IsSpace(x.selection[|x.selection| - 1])
    ensures TrimWhitespaceSpec(x, false) == x
  {
    var s := x.selection;
    assert LeadingRun(s, Space) == 0;
    assert s[0..] == s;
    assert TrailingRun(s, Space) == 0;
    assert s[..|s|] == s;
  }

  /** Text that is not inside backticks, on a line with other text, is put between two. */
  lemma BackticksAdded(b: string, s: string, a: string, strings: map<string, string>)
    requires s != [] && !IsSpace(s[0]) && !IsSpace(s[|s| - 1]) && '\n' !in s
    requires s[0] != '`' && s[|s| - 1] != '`' && !EndsWith(b, "`") && !(|a| > 0 && a[0] == '`')
    requires HasTextBefore(b) || HasTextAfter(a)
    ensures CodeRegions(Regions(b, "", s, "", a), strings) == Regions(b, "`", s, "`", a)
  {
    var x := Regions(b, "", s, "", a);
    TrimKeeps(x);
    NoBackticksFound(b, s, a);
  }

  /** No backtick just outside or at the edges of the selection: `findTags` finds none. */
  lemma NoBackticksFound(b: string, s: string, a: string)
    requires s != [] && s[0] != '`' && s[|s| - 1] != '`' && !EndsWith(b, "`") && !(|a| > 0 && a[0] == '`')
    ensures FindTagsSpec(Regions(b, "", s, "", a), Backtick, Backtick) == Regions(b, "", s, "", a)
  {
    var x := Regions(b, "", s, "", a);
    assert MatchAtEnd(Backtick, b) == 0;
    assert b[..|b|] == b && b[|b|..] == [];
    assert BeforeTailToStartTag(x, 0) == x;
    assert MatchAtStart(Backtick, s) == 0;
    assert s[..0] == [] && s[0..] == s;
    assert SelectionHeadToStartTag(x, 0) == x;
    assert MatchAtEnd(Backtick, s) == 0;
    assert s[..|s|] == s && s[|s|..] == [];
    assert SelectionTailToEndTag(x, 0) == x;
    assert MatchAtStart(Backtick, a) == 0;
    assert a[..0] == [] && a[0..] == a;
  }

  /** The backticks just outside a selection without them at its own edges become its tags. */
  lemma BackticksFound(b: string, s: string, a: string)
    requires s != [] && s[0] != '`' && s[|s| - 1] != '`'
    ensures FindTagsSpec(Regions(b + "`", "", s, "", "`" + a), Backtick, Backtick) == Regions(b, "`", s, "`", a)
  {
    var x := Regions(b + "`", "", s, "", "`" + a);
    assert MatchAtEnd(Backtick, x.before) == 1;
    assert (b + "`")[..|b|] == b && (b + "`")[|b|..] == "`";
    var x1 := Regions(b, "`", s, "", "`" + a);
    assert BeforeTailToStartTag(x, 1) == x1;
    assert MatchAtStart(Backtick, s) == 0;
    assert s[..0] == [] && s[0..] == s;
    assert SelectionHeadToStartTag(x1, 0) == x1;
    assert MatchAtEnd(Backtick, s) == 0;
    assert s[..|s|] == s && s[|s|..] == [];
    assert SelectionTailToEndTag(x1, 0) == x1;
    assert MatchAtStart(Backtick, "`" + a) == 1;
    assert ("`" + a)[..1] == "`" && ("`" + a)[1..] == a;
  }

  /** The same text, now between backticks, has them taken off. */
  lemma BackticksRemoved(b: string, s: string, a: string, strings: map<string, string>)
    requires s != [] && !IsSpace(s[0]) && !IsSpace(s[|s| - 1]) && '\n' !in s
    requires s[0] != '`' && s[|s| - 1] != '`'
    ensures CodeRegions(Regions(b + "`", "", s, "", "`" + a), strings) == Regions(b, "", s, "", a)
  {
    var x := Regions(b + "`", "", s, "", "`" + a);
    assert HasTextBefore(x.before) by {
      assert TrailingRun(x.before, Only(' ')) == 0;
    }
    TrimKeeps(x);
    BackticksFound(b, s, a);
  }

  /**
   * Pressing the button twice on text inside a line gives the text back:
   * the first press puts the selection between backticks, and on the text
   * that leaves (the backticks outside the new selection) the second press
   * takes them off.
   */
  lemma BacktickRoundTrip(b: string, s: string, a: string, strings: map<string, string>)
    requires s != [] && !IsSpace(s[0]) && !IsSpace(s[|s| - 1]) && '\n' !in s
    requires s[0] != '`' && s[|s| - 1] != '`' && !EndsWith(b, "`") && !(|a| > 0 && a[0] == '`')
    requires HasTextBefore(b) || HasTextAfter(a)
    ensures var r := CodeRegions(Regions(b, "", s, "", a), strings);
            CodeRegions(Regions(r.before + r.startTag, "", r.selection, "", r.endTag + r.after), strings) == Regions(b, "", s, "", a)
  {
    BackticksAdded(b, s, a, strings);
    BackticksRemoved(b, s, a, strings);
  }

  /** The backtick `findTags` matches at either edge of a string is at most one backtick. */
  lemma BacktickEdges(s: string)
    ensures var n := MatchAtStart(Backtick, s); n <= 1 && All(s[..n], Only('`'))
    ensures var m := MatchAtEnd(Backtick, s); m <= 1 && All(s[|s| - m..], Only('`'))
  {
  }

  /** Two runs of backticks make one. */
  lemma BackticksAppend(a: string, b: string)
    requires All(a, Only('`')) && All(b, Only('`'))
    ensures All(a + b, Only('`'))
  {
    forall i | 0 <= i < |a + b| ensures In((a + b)[i], Only('`')) {
      if i >= |a| {
        assert (a + b)[i] == b[i - |a|];
      }
    }
  }

  /** `findTags(/`/, /`/)` on a chunk without tags finds at most one backtick on each side of each edge. */
  lemma BacktickTagsShape(t: Regions)
    requires t.startTag == [] && t.endTag == []
    ensures var y := FindTagsSpec(t, Backtick, Backtick);
            |y.startTag| <= 2 && |y.endTag| <= 2 && All(y.startTag, Only('`')) && All(y.endTag, Only('`'))
  {
    BacktickEdges(t.before);
    var x1 := BeforeTailToStartTag(t, MatchAtEnd(Backtick, t.before));
    assert x1.startTag == t.before[|t.before| - MatchAtEnd(Backtick, t.before)..];
    BacktickEdges(x1.selection);
    BackticksAppend(x1.startTag, x1.selection[..MatchAtStart(Backtick, x1.selection)]);
    var x2 := SelectionHeadToStartTag(x1, MatchAtStart(Backtick, x1.selection));
    BacktickEdges(x2.selection);
    var x3 := SelectionTailToEndTag(x2, MatchAtEnd(Backtick, x2.selection));
    assert x3.endTag == x2.selection[|x2.selection| - MatchAtEnd(Backtick, x2.selection)..];
    BacktickEdges(x3.after);
    BackticksAppend(x3.after[..MatchAtStart(Backtick, x3.after)], x3.endTag);
  }

  /**
   * Where the found backticks go: with a start backtick both found ones
   * are dropped, even when there is no end one; a lone end backtick (or
   * two) moves in front of the selection.
   */
  lemma ResolveBackticksText(y: Regions, strings: map<string, string>)
    ensures var r := ResolveBackticks(y, strings);
            (y.startTag != [] ==> r.Text() == y.before + y.selection + y.after) &&
            (y.startTag == [] && y.endTag != [] ==> r.Text() == y.before + y.endTag + y.selection + y.after) &&
            (y.startTag == [] && y.endTag == [] ==> r.startTag == "`" && r.endTag == "`")
  {
  }

  /**
   * The backtick branch of the command: the tags it finds are backticks,
   * and those it finds are dropped, or moved in front of the selection when
   * only an end one is found.
   */
  lemma BacktickTagsResolved(x: Regions, strings: map<string, string>)
    requires !UsesIndent(x) && x.startTag == [] && x.endTag == []
    ensures var y := BacktickTags(x);
            var r := CodeRegions(x, strings);
            All(y.startTag, Only('`')) && All(y.endTag, Only('`')) &&
            (y.startTag != [] ==> r.Text() == y.before + y.selection + y.after) &&
            (y.startTag == [] && y.endTag != [] ==> r.Text() == y.before + y.endTag + y.selection + y.after)
  {
    BacktickTagsShape(TrimWhitespaceSpec(x, false));
    ResolveBackticksText(BacktickTags(x), strings);
  }

  // ---------------------------------------------------------------------
  // The command
  // ---------------------------------------------------------------------

  /** The selection put on lines of its own, on the chunk. */
  method MoveToOwnLines(chunk: Chunk)
    modifies chunk
    ensures chunk.Value() == IndentedLines(old(chunk.Value())) && chunk.scrollTop == old(chunk.scrollTop)
  {
    JoinIndent(chunk);
    SkipToOwnLines(chunk);
  }

  /** Four spaces at the end of `before` moved into the selection, on the chunk. */
  method JoinIndent(chunk: Chunk)
    modifies chunk
    ensures chunk.Value() == IndentJoined(old(chunk.Value())) && chunk.scrollTop == old(chunk.scrollTop)
  {
    if EndsWith(chunk.before, "    ") {
      chunk.selection := "    " + chunk.selection;
      chunk.before := chunk.before[..|chunk.before| - 4];
    }
  }

  /** `skipLines` with the counts the code lines around call for, on the chunk. */
  method SkipToOwnLines(chunk: Chunk)
    modifies chunk
    ensures chunk.Value() == OwnLines(old(chunk.Value())) && chunk.scrollTop == old(chunk.scrollTop)
  {
    var linesBack := 1;
    var linesForward := 1;
    if EndsWithCodeLine(chunk.before) {
      linesBack := 0;
    }
    if StartsWithCodeLine(chunk.after) {
      linesForward := 0;
    }
    chunk.SkipLines(linesBack, linesForward, false);
  }

  /** The four-space branch, on the chunk. */
  method Indent(chunk: Chunk, strings: map<string, string>)
    modifies chunk
    ensures chunk.Value() == IndentBranch(old(chunk.Value()), strings) && chunk.scrollTop == old(chunk.scrollTop)
  {
    MoveToOwnLines(chunk);
    IndentLines(chunk, strings);
  }

  /** The lines of the selection indented or outdented, on the chunk. */
  method IndentLines(chunk: Chunk, strings: map<string, string>)
    modifies chunk
    ensures chunk.Value() == IndentSelection(old(chunk.Value()), strings) && chunk.scrollTop == old(chunk.scrollTop)
  {
    if chunk.selection == [] {
      chunk.startTag := "    ";
      chunk.selection := GetString(strings, "codeexample");
    } else if HasTextLine(chunk.selection) {
      if '\n' in chunk.selection {
        chunk.selection := PrefixLines(chunk.selection, "    ");
      } else {
        chunk.before := chunk.before + "    ";
      }
    } else {
      chunk.selection := OutdentLines(chunk.selection);
    }
  }

  /** The found backticks added, moved or dropped, on the chunk. */
  method Resolve(chunk: Chunk, strings: map<string, string>)
    modifies chunk
    ensures chunk.Value() == ResolveBackticks(old(chunk.Value()), strings) && chunk.scrollTop == old(chunk.scrollTop)
  {
    if chunk.startTag == [] && chunk.endTag == [] {
      chunk.startTag, chunk.endTag := "`", "`";
      if chunk.selection == [] {
        chunk.selection := GetString(strings, "codeexample");
      }
    } else if chunk.endTag != [] && chunk.startTag == [] {
      chunk.before := chunk.before + chunk.endTag;
      chunk.endTag := "";
    } else {
      chunk.startTag, chunk.endTag := "", "";
    }
  }

  /** The backtick branch, on the chunk. */
  method Backticks(chunk: Chunk, strings: map<string, string>)
    modifies chunk
    ensures chunk.Value() == BacktickBranch(old(chunk.Value()), strings) && chunk.scrollTop == old(chunk.scrollTop)
  {
    chunk.TrimWhitespace(false);
    chunk.FindTags(Backtick, Backtick);
    Resolve(chunk, strings);
  }

  /** The code command: the chunks are taken from the text area, changed and written back. */
  method CodeCommand(state: TextareaState, strings: map<string, string>)
    modifies state
    ensures state.Value() == CodeSpec(old(state.Value()), strings)
  {
    var chunk := state.GetChunks();
    var hasTextBefore := HasTextBefore(chunk.before);
    var hasTextAfter := HasTextAfter(chunk.after);
    if (!hasTextAfter && !hasTextBefore) || '\n' in chunk.selection {
      Indent(chunk, strings);
    } else {
      Backticks(chunk, strings);
    }
    state.SetChunks(chunk);
  }
}
