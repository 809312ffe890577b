/**
 * `doWrap` of the command manager in Markdown.Editor.js: bold, italic and the
 * automatic pairing of brackets and quotes. The selection is trimmed, its
 * blank lines are collapsed, and the markers are put around it, or taken away
 * again when the command works as a toggle and finds them already there.
 */
module Emphasis {
  import opened Strings
  import opened Chunks
  import opened Textarea

  /** `/\n{2,}/g` replaced by `"\n"`: every run of line breaks becomes a single one. */
  function CollapseNewlines(s: string): (r: string)
    ensures |r| <= |s| && (r == [] <==> s == [])
    ensures r != [] ==> (r[0] == '\n' <==> s[0] == '\n')
    decreases |s|
  {
    if s == [] then []
    else if s[0] == '\n' then
      var n := LeadingRun(s, Newline);
      assert n >= 1;
      "\n" + CollapseNewlines(s[n..])
    else [s[0]] + CollapseNewlines(s[1..])
  }

  /** No two line breaks in a row. */
  predicate NoBlankLine(s: string) {
    forall i :: 0 <= i < |s| - 1 ==> !(s[i] == '\n' && s[i + 1] == '\n')
  }

  /** Collapsing leaves no blank line and loses no character other than a line break. */
  lemma {:induction false} CollapseNewlinesProperties(s: string)
    ensures NoBlankLine(CollapseNewlines(s))
    ensures Without(CollapseNewlines(s), Newline) == Without(s, Newline)
    decreases |s|
  {
    if s != [] {
      var r := CollapseNewlines(s);
      if s[0] == '\n' {
        var n := LeadingRun(s, Newline);
        var rest := CollapseNewlines(s[n..]);
        CollapseNewlinesProperties(s[n..]);
        assert r == "\n" + rest;
        assert rest != [] ==> rest[0] != '\n';
        forall i | 0 <= i < |r| - 1
          ensures !(r[i] == '\n' && r[i + 1] == '\n')
        {
          if i >= 1 {
            assert r[i] == rest[i - 1] && r[i + 1] == rest[i];
          }
        }
        HeadWithout(s, n, Newline);
        WithoutAppend("\n", rest, Newline);
      } else {
        var rest := CollapseNewlines(s[1..]);
        CollapseNewlinesProperties(s[1..]);
        assert r == [s[0]] + rest;
        forall i | 0 <= i < |r| - 1
          ensures !(r[i] == '\n' && r[i + 1] == '\n')
        {
          if i >= 1 {
            assert r[i] == rest[i - 1] && r[i + 1] == rest[i];
          }
        }
        WithoutAppend([s[0]], rest, Newline);
        assert s == [s[0]] + s[1..];
        WithoutAppend([s[0]], s[1..], Newline);
      }
    }
  }

  /** Text without blank lines is left as it is, so collapsing twice is collapsing once. */
  lemma {:induction false} CollapseNewlinesIdentity(s: string)
    requires NoBlankLine(s)
    ensures CollapseNewlines(s) == s
    decreases |s|
  {
    if s != [] {
      assert NoBlankLine(s[1..]) by {
        forall i | 0 <= i < |s| - 2
          ensures !(s[1..][i] == '\n' && s[1..][i + 1] == '\n')
        {
          assert s[1..][i] == s[i + 1] && s[1..][i + 1] == s[i + 2];
        }
      }
      CollapseNewlinesIdentity(s[1..]);
      if s[0] == '\n' {
        assert |s| >= 2 ==> s[1] != '\n';
        assert LeadingRun(s, Newline) == 1;
      }
      assert s == [s[0]] + s[1..];
    }
  }

  /** The chunk after `trimWhitespace()` and the collapsing of blank lines. */
  function Prepared(x: Regions): Regions {
    var y := TrimWhitespaceSpec(x, false);
    y.(selection := CollapseNewlines(y.selection))
  }

  /**
   * The toggle test: `prev`, the shorter of the runs of the first marker
   * character ending `before` and starting `after`, covers the markers, and
   * is not the `**` of a bold text around a one-character marker.
   */
  predicate Unmarks(p: Regions, charsLeft: string, charsRight: string)
    requires charsLeft != [] && charsRight != []
  {
    var prev := Min(TrailingRun(p.before, Only(charsLeft[0])), LeadingRun(p.after, Only(charsRight[0])));
    prev >= |charsLeft| && (prev != 2 || |charsLeft| != 1)
  }

  /** `charsLeft` is cut from the end of `before` and `charsRight` from the start of `after`, where present. */
  function RemoveMarks(p: Regions, charsLeft: string, charsRight: string): Regions {
    p.(before := if EndsWith(p.before, charsLeft) then p.before[..|p.before| - |charsLeft|] else p.before,
       after := if charsRight <= p.after then p.after[|charsRight|..] else p.after)
  }

  /** `charsLeft` is appended to `before` and `charsRight` prepended to `after`. */
  function AddMarks(p: Regions, charsLeft: string, charsRight: string): Regions {
    p.(before := p.before + charsLeft, after := charsRight + p.after)
  }

  /** The markers taken away when the toggle test says so, put around the selection otherwise. */
  function Marked(p: Regions, charsLeft: string, charsRight: string, toggle: bool): Regions
    requires toggle ==> charsLeft != [] && charsRight != []
  {
    if toggle && Unmarks(p, charsLeft, charsRight) then RemoveMarks(p, charsLeft, charsRight)
    else AddMarks(p, charsLeft, charsRight)
  }

  /** The chunk `doWrap` leaves; it writes it back only when the prepared selection is not empty. */
  function DoWrapSpec(x: Regions, charsLeft: string, charsRight: string, toggle: bool): Regions
    requires toggle ==> charsLeft != [] && charsRight != []
  {
    var p := Prepared(x);
    if p.selection == [] then p else Marked(p, charsLeft, charsRight, toggle)
  }

  /** The whole command on a text-area state: the state it leaves (unchanged when nothing is selected). */
  function DoWrapState(st: State, charsLeft: string, charsRight: string, toggle: bool): State
    requires toggle ==> charsLeft != [] && charsRight != []
  {
    var x := RegionsOf(st);
    if Prepared(x).selection == [] then st
    else StateOf(DoWrapSpec(x, charsLeft, charsRight, toggle), st.scrollTop)
  }

  /** The first half of `doWrap`: `trimWhitespace()`, then the blank lines of the selection collapsed. */
  method Prepare(chunk: Chunk)
    modifies chunk
    ensures chunk.Value() == Prepared(old(chunk.Value())) && chunk.scrollTop == old(chunk.scrollTop)
  {
    chunk.TrimWhitespace(false);
    chunk.selection := CollapseNewlines(chunk.selection);
  }

  /** The second half of `doWrap`, for a selection that is not empty. */
  method Mark(chunk: Chunk, charsLeft: string, charsRight: string, toggle: bool)
    requires toggle ==> charsLeft != [] && charsRight != []
    modifies chunk
    ensures chunk.Value() == Marked(old(chunk.Value()), charsLeft, charsRight, toggle)
    ensures chunk.scrollTop == old(chunk.scrollTop)
  {
    var prev := 0;
    if toggle {
      var before := TrailingRun(chunk.before, Only(charsLeft[0]));
      var after := LeadingRun(chunk.after, Only(charsRight[0]));
      prev := Min(before, after);
    }
    if toggle && prev >= |charsLeft| && (prev != 2 || |charsLeft| != 1) {
      if EndsWith(chunk.before, charsLeft) {
        chunk.before := chunk.before[..|chunk.before| - |charsLeft|];
      }
      if charsRight <= chunk.after {
        chunk.after := chunk.after[|charsRight|..];
      }
    } else {
      chunk.before := chunk.before + charsLeft;
      chunk.after := charsRight + chunk.after;
    }
  }

  /**
   * `doWrap(charsLeft, charsRight, toggle)`: `finished` is the value returned
   * (true, or undefined when the selection is blank and nothing is written).
   */
  method DoWrap(state: TextareaState, charsLeft: string, charsRight: string, toggle: bool) returns (finished: bool)
    requires toggle ==> charsLeft != [] && charsRight != []
    modifies state
    ensures finished <==> Prepared(RegionsOf(old(state.Value()))).selection != []
    ensures state.Value() == DoWrapState(old(state.Value()), charsLeft, charsRight, toggle)
  {
    var chunk := state.GetChunks();
    Prepare(chunk);
    finished := chunk.selection != [];
    if finished {
      Mark(chunk, charsLeft, charsRight, toggle);
      state.SetChunks(chunk);
    }
  }

  /** `bold`. */
  method Bold(state: TextareaState) returns (finished: bool)
    modifies state
    ensures state.Value() == DoWrapState(old(state.Value()), "**", "**", true)
  {
    finished := DoWrap(state, "**", "**", true);
  }

  /** `italic`. */
  method Italic(state: TextareaState) returns (finished: bool)
    modifies state
    ensures state.Value() == DoWrapState(old(state.Value()), "*", "*", true)
  {
    finished := DoWrap(state, "*", "*", true);
  }

  // ---------------------------------------------------------------------
  // Properties
  // ---------------------------------------------------------------------

  /** Stripping white space leaves nothing exactly when there was nothing but white space. */
  lemma StripEmpty(s: string)
    ensures Strip(s, Space) == [] <==> All(s, Space)
  {
    var n := LeadingRun(s, Space);
    var s1 := s[n..];
    if n < |s| {
      assert s1[0] == s[n];
      assert !In(s1[0], Space);
      var t := TrailingRun(s1, Space);
      assert t < |s1|;
    }
  }

  /** The command does nothing exactly when the selection holds nothing but white space. */
  lemma DoWrapBlankSelection(x: Regions)
    ensures Prepared(x).selection == [] <==> All(x.selection, Space)
  {
    TrimWhitespaceSelection(x, false);
    StripEmpty(x.selection);
  }

  /** A selection with no white space at its edges and no blank line is prepared as it is. */
  lemma PreparedIdentity(x: Regions)
    requires x.selection != [] && !IsSpace(x.selection[0]) && !IsSpace(x.selection[|x.selection| - 1])
    requires NoBlankLine(x.selection)
    ensures Prepared(x) == x
  {
    var s := x.selection;
    assert LeadingRun(s, Space) == 0;
    assert s[0..] == s;
    assert TrailingRun(s, Space) == 0;
    assert s[..|s|] == s;
    CollapseNewlinesIdentity(s);
  }

  /** Markers put around a selection whose neighbours are not marker characters. */
  lemma AddMarksUnmarks(x: Regions, m: string, c: char)
    requires m != [] && All(m, Only(c))
    requires TrailingRun(x.before, Only(c)) == 0 && LeadingRun(x.after, Only(c)) == 0
    ensures !Unmarks(x, m, m)
    ensures Unmarks(AddMarks(x, m, m), m, m)
  {
    TrailingRunAppend(x.before, m, Only(c));
    LeadingRunPrepend(m, x.after, Only(c));
  }

  /** Taking away markers just put around the selection restores the chunk. */
  lemma RemoveAddMarks(x: Regions, m: string)
    ensures RemoveMarks(AddMarks(x, m, m), m, m) == x
  {
    assert (x.before + m)[..|x.before + m| - |m|] == x.before;
    assert (m + x.after)[|m|..] == x.after;
  }

  /** On a prepared chunk with a selection, `doWrap` only marks or unmarks. */
  lemma DoWrapPrepared(x: Regions, charsLeft: string, charsRight: string, toggle: bool)
    requires toggle ==> charsLeft != [] && charsRight != []
    requires Prepared(x) == x && x.selection != []
    ensures DoWrapSpec(x, charsLeft, charsRight, toggle) == Marked(x, charsLeft, charsRight, toggle)
  {
  }

  /**
   * The toggle round trip on a chunk: marking a selection whose neighbours
   * are not marker characters adds the markers, and marking again takes them
   * away, for markers of any length made of a single repeated character.
   */
  lemma ToggleRoundTrip(x: Regions, m: string, c: char)
    requires m != [] && All(m, Only(c))
    requires x.selection != [] && !IsSpace(x.selection[0]) && !IsSpace(x.selection[|x.selection| - 1])
    requires NoBlankLine(x.selection)
    requires TrailingRun(x.before, Only(c)) == 0 && LeadingRun(x.after, Only(c)) == 0
    ensures DoWrapSpec(x, m, m, true) == AddMarks(x, m, m)
    ensures DoWrapSpec(AddMarks(x, m, m), m, m, true) == x
  {
    var y := AddMarks(x, m, m);
    PreparedIdentity(x);
    PreparedIdentity(y);
    AddMarksUnmarks(x, m, c);
    RemoveAddMarks(x, m);
    DoWrapPrepared(x, m, m, true);
    DoWrapPrepared(y, m, m, true);
  }

  /** On a text area whose selection is not blank, the command writes the chunk back. */
  lemma DoWrapStateWrites(st: State, charsLeft: string, charsRight: string, toggle: bool)
    requires toggle ==> charsLeft != [] && charsRight != []
    requires Prepared(RegionsOf(st)).selection != []
    ensures DoWrapState(st, charsLeft, charsRight, toggle) == StateOf(DoWrapSpec(RegionsOf(st), charsLeft, charsRight, toggle), st.scrollTop)
  {
  }

  /** A chunk without carriage returns in its regions stands for a text without any. */
  lemma NoCarriageReturn(r: Regions)
    requires '\r' !in r.before && '\r' !in r.startTag && '\r' !in r.selection && '\r' !in r.endTag && '\r' !in r.after
    ensures '\r' !in r.Text()
  {
  }

  /** Writing back a chunk with empty tags and reading it again gives the same chunk. */
  lemma ReadBack(y: Regions, scrollTop: int)
    requires y.startTag == [] && y.endTag == []
    requires '\r' !in y.before && '\r' !in y.selection && '\r' !in y.after
    ensures RegionsOf(StateOf(y, scrollTop)) == y
  {
    NoCarriageReturn(y);
    RegionsOfStateOf(y, scrollTop);
    assert y.before + y.startTag == y.before;
    assert y.endTag + y.after == y.after;
  }

  /**
   * Bold twice on a text area gives back the original text and selection,
   * when the selection has no white space at its edges and no blank line and
   * is not already next to a `*`.
   */
  lemma BoldTwice(st: State)
    requires '\r' !in st.text && 0 <= st.start <= st.end <= |st.text|
    requires var s := st.text[st.start..st.end];
             s != [] && !IsSpace(s[0]) && !IsSpace(s[|s| - 1]) && NoBlankLine(s)
    requires TrailingRun(st.text[..st.start], Only('*')) == 0 && LeadingRun(st.text[st.end..], Only('*')) == 0
    ensures DoWrapState(DoWrapState(st, "**", "**", true), "**", "**", true) == st
  {
    var x := RegionsOf(st);
    var m := "**";
    var y := AddMarks(x, m, m);
    ToggleRoundTrip(x, m, '*');
    PreparedIdentity(x);
    DoWrapStateWrites(st, m, m, true);
    var st1 := StateOf(y, st.scrollTop);
    assert '\r' !in m;
    ReadBack(y, st.scrollTop);
    PreparedIdentity(y);
    DoWrapStateWrites(st1, m, m, true);
    StateOfRegionsOf(st);
  }

  /**
   * Marking once on such a text area puts the markers on both sides of the
   * selection, which stays selected: with `**`, `Hello world!` with `world`
   * selected becomes `Hello **world**!`.
   */
  lemma MarkOnceState(st: State, m: string, c: char)
    requires m != [] && All(m, Only(c))
    requires '\r' !in st.text && 0 <= st.start <= st.end <= |st.text|
    requires var s := st.text[st.start..st.end];
             s != [] && !IsSpace(s[0]) && !IsSpace(s[|s| - 1]) && NoBlankLine(s)
    requires TrailingRun(st.text[..st.start], Only(c)) == 0 && LeadingRun(st.text[st.end..], Only(c)) == 0
    ensures DoWrapState(st, m, m, true) ==
            State(st.text[..st.start] + m + st.text[st.start..st.end] + m + st.text[st.end..],
                  st.start + |m|, st.end + |m|, st.scrollTop)
  {
    var x := RegionsOf(st);
    ToggleRoundTrip(x, m, c);
    PreparedIdentity(x);
    DoWrapStateWrites(st, m, m, true);
    MarkedText(x.before, m, x.selection, x.after);
  }

  lemma MarkedText(a: string, m: string, b: string, c: string)
    ensures Regions(a + m, "", b, "", m + c).Text() == a + m + b + m + c
  {
    assert a + m + [] + b + [] + (m + c) == a + m + b + m + c;
  }
}
