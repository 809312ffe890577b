/**
 * The chunk: the text around the selection cut into five regions, and the
 * three operations that move text between them (`Chunks.prototype.findTags`,
 * `trimWhitespace` and `skipLines` in Markdown.Editor.js).
 */
module Chunks {
  import opened Strings

  /** The five regions of a chunk, as a value. */
  datatype Regions = Regions(before: string, startTag: string, selection: string, endTag: string, after: string) {
    /** The text the regions stand for, in order. */
    function Text(): string {
      before + startTag + selection + endTag + after
    }
  }

  /**
   * The patterns `findTags` is called with: `/\s*!?\[/` and
   * `/\][ ]?(?:\n[ ]*)?(\[.*?\])?/` by the link command, and `/`/` twice by the
   * code command.
   */
  datatype TagPattern = LinkOpen | LinkClose | Backtick

  // ---------------------------------------------------------------------
  // The link-closing pattern `\][ ]?(?:\n[ ]*)?(\[.*?\])?`
  // ---------------------------------------------------------------------

  /** Position after the optional `[ ]?(?:\n[ ]*)?` that follows the `]` at `s[0]`. */
  function AfterCloseBracket(s: string): (i: nat)
    requires |s| >= 1
    ensures 1 <= i <= |s|
  {
    var i := if |s| > 1 && s[1] == ' ' then 2 else 1;
    if i < |s| && s[i] == '\n' then i + 1 + LeadingRun(s[i + 1..], Only(' ')) else i
  }

  /** `t` is matched in full by `\][ ]?(?:\n[ ]*)?(\[.*?\])?` (what the pattern with `$` removes). */
  predicate IsLinkClose(t: string) {
    |t| >= 1 && t[0] == ']' &&
    var i := AfterCloseBracket(t);
    i == |t| ||
    (t[i] == '[' && |t| >= i + 2 && t[|t| - 1] == ']' &&
     forall j :: i < j < |t| - 1 ==> !IsLineTerminator(t[j]))
  }

  /** A full link-closing match starts at `s[k]` and runs to the end of `s`. */
  predicate LinkCloseAt(s: string, k: nat)
    requires k <= |s|
  {
    IsLinkClose(s[k..])
  }

  /** The first `j >= i` at which a full link-closing match starts, or `|s|`. */
  function FirstLinkClose(s: string, i: nat): (j: nat)
    requires i <= |s|
    ensures i <= j <= |s|
    ensures j < |s| ==> LinkCloseAt(s, j)
    ensures forall k :: i <= k < j ==> !LinkCloseAt(s, k)
    decreases |s| - i
  {
    if i == |s| || LinkCloseAt(s, i) then i else FirstLinkClose(s, i + 1)
  }

  /**
   * Length of the match of `^\][ ]?(?:\n[ ]*)?(\[.*?\])?` at the head of `s`:
   * the optional `[…]` is the shortest one that closes on the same line.
   */
  function LinkCloseHead(s: string): (n: nat)
    ensures n <= |s|
    ensures n > 0 <==> (|s| > 0 && s[0] == ']')
  {
    if |s| == 0 || s[0] != ']' then 0
    else
      var i := AfterCloseBracket(s);
      if i < |s| && s[i] == '[' then
        var stop := FirstCloseOrBreak(s, i + 1);
        if stop < |s| && s[stop] == ']' then stop + 1 else i
      else i
  }

  /** The first position `j >= i` holding `]` or a line terminator, or `|s|`. */
  function FirstCloseOrBreak(s: string, i: nat): (j: nat)
    requires i <= |s|
    ensures i <= j <= |s|
    ensures j < |s| ==> s[j] == ']' || IsLineTerminator(s[j])
    ensures forall k :: i <= k < j ==> s[k] != ']' && !IsLineTerminator(s[k])
    decreases |s| - i
  {
    if i == |s| || s[i] == ']' || IsLineTerminator(s[i]) then i else FirstCloseOrBreak(s, i + 1)
  }

  // ---------------------------------------------------------------------
  // Matches anchored at the end (`pattern$`) and at the start (`^pattern`)
  // ---------------------------------------------------------------------

  /**
   * Length of the suffix of `s` that `s.replace(pattern$, …)` removes: the
   * match that starts leftmost, 0 when there is none.
   */
  function MatchAtEnd(p: TagPattern, s: string): (n: nat)
    ensures n <= |s|
  {
    match p
    case Backtick => if EndsWith(s, "`") then 1 else 0
    case LinkClose => LinkCloseAtEnd(s)
    case LinkOpen => LinkOpenAtEnd(s)
  }

  /** The leftmost suffix of `s` that is a full link-closing match, by length (0 for none). */
  function LinkCloseAtEnd(s: string): (n: nat)
    ensures n <= |s|
    ensures n > 0 ==> LinkCloseAt(s, |s| - n)
    ensures forall k :: 0 <= k < |s| - n ==> !LinkCloseAt(s, k)
  {
    |s| - FirstLinkClose(s, 0)
  }

  /** The suffix `\s*!?\[` of `s`, by length: a `[`, the `!` before it if any, and the whitespace before those. */
  function LinkOpenAtEnd(s: string): (n: nat)
    ensures n <= |s|
    ensures n > 0 <==> EndsWith(s, "[")
    ensures n > 0 ==> n == |s| || !IsSpace(s[|s| - n - 1])
  {
    if !EndsWith(s, "[") then 0
    else
      var k := if |s| >= 2 && s[|s| - 2] == '!' then |s| - 2 else |s| - 1;
      var w := TrailingRun(s[..k], Space);
      assert k - w == |s| - (|s| - k + w);
      assert w < k ==> s[..k][k - w - 1] == s[k - w - 1];
      |s| - k + w
  }

  /** Length of the prefix of `s` that `s.replace(^pattern, …)` removes, 0 when there is none. */
  function MatchAtStart(p: TagPattern, s: string): (n: nat)
    ensures n <= |s|
    ensures p == Backtick ==> (n == 1 <==> (|s| > 0 && s[0] == '`')) && n <= 1
    ensures p == LinkClose ==> (n > 0 <==> (|s| > 0 && s[0] == ']'))
    ensures p == LinkOpen && n > 0 ==> s[n - 1] == '['
  {
    match p
    case Backtick => if |s| > 0 && s[0] == '`' then 1 else 0
    case LinkClose => LinkCloseHead(s)
    case LinkOpen =>
      var w := LeadingRun(s, Space);
      if w + 1 < |s| && s[w] == '!' && s[w + 1] == '[' then w + 2
      else if w < |s| && s[w] == '[' then w + 1
      else 0
  }

  // ---------------------------------------------------------------------
  // The single moves the three operations are made of
  // ---------------------------------------------------------------------

  /** The last `n` characters of `before` are appended to `startTag`. */
  function BeforeTailToStartTag(x: Regions, n: nat): Regions
    requires n <= |x.before|
  {
    Regions(x.before[..|x.before| - n], x.startTag + x.before[|x.before| - n..], x.selection, x.endTag, x.after)
  }

  /** The first `n` characters of `selection` are appended to `startTag`. */
  function SelectionHeadToStartTag(x: Regions, n: nat): Regions
    requires n <= |x.selection|
  {
    Regions(x.before, x.startTag + x.selection[..n], x.selection[n..], x.endTag, x.after)
  }

  /** The last `n` characters of `selection` are prepended to `endTag`. */
  function SelectionTailToEndTag(x: Regions, n: nat): Regions
    requires n <= |x.selection|
  {
    Regions(x.before, x.startTag, x.selection[..|x.selection| - n], x.selection[|x.selection| - n..] + x.endTag, x.after)
  }

  /** The first `n` characters of `after` are prepended to `endTag`. */
  function AfterHeadToEndTag(x: Regions, n: nat): Regions
    requires n <= |x.after|
  {
    Regions(x.before, x.startTag, x.selection, x.after[..n] + x.endTag, x.after[n..])
  }

  /** The first `n` characters of `selection` are appended to `before`, or dropped. */
  function SelectionHeadToBefore(x: Regions, n: nat, keep: bool): Regions
    requires n <= |x.selection|
  {
    Regions(if keep then x.before + x.selection[..n] else x.before, x.startTag, x.selection[n..], x.endTag, x.after)
  }

  /** The last `n` characters of `selection` are prepended to `after`, or dropped. */
  function SelectionTailToAfter(x: Regions, n: nat, keep: bool): Regions
    requires n <= |x.selection|
  {
    Regions(x.before, x.startTag, x.selection[..|x.selection| - n], x.endTag, if keep then x.selection[|x.selection| - n..] + x.after else x.after)
  }

  /** The last `n` characters of `selection` are appended to `endTag`. */
  function SelectionTailOntoEndTag(x: Regions, n: nat): Regions
    requires n <= |x.selection|
  {
    Regions(x.before, x.startTag, x.selection[..|x.selection| - n], x.endTag + x.selection[|x.selection| - n..], x.after)
  }

  /** The first `n` characters of `startTag` are appended to `before`. */
  function StartTagHeadToBefore(x: Regions, n: nat): Regions
    requires n <= |x.startTag|
  {
    Regions(x.before + x.startTag[..n], x.startTag[n..], x.selection, x.endTag, x.after)
  }

  /** The last `n` characters of `endTag` are appended to the END of `after`. */
  function EndTagTailOntoAfter(x: Regions, n: nat): Regions
    requires n <= |x.endTag|
  {
    Regions(x.before, x.startTag, x.selection, x.endTag[..|x.endTag| - n], x.after + x.endTag[|x.endTag| - n..])
  }

  // ---------------------------------------------------------------------
  // Specifications of the three chunk operations
  // ---------------------------------------------------------------------

  /**
   * `findTags(sp, ep)`: both start matches are appended to `startTag`; the two
   * end matches are each PREPENDED to `endTag`, so the match taken from the
   * head of `after` ends up before the one taken from the tail of `selection`.
   */
  function FindTagsSpec(x: Regions, sp: TagPattern, ep: TagPattern): Regions {
    var x1 := BeforeTailToStartTag(x, MatchAtEnd(sp, x.before));
    var x2 := SelectionHeadToStartTag(x1, MatchAtStart(sp, x1.selection));
    var x3 := SelectionTailToEndTag(x2, MatchAtEnd(ep, x2.selection));
    AfterHeadToEndTag(x3, MatchAtStart(ep, x3.after))
  }

  /** `trimWhitespace(remove)`: the whitespace at the edges of the selection moves out, or is dropped. */
  function TrimWhitespaceSpec(x: Regions, remove: bool): Regions {
    var x1 := SelectionHeadToBefore(x, LeadingRun(x.selection, Space), !remove);
    SelectionTailToAfter(x1, TrailingRun(x1.selection, Space), !remove)
  }

  /**
   * The first half of `skipLines`: newlines at the edges of the selection move
   * into the tags, then newlines at the outer edges of the tags move on into
   * `before` and `after`. The legacy `RegExp.$1` holds the newlines just cut,
   * so those cut from `endTag` are appended at the END of `after`.
   */
  function ShedNewlines(x: Regions): Regions {
    var x1 := SelectionHeadToStartTag(x, LeadingRun(x.selection, Newline));
    var x2 := SelectionTailOntoEndTag(x1, TrailingRun(x1.selection, Newline));
    var x3 := StartTagHeadToBefore(x2, LeadingRun(x2.startTag, Newline));
    EndTagTailOntoAfter(x3, TrailingRun(x3.endTag, Newline))
  }

  /**
   * A non-empty `before` gets `k` newlines at its end: replacing `\n?` `k`
   * times (at most `k` newlines kept) or, with `extra`, `\n*` (all of them).
   */
  function PadBefore(x: Regions, k: nat, extra: bool): Regions {
    if x.before == [] then x
    else x.(before := if extra then SetTrailingNewlines(x.before, k) else PadEnd(x.before, k))
  }

  /** A non-empty `after` gets `k` newlines at its start, as `PadBefore` does at the end of `before`. */
  function PadAfter(x: Regions, k: nat, extra: bool): Regions {
    if x.after == [] then x
    else x.(after := if extra then SetLeadingNewlines(x.after, k) else PadStart(x.after, k))
  }

  /** `skipLines(nb, na, extra)`. */
  function SkipLinesSpec(x: Regions, nb: nat, na: nat, extra: bool): Regions {
    PadAfter(PadBefore(ShedNewlines(x), nb + 1, extra), na + 1, extra)
  }

  // ---------------------------------------------------------------------
  // Properties of findTags
  // ---------------------------------------------------------------------

  lemma BeforeTailToStartTagText(x: Regions, n: nat)
    requires n <= |x.before| && (x.startTag == [] || n == 0)
    ensures BeforeTailToStartTag(x, n).Text() == x.Text()
  {
    assert x.before == x.before[..|x.before| - n] + x.before[|x.before| - n..];
  }

  lemma SelectionHeadToStartTagText(x: Regions, n: nat)
    requires n <= |x.selection|
    ensures SelectionHeadToStartTag(x, n).Text() == x.Text()
  {
    assert x.selection == x.selection[..n] + x.selection[n..];
  }

  lemma SelectionTailToEndTagText(x: Regions, n: nat)
    requires n <= |x.selection|
    ensures SelectionTailToEndTag(x, n).Text() == x.Text()
  {
    assert x.selection == x.selection[..|x.selection| - n] + x.selection[|x.selection| - n..];
  }

  lemma AfterHeadToEndTagText(x: Regions, n: nat)
    requires n <= |x.after| && (x.endTag == [] || n == 0)
    ensures AfterHeadToEndTag(x, n).Text() == x.Text()
  {
    assert x.after == x.after[..n] + x.after[n..];
  }

  /**
   * `findTags` keeps the text when the start match cut from `before` is not
   * put after a non-empty `startTag`, and the match cut from `after` is not put
   * in front of a non-empty end match or `endTag`.
   */
  lemma FindTagsKeepsText(x: Regions, sp: TagPattern, ep: TagPattern)
    requires x.startTag == [] || MatchAtEnd(sp, x.before) == 0
    requires MatchAtStart(ep, x.after) == 0 ||
             (x.endTag == [] && MatchAtEnd(ep, x.selection[MatchAtStart(sp, x.selection)..]) == 0)
    ensures FindTagsSpec(x, sp, ep).Text() == x.Text()
  {
    var x1 := BeforeTailToStartTag(x, MatchAtEnd(sp, x.before));
    BeforeTailToStartTagText(x, MatchAtEnd(sp, x.before));
    var x2 := SelectionHeadToStartTag(x1, MatchAtStart(sp, x1.selection));
    SelectionHeadToStartTagText(x1, MatchAtStart(sp, x1.selection));
    var x3 := SelectionTailToEndTag(x2, MatchAtEnd(ep, x2.selection));
    SelectionTailToEndTagText(x2, MatchAtEnd(ep, x2.selection));
    AfterHeadToEndTagText(x3, MatchAtStart(ep, x3.after));
  }

  /**
   * When the tail of the selection and the head of `after` both match the
   * link-closing pattern, `findTags` swaps them: `"x]"` followed by `"] [z]"`
   * comes out as `"x] [z]]"`.
   */
  lemma FindTagsSwapsEndMatches()
    ensures var x := Regions("", "", "x]", "", "] [z]");
            var r := FindTagsSpec(x, LinkOpen, LinkClose);
            r.endTag == "] [z]]" && r.Text() != x.Text()
  {
    var x := Regions("", "", "x]", "", "] [z]");
    LinkOpenAbsent();
    LinkCloseTailOfSelection();
    LinkCloseHeadOfAfter();
    var x3 := SelectionTailToEndTag(x, 1);
    assert "x]"[..1] == "x" && "x]"[1..] == "]";
    assert x3 == Regions("", "", "x", "]", "] [z]");
    var r := AfterHeadToEndTag(x3, 5);
    assert "] [z]"[..5] == "] [z]" && "] [z]"[5..] == "";
    assert r == Regions("", "", "x", "] [z]]", "");
    assert r.Text()[2] == ' ' && x.Text()[2] == ']';
  }

  /** Neither `""` nor `"x]"` holds a link-opening match. */
  lemma LinkOpenAbsent()
    ensures MatchAtEnd(LinkOpen, "") == 0 && MatchAtStart(LinkOpen, "x]") == 0
  {
  }

  /** In `"x]"` the link-closing match at the end is the final `]`. */
  lemma LinkCloseTailOfSelection()
    ensures MatchAtEnd(LinkClose, "x]") == 1
  {
    assert !LinkCloseAt("x]", 0);
    assert "x]"[1..] == "]" && LinkCloseAt("x]", 1);
    assert FirstLinkClose("x]", 0) == 1;
  }

  /** At the head of `"] [z]"` the link-closing match is all of it. */
  lemma LinkCloseHeadOfAfter()
    ensures MatchAtStart(LinkClose, "] [z]") == 5
  {
    assert AfterCloseBracket("] [z]") == 2;
    assert FirstCloseOrBreak("] [z]", 3) == 4;
  }

  // ---------------------------------------------------------------------
  // Properties of trimWhitespace
  // ---------------------------------------------------------------------

  /**
   * `trimWhitespace` leaves the selection stripped of its leading and
   * trailing whitespace and the tags as they were; with `remove` the
   * whitespace is gone and `before` and `after` are untouched too.
   */
  lemma TrimWhitespaceSelection(x: Regions, remove: bool)
    ensures var r := TrimWhitespaceSpec(x, remove);
            r.selection == Strip(x.selection, Space) &&
            r.startTag == x.startTag && r.endTag == x.endTag &&
            (remove ==> r.before == x.before && r.after == x.after)
  {
  }

  /** Without `remove`, the whitespace goes to the end of `before` and the start of `after`. */
  lemma TrimWhitespaceMovesSpace(x: Regions)
    ensures var r := TrimWhitespaceSpec(x, false);
            x.before <= r.before && All(r.before[|x.before|..], Space) &&
            EndsWith(r.after, x.after) && All(r.after[..|r.after| - |x.after|], Space)
  {
    var lead := LeadingRun(x.selection, Space);
    var x1 := SelectionHeadToBefore(x, lead, true);
    var trail := TrailingRun(x1.selection, Space);
    var r := SelectionTailToAfter(x1, trail, true);
    HeadWithout(x.selection, lead, Space);
    TailWithout(x1.selection, trail, Space);
    assert r.before[|x.before|..] == x.selection[..lead];
    assert r.after[..|r.after| - |x.after|] == x1.selection[|x1.selection| - trail..];
  }

  lemma SelectionHeadToBeforeText(x: Regions, n: nat)
    requires n <= |x.selection| && (x.startTag == [] || n == 0)
    ensures SelectionHeadToBefore(x, n, true).Text() == x.Text()
  {
    assert x.selection == x.selection[..n] + x.selection[n..];
  }

  lemma SelectionTailToAfterText(x: Regions, n: nat)
    requires n <= |x.selection| && (x.endTag == [] || n == 0)
    ensures SelectionTailToAfter(x, n, true).Text() == x.Text()
  {
    assert x.selection == x.selection[..|x.selection| - n] + x.selection[|x.selection| - n..];
  }

  /** On a chunk with empty tags, `trimWhitespace(false)` loses no text. */
  lemma TrimWhitespaceKeepsText(x: Regions)
    requires x.startTag == [] && x.endTag == []
    ensures TrimWhitespaceSpec(x, false).Text() == x.Text()
  {
    var x1 := SelectionHeadToBefore(x, LeadingRun(x.selection, Space), true);
    SelectionHeadToBeforeText(x, LeadingRun(x.selection, Space));
    SelectionTailToAfterText(x1, TrailingRun(x1.selection, Space));
  }

  // ---------------------------------------------------------------------
  // Properties of skipLines
  // ---------------------------------------------------------------------

  lemma ShedNewlinesSelection(x: Regions)
    ensures ShedNewlines(x).selection == Strip(x.selection, Newline)
  {
  }

  /** After `skipLines` the selection is the old one with its edge newlines stripped. */
  lemma SkipLinesSelection(x: Regions, nb: nat, na: nat, extra: bool)
    ensures SkipLinesSpec(x, nb, na, extra).selection == Strip(x.selection, Newline)
  {
    ShedNewlinesSelection(x);
  }

  /** After `skipLines` the selection has no newline at either edge. */
  lemma SkipLinesSelectionEdges(x: Regions, nb: nat, na: nat, extra: bool)
    ensures var r := SkipLinesSpec(x, nb, na, extra);
            r.selection == [] || (r.selection[0] != '\n' && r.selection[|r.selection| - 1] != '\n')
  {
    SkipLinesSelection(x, nb, na, extra);
    StripEdgeChars(x.selection, Newline);
  }

  lemma PadBeforeRun(y: Regions, k: nat, extra: bool)
    ensures var r := PadBefore(y, k, extra);
            (r.before != [] ==> TrailingRun(r.before, Newline) >= k) &&
            (r.before != [] && extra ==> TrailingRun(r.before, Newline) == k)
  {
  }

  lemma PadAfterRun(y: Regions, k: nat, extra: bool)
    ensures var r := PadAfter(y, k, extra);
            (r.after != [] ==> LeadingRun(r.after, Newline) >= k) &&
            (r.after != [] && extra ==> LeadingRun(r.after, Newline) == k)
  {
  }

  /**
   * After `skipLines(nb, na, extra)` a non-empty `before` ends with at least
   * `nb + 1` newlines and a non-empty `after` starts with at least `na + 1`,
   * exactly that many when `extra` is set.
   */
  lemma SkipLinesPadding(x: Regions, nb: nat, na: nat, extra: bool)
    ensures var r := SkipLinesSpec(x, nb, na, extra);
            (r.before != [] ==> TrailingRun(r.before, Newline) >= nb + 1) &&
            (r.before != [] && extra ==> TrailingRun(r.before, Newline) == nb + 1) &&
            (r.after != [] ==> LeadingRun(r.after, Newline) >= na + 1) &&
            (r.after != [] && extra ==> LeadingRun(r.after, Newline) == na + 1)
  {
    var y := PadBefore(ShedNewlines(x), nb + 1, extra);
    PadBeforeRun(ShedNewlines(x), nb + 1, extra);
    PadAfterRun(y, na + 1, extra);
    assert PadAfter(y, na + 1, extra).before == y.before;
  }

  /** The two chunks differ at most in newlines, region by region. */
  predicate SameApartFromNewlines(x: Regions, y: Regions) {
    Without(x.before, Newline) == Without(y.before, Newline) &&
    Without(x.startTag, Newline) == Without(y.startTag, Newline) &&
    Without(x.selection, Newline) == Without(y.selection, Newline) &&
    Without(x.endTag, Newline) == Without(y.endTag, Newline) &&
    Without(x.after, Newline) == Without(y.after, Newline)
  }

  lemma ShedSelectionHead(x: Regions)
    ensures SameApartFromNewlines(x, SelectionHeadToStartTag(x, LeadingRun(x.selection, Newline)))
  {
    HeadMoves(x.selection, x.startTag);
  }

  lemma ShedSelectionTail(x: Regions, n: nat)
    requires n <= |x.selection| && forall i :: |x.selection| - n <= i < |x.selection| ==> In(x.selection[i], Newline)
    ensures SameApartFromNewlines(x, SelectionTailOntoEndTag(x, n))
  {
    TailMoves(x.selection, x.endTag, n);
  }

  lemma ShedStartTagHead(x: Regions)
    ensures SameApartFromNewlines(x, StartTagHeadToBefore(x, LeadingRun(x.startTag, Newline)))
  {
    HeadMoves(x.startTag, x.before);
  }

  lemma ShedEndTagTail(x: Regions, n: nat)
    requires n <= |x.endTag| && forall i :: |x.endTag| - n <= i < |x.endTag| ==> In(x.endTag[i], Newline)
    ensures SameApartFromNewlines(x, EndTagTailOntoAfter(x, n))
  {
    TailMoves(x.endTag, x.after, n);
  }

  /** Moving the leading line breaks of `s` onto the end of `t` leaves both alike without line breaks. */
  lemma HeadMoves(s: string, t: string)
    ensures var n := LeadingRun(s, Newline);
            Without(s[n..], Newline) == Without(s, Newline) && Without(t + s[..n], Newline) == Without(t, Newline)
  {
    var n := LeadingRun(s, Newline);
    HeadWithout(s, n, Newline);
    AppendNothing(t, s[..n], Newline);
  }

  /** Moving trailing line breaks of `s` in front of `t` leaves both alike without line breaks. */
  lemma TailMoves(s: string, t: string, n: nat)
    requires n <= |s| && forall i :: |s| - n <= i < |s| ==> In(s[i], Newline)
    ensures Without(s[..|s| - n], Newline) == Without(s, Newline) && Without(t + s[|s| - n..], Newline) == Without(t, Newline)
  {
    TailWithout(s, n, Newline);
    AppendNothing(t, s[|s| - n..], Newline);
  }

  /** Appending only characters of class `p` changes nothing once that class is taken out. */
  lemma AppendNothing(t: string, u: string, p: Class)
    requires All(u, p)
    ensures Without(t + u, p) == Without(t, p)
  {
    WithoutAppend(t, u, p);
    WithoutAll(u, p);
    assert Without(t, p) + [] == Without(t, p);
  }

  lemma ShedNewlinesMovesOnlyNewlines(x: Regions)
    ensures SameApartFromNewlines(x, ShedNewlines(x))
  {
    var x1 := SelectionHeadToStartTag(x, LeadingRun(x.selection, Newline));
    var x2 := SelectionTailOntoEndTag(x1, TrailingRun(x1.selection, Newline));
    var x3 := StartTagHeadToBefore(x2, LeadingRun(x2.startTag, Newline));
    ShedSelectionHead(x);
    ShedSelectionTail(x1, TrailingRun(x1.selection, Newline));
    ShedStartTagHead(x2);
    ShedEndTagTail(x3, TrailingRun(x3.endTag, Newline));
  }

  lemma PadBeforeMovesOnlyNewlines(y: Regions, k: nat, extra: bool)
    ensures SameApartFromNewlines(y, PadBefore(y, k, extra))
  {
    if y.before != [] {
      if extra {
        SetTrailingNewlinesWithout(y.before, k);
      } else {
        PadEndWithout(y.before, k);
      }
    }
  }

  lemma PadAfterMovesOnlyNewlines(y: Regions, k: nat, extra: bool)
    ensures SameApartFromNewlines(y, PadAfter(y, k, extra))
  {
    if y.after != [] {
      if extra {
        SetLeadingNewlinesWithout(y.after, k);
      } else {
        PadStartWithout(y.after, k);
      }
    }
  }

  /** `skipLines` moves newlines only: every region keeps its other characters, in order. */
  lemma SkipLinesMovesOnlyNewlines(x: Regions, nb: nat, na: nat, extra: bool)
    ensures SameApartFromNewlines(x, SkipLinesSpec(x, nb, na, extra))
  {
    var y := ShedNewlines(x);
    ShedNewlinesMovesOnlyNewlines(x);
    PadBeforeMovesOnlyNewlines(y, nb + 1, extra);
    PadAfterMovesOnlyNewlines(PadBefore(y, nb + 1, extra), na + 1, extra);
  }

  // ---------------------------------------------------------------------
  // The chunk object
  // ---------------------------------------------------------------------

  /** `k` newlines, built one at a time as `skipLines` builds its replacement text. */
  method NewlineReplacement(k: nat) returns (optional: nat, replacement: string)
    ensures optional == k && replacement == Newlines(k)
  {
    var count := k;
    optional, replacement := 0, "";
    while count > 0
      invariant optional + count == k && replacement == Newlines(optional)
    {
      count := count - 1;
      NewlinesSnoc(optional);
      optional, replacement := optional + 1, replacement + "\n";
    }
  }

  /** A chunk: the five regions of the text area, which the commands rewrite in place. */
  class Chunk {
    var before: string
    var startTag: string
    var selection: string
    var endTag: string
    var after: string
    var scrollTop: int

    /** The regions as a value. */
    function Value(): Regions
      reads this
    {
      Regions(before, startTag, selection, endTag, after)
    }

    constructor (r: Regions, scrollTop: int)
      ensures Value() == r && this.scrollTop == scrollTop
    {
      before, startTag, selection, endTag, after := r.before, r.startTag, r.selection, r.endTag, r.after;
      this.scrollTop := scrollTop;
    }

    /** Sets all five regions. */
    method Set(r: Regions)
      modifies this
      ensures Value() == r && scrollTop == old(scrollTop)
    {
      before, startTag, selection, endTag, after := r.before, r.startTag, r.selection, r.endTag, r.after;
    }

    method FindTags(sp: TagPattern, ep: TagPattern)
      modifies this
      ensures Value() == FindTagsSpec(old(Value()), sp, ep) && scrollTop == old(scrollTop)
    {
      MoveBeforeTailToStartTag(MatchAtEnd(sp, before));
      MoveSelectionHeadToStartTag(MatchAtStart(sp, selection));
      MoveSelectionTailToEndTag(MatchAtEnd(ep, selection));
      MoveAfterHeadToEndTag(MatchAtStart(ep, after));
    }

    method TrimWhitespace(remove: bool)
      modifies this
      ensures Value() == TrimWhitespaceSpec(old(Value()), remove) && scrollTop == old(scrollTop)
    {
      MoveSelectionHeadToBefore(LeadingRun(selection, Space), !remove);
      MoveSelectionTailToAfter(TrailingRun(selection, Space), !remove);
    }

    method SkipLines(nb: nat, na: nat, extra: bool)
      modifies this
      ensures Value() == SkipLinesSpec(old(Value()), nb, na, extra) && scrollTop == old(scrollTop)
    {
      MoveSelectionHeadToStartTag(LeadingRun(selection, Newline));
      MoveSelectionTailOntoEndTag(TrailingRun(selection, Newline));
      MoveStartTagHeadToBefore(LeadingRun(startTag, Newline));
      MoveEndTagTailOntoAfter(TrailingRun(endTag, Newline));
      PadBeforeLines(nb + 1, extra);
      PadAfterLines(na + 1, extra);
    }

    /** The `before` half of the padding in `skipLines`, for `k` lines. */
    method PadBeforeLines(k: nat, extra: bool)
      modifies this
      ensures Value() == PadBefore(old(Value()), k, extra) && scrollTop == old(scrollTop)
    {
      if before != [] {
        var optional, replacement := NewlineReplacement(k);
        before := if extra then SetTrailingNewlines(before, |replacement|) else PadEnd(before, optional);
      }
    }

    /** The `after` half of the padding in `skipLines`, for `k` lines. */
    method PadAfterLines(k: nat, extra: bool)
      modifies this
      ensures Value() == PadAfter(old(Value()), k, extra) && scrollTop == old(scrollTop)
    {
      if after != [] {
        var optional, replacement := NewlineReplacement(k);
        after := if extra then SetLeadingNewlines(after, |replacement|) else PadStart(after, optional);
      }
    }

    // The single moves, each one statement of the editor.

    method MoveBeforeTailToStartTag(n: nat)
      requires n <= |before|
      modifies this
      ensures Value() == BeforeTailToStartTag(old(Value()), n) && scrollTop == old(scrollTop)
    {
      startTag, before := startTag + before[|before| - n..], before[..|before| - n];
    }

    method MoveSelectionHeadToStartTag(n: nat)
      requires n <= |selection|
      modifies this
      ensures Value() == SelectionHeadToStartTag(old(Value()), n) && scrollTop == old(scrollTop)
    {
      startTag, selection := startTag + selection[..n], selection[n..];
    }

    method MoveSelectionTailToEndTag(n: nat)
      requires n <= |selection|
      modifies this
      ensures Value() == SelectionTailToEndTag(old(Value()), n) && scrollTop == old(scrollTop)
    {
      endTag, selection := selection[|selection| - n..] + endTag, selection[..|selection| - n];
    }

    method MoveAfterHeadToEndTag(n: nat)
      requires n <= |after|
      modifies this
      ensures Value() == AfterHeadToEndTag(old(Value()), n) && scrollTop == old(scrollTop)
    {
      endTag, after := after[..n] + endTag, after[n..];
    }

    method MoveSelectionHeadToBefore(n: nat, keep: bool)
      requires n <= |selection|
      modifies this
      ensures Value() == SelectionHeadToBefore(old(Value()), n, keep) && scrollTop == old(scrollTop)
    {
      if keep {
        before := before + selection[..n];
      }
      selection := selection[n..];
    }

    method MoveSelectionTailToAfter(n: nat, keep: bool)
      requires n <= |selection|
      modifies this
      ensures Value() == SelectionTailToAfter(old(Value()), n, keep) && scrollTop == old(scrollTop)
    {
      if keep {
        after := selection[|selection| - n..] + after;
      }
      selection := selection[..|selection| - n];
    }

    method MoveSelectionTailOntoEndTag(n: nat)
      requires n <= |selection|
      modifies this
      ensures Value() == SelectionTailOntoEndTag(old(Value()), n) && scrollTop == old(scrollTop)
    {
      endTag, selection := endTag + selection[|selection| - n..], selection[..|selection| - n];
    }

    method MoveStartTagHeadToBefore(n: nat)
      requires n <= |startTag|
      modifies this
      ensures Value() == StartTagHeadToBefore(old(Value()), n) && scrollTop == old(scrollTop)
    {
      before, startTag := before + startTag[..n], startTag[n..];
    }

    method MoveEndTagTailOntoAfter(n: nat)
      requires n <= |endTag|
      modifies this
      ensures Value() == EndTagTailOntoAfter(old(Value()), n) && scrollTop == old(scrollTop)
    {
      after, endTag := after + endTag[|endTag| - n..], endTag[..|endTag| - n];
    }
  }
}
