/**
 * The blockquote command (`quote` of the command manager in
 * Markdown.Editor.js): the selection is quoted line by line, or unquoted when
 * every line of it already is, and the quote around it is found by a
 * backward scan over the lines before it and a pattern over the text after it.
 */
module Quote {
  import opened Wrappers
  import opened Strings
  import opened Chunks
  import opened Textarea
  import opened Wrapping
  import opened Texts
  import opened Lines

  /** `SETTINGS.lineLength`; `quote` wraps two columns short of it, for the `> `. */
  const LineLength: nat := 72

  // ---------------------------------------------------------------------
  // The selection before the scan
  // ---------------------------------------------------------------------

  /**
   * `selection.replace(/^(\n*)([^\r]+?)(\n*)$/, …)`: the newlines at the
   * edges of the selection move into `before` and `after`. A selection of
   * newlines only keeps its last one (the text group takes at least one
   * character); an empty selection, or one with a carriage return, does not
   * match.
   */
  function NewlinesOut(x: Regions): Regions {
    var s := x.selection;
    if s == [] || '\r' in s then x
    else
      var lead := LeadingRun(s, Newline);
      if lead == |s| then Regions(x.before + s[..lead - 1], x.startTag, "\n", x.endTag, x.after)
      else
        var m := s[lead..];
        var trail := TrailingRun(m, Newline);
        Regions(x.before + s[..lead], x.startTag, m[..|m| - trail], x.endTag, m[|m| - trail..] + x.after)
  }

  /** A selection of newlines only is its last newline after the others. */
  lemma AllNewlinesSplit(s: string)
    requires s != [] && LeadingRun(s, Newline) == |s|
    ensures s[..|s| - 1] + "\n" == s
  {
    assert In(s[|s| - 1], Newline);
  }

  /** Any other selection is its leading newlines, the middle, and its trailing newlines. */
  lemma NewlinesAround(s: string)
    requires LeadingRun(s, Newline) < |s|
    ensures var lead := LeadingRun(s, Newline);
            var m := s[lead..];
            var trail := TrailingRun(m, Newline);
            s[..lead] + m[..|m| - trail] + m[|m| - trail..] == s
  {
    var lead := LeadingRun(s, Newline);
    ThreeParts(s, lead, TrailingRun(s[lead..], Newline));
  }

  /** A string is its head, the middle of the rest and the tail of the rest. */
  lemma ThreeParts(s: string, a: nat, b: nat)
    requires a <= |s| && b <= |s| - a
    ensures var m := s[a..]; s[..a] + m[..|m| - b] + m[|m| - b..] == s
  {
    var m := s[a..];
    assert m == m[..|m| - b] + m[|m| - b..];
    assert s == s[..a] + m;
  }

  /** Moving the head of the selection to `before` and its tail to `after` keeps the text, when there are no tags. */
  lemma MoveOut(x: Regions, p: string, q: string, r: string)
    requires x.startTag == [] && x.endTag == [] && p + q + r == x.selection
    ensures Regions(x.before + p, "", q, "", r + x.after).Text() == x.Text()
  {
    assert (x.before + p) + q + (r + x.after) == x.before + (p + q + r) + x.after;
  }

  /**
   * With no tags yet, as `quote` has them at this point, moving the newlines
   * out keeps the text.
   */
  lemma NewlinesOutKeepsText(x: Regions)
    requires x.startTag == [] && x.endTag == []
    ensures NewlinesOut(x).Text() == x.Text()
  {
    var s := x.selection;
    if s != [] && '\r' !in s {
      var lead := LeadingRun(s, Newline);
      if lead == |s| {
        AllNewlinesSplit(s);
        MoveOut(x, s[..lead - 1], "\n", "");
      } else {
        var m := s[lead..];
        var trail := TrailingRun(m, Newline);
        NewlinesAround(s);
        MoveOut(x, s[..lead], m[..|m| - trail], m[|m| - trail..]);
      }
    }
  }

  /** A selection with a character other than a newline, and no carriage return, is left stripped of its newlines. */
  lemma NewlinesOutStrips(x: Regions)
    requires x.selection != [] && '\r' !in x.selection && !All(x.selection, Newline)
    ensures NewlinesOut(x).selection == Strip(x.selection, Newline)
  {
  }

  /**
   * `before.replace(/(>[ \t]*)$/, …)`: a `>` that only blanks follow at the
   * end of `before` moves, with the blanks, to the front of the selection.
   */
  function MarkerToSelection(x: Regions): Regions {
    var t := TrailingRun(x.before, Blank);
    if t < |x.before| && x.before[|x.before| - t - 1] == '>' then
      var k := |x.before| - t - 1;
      Regions(x.before[..k], x.startTag, x.before[k..] + x.selection, x.endTag, x.after)
    else x
  }

  /** With no start tag yet, moving the marker keeps the text; what moved is `>` and blanks. */
  lemma MarkerToSelectionKeepsText(x: Regions)
    requires x.startTag == []
    ensures var r := MarkerToSelection(x);
            r.Text() == x.Text() && r.before <= x.before &&
            (r.before != x.before ==> r.selection[0] == '>' && All(r.selection[1..|x.before| - |r.before|], Blank))
  {
    var t := TrailingRun(x.before, Blank);
    if t < |x.before| && x.before[|x.before| - t - 1] == '>' {
      var k := |x.before| - t - 1;
      assert x.before == x.before[..k] + x.before[k..];
      assert x.before[..k] + (x.before[k..] + x.selection) == x.before + x.selection;
      var r := MarkerToSelection(x);
      assert r.selection[1..|x.before| - k] == x.before[k + 1..];
    }
  }

  /**
   * `selection.replace(/^(\s|>)+$/, "")` and the `quoteexample` text for a
   * selection left empty.
   */
  function QuoteSelection(s: string, strings: map<string, string>): (r: string)
    ensures r != []
    ensures s != [] && !All(s, SpaceOrQuote) ==> r == s
  {
    var kept := if s != [] && All(s, SpaceOrQuote) then [] else s;
    if kept == [] then GetString(strings, "quoteexample") else kept
  }

  // ---------------------------------------------------------------------
  // The backward scan over the lines before the selection
  // ---------------------------------------------------------------------

  /** What the scan carries from line to line: the chain flag and the two texts. */
  datatype Scan = Scan(inChain: bool, matched: string, leftOver: string)

  /** A line that starts with `>`. */
  predicate Quoted(line: string) {
    |line| > 0 && line[0] == '>'
  }

  /**
   * One turn of the scan: a line is good when it starts with `>`, is blank,
   * or continues a chain of non-empty lines that a `>` line of two
   * characters or more started. A good line is added to the match; a bad one
   * sends the match and itself to what is left over, and the match starts
   * again from a line break.
   */
  function ScanLine(st: Scan, line: string): Scan {
    var inChain := st.inChain && |line| > 0;
    var good := Quoted(line) || All(line, Blank) || inChain;
    var chain := if Quoted(line) then inChain || |line| > 1 else inChain;
    if good then Scan(chain, st.matched + line + "\n", st.leftOver)
    else Scan(chain, "\n", st.leftOver + st.matched + line)
  }

  /** The scan over `lines[i..]`. */
  function ScanFrom(lines: seq<string>, i: nat, st: Scan): Scan
    requires i <= |lines|
    decreases |lines| - i
  {
    if i == |lines| then st else ScanFrom(lines, i + 1, ScanLine(st, lines[i]))
  }

  /** `before.replace(/\n$/, "").split("\n")`. */
  function BeforeLines(before: string): seq<string> {
    Split(if EndsWith(before, "\n") then before[..|before| - 1] else before, '\n')
  }

  /** `(^|\n)>` at `k`. */
  predicate QuoteLineAt(m: string, k: nat)
    requires k < |m|
  {
    m[k] == '>' && (k == 0 || m[k - 1] == '\n')
  }

  /** `/(^|\n)>/.test(m)`: some line of `m` starts with `>`. */
  predicate HasQuoteLine(m: string) {
    exists k | 0 <= k < |m| :: QuoteLineAt(m, k)
  }

  /**
   * The new `startTag` and `before`: the scan over the lines of `before`,
   * with the match given up to what is left over when none of its lines
   * starts with `>`.
   */
  function ScanBefore(before: string): (string, string) {
    if before == [] then ("", "")
    else
      var st := ScanFrom(BeforeLines(before), 0, Scan(false, "", ""));
      if HasQuoteLine(st.matched) then (st.matched, st.leftOver) else ("", st.leftOver + st.matched)
  }

  /** The scan of `quote`, as the loop the editor runs. */
  method ScanQuote(before: string) returns (matched: string, leftOver: string)
    ensures (matched, leftOver) == ScanBefore(before)
  {
    matched, leftOver := "", "";
    if before != [] {
      var lines := BeforeLines(before);
      var inChain := false;
      for i := 0 to |lines|
        invariant ScanFrom(lines, i, Scan(inChain, matched, leftOver)) == ScanFrom(lines, 0, Scan(false, "", ""))
      {
        var good := false;
        var line := lines[i];
        inChain := inChain && |line| > 0;
        if |line| > 0 && line[0] == '>' {
          good := true;
          if !inChain && |line| > 1 {
            inChain := true;
          }
        } else if All(line, Blank) {
          good := true;
        } else {
          good := inChain;
        }
        if good {
          matched := matched + line + "\n";
        } else {
          leftOver := leftOver + matched + line;
          matched := "\n";
        }
      }
      if !HasQuoteLine(matched) {
        leftOver := leftOver + matched;
        matched := "";
      }
    }
  }

  /** What is left over and the match together are the lines scanned so far, each ended by a line break. */
  lemma {:induction false} ScanFromConcat(lines: seq<string>, i: nat, st: Scan)
    requires i <= |lines| && st.leftOver + st.matched == ConcatLines(lines[..i])
    ensures var r := ScanFrom(lines, i, st); r.leftOver + r.matched == ConcatLines(lines)
    decreases |lines| - i
  {
    if i == |lines| {
      assert lines[..i] == lines;
    } else {
      var next := ScanLine(st, lines[i]);
      assert lines[..i + 1][..i] == lines[..i];
      assert ConcatLines(lines[..i + 1]) == ConcatLines(lines[..i]) + lines[i] + "\n";
      ScanFromConcat(lines, i + 1, next);
    }
  }

  /** The match is empty or ends with a line break, all along the scan. */
  predicate LineEnded(m: string) {
    m == [] || m[|m| - 1] == '\n'
  }

  /** The scan of `a + [line]` is one more turn after the scan of `a`. */
  lemma {:induction false} ScanFromLast(a: seq<string>, line: string, i: nat, st: Scan)
    requires i <= |a|
    ensures ScanFrom(a + [line], i, st) == ScanLine(ScanFrom(a, i, st), line)
    decreases |a| - i
  {
    if i < |a| {
      assert (a + [line])[i] == a[i];
      ScanFromLast(a, line, i + 1, ScanLine(st, a[i]));
    } else {
      assert (a + [line])[i] == line;
    }
  }

  /** Every turn leaves a match that ends with a line break. */
  lemma {:induction false} ScanFromLineEnded(lines: seq<string>, i: nat, st: Scan)
    requires i <= |lines| && LineEnded(st.matched)
    ensures LineEnded(ScanFrom(lines, i, st).matched)
    decreases |lines| - i
  {
    if i < |lines| {
      ScanFromLineEnded(lines, i + 1, ScanLine(st, lines[i]));
    }
  }

  /**
   * What the scan leaves in `before` followed by the new `startTag` is the
   * old `before` with one line break at its end (added when it had none);
   * the new `startTag` is empty or holds a line that starts with `>`.
   */
  lemma ScanBeforeParts(before: string)
    ensures var (tag, rest) := ScanBefore(before);
            (tag == [] || HasQuoteLine(tag)) &&
            (before != [] ==> rest + tag == if EndsWith(before, "\n") then before else before + "\n")
  {
    if before != [] {
      var text := if EndsWith(before, "\n") then before[..|before| - 1] else before;
      var lines := BeforeLines(before);
      assert lines[..0] == [];
      ScanFromConcat(lines, 0, Scan(false, "", ""));
      ConcatLinesJoin(lines);
      JoinSplit(text, '\n');
      if EndsWith(before, "\n") {
        assert before == text + "\n";
      }
    }
  }

  /**
   * A line starting with `>` just before the selection is always kept in
   * the new `startTag`, which then ends with it: the quote the selection
   * follows is continued.
   */
  lemma ScanKeepsQuoteBefore(before: string)
    requires before != [] && Quoted(BeforeLines(before)[|BeforeLines(before)| - 1])
    ensures var tag := ScanBefore(before).0;
            var last := BeforeLines(before)[|BeforeLines(before)| - 1];
            EndsWith(tag, last + "\n")
  {
    var lines := BeforeLines(before);
    var n := |lines|;
    var last := lines[n - 1];
    var init := Scan(false, "", "");
    assert lines == lines[..n - 1] + [last];
    ScanFromLast(lines[..n - 1], last, 0, init);
    var st := ScanFrom(lines[..n - 1], 0, init);
    ScanFromLineEnded(lines[..n - 1], 0, init);
    var m := st.matched + last + "\n";
    assert ScanFrom(lines, 0, init).matched == m;
    assert QuoteLineAt(m, |st.matched|);
    assert m[|m| - |last + "\n"|..] == last + "\n";
  }

  // ---------------------------------------------------------------------
  // The quote after the selection
  // ---------------------------------------------------------------------

  /** `after.replace(/^\n?/, "\n")` on a non-empty `after`: it starts with one line break. */
  function LeadWithNewline(a: string): (r: string)
    ensures a != [] ==> r != [] && r[0] == '\n' && (r == a || r == "\n" + a)
    ensures a == [] ==> r == []
  {
    if a != [] && a[0] != '\n' then "\n" + a else a
  }

  /** `(\n[ \t]*)*` from `p`, taking all it can: each line break with the blanks after it. */
  function SegsEnd(s: string, p: nat): (q: nat)
    requires p <= |s|
    ensures p <= q <= |s| && (q == |s| || s[q] != '\n')
    decreases |s| - p
  {
    if p < |s| && s[p] == '\n' then SegsEnd(s, RunEnd(s, p + 1, Blank)) else p
  }

  /** `(.+\n)*` from `p`: whole non-empty lines, each with its line break. */
  function FullLines(s: string, p: nat): (r: nat)
    requires p <= |s|
    ensures p <= r <= |s|
    ensures r == p || r > RunEnd(s, p, Dot)
    decreases |s| - p
  {
    var e := RunEnd(s, p, Dot);
    if e > p && e < |s| && s[e] == '\n' then FullLines(s, e + 1) else p
  }

  /** `>(.+\n)*.*` with its `>` at `q`: where the block of lines it starts ends, never short of the end of the `>` line. */
  function BlockEnd(s: string, q: nat): (r: nat)
    requires q < |s|
    ensures q < r <= |s| && r >= RunEnd(s, q + 1, Dot)
  {
    var f := FullLines(s, q + 1);
    if f > q + 1 then assert RunEnd(s, f, Dot) >= f; RunEnd(s, f, Dot) else RunEnd(s, f, Dot)
  }

  /** Further turns of `(\n(\n[ \t]*)*>(.+\n)*.*)`, from `p`, taken while they match. */
  function BlocksFrom(s: string, p: nat): (r: nat)
    requires p <= |s|
    ensures p <= r <= |s|
    decreases |s| - p
  {
    if p < |s| && s[p] == '\n' then
      var q := SegsEnd(s, p + 1);
      if q < |s| && s[q] == '>' then BlocksFrom(s, BlockEnd(s, q)) else p
    else p
  }

  /**
   * The length of the match of `^(((\n|^)(\n[ \t]*)*>(.+\n)*.*)+(\n[ \t]*)*)`
   * on `s`, which is the quote that goes on after the selection. The first
   * turn may start with the line break of `s` or at its very start; either
   * way its `>` is the first character after the leading blank lines.
   */
  function QuoteTail(s: string): (n: Option<nat>)
    ensures n.Some? ==> 0 < n.value <= |s|
  {
    var q := SegsEnd(s, 0);
    if q < |s| && s[q] == '>' then Some(SegsEnd(s, BlocksFrom(s, BlockEnd(s, q)))) else None
  }

  /** The end tag: the quote that goes on after the selection, cut from `after`. */
  function EndTagStep(x: Regions): Regions {
    var a := LeadWithNewline(x.after);
    match QuoteTail(a)
    case Some(n) => x.(endTag := a[..n], after := a[n..])
    case None => x.(after := a)
  }

  /** A `>` right after the leading line break starts a match that takes at least that whole line. */
  lemma QuoteTailFromQuoteLine(a: string)
    requires |a| > 1 && a[0] == '\n' && a[1] == '>'
    ensures QuoteTail(a).Some? && QuoteTail(a).value >= RunEnd(a, 1, Dot)
  {
    RunEndAt(a, 1, 1, Blank);
    assert SegsEnd(a, 1) == 1;
    assert SegsEnd(a, 0) == 1;
    assert RunEnd(a, 1, Dot) == RunEnd(a, 2, Dot);
  }

  /**
   * A line starting with `>` just after the selection is always taken into
   * the end tag, whole; the end tag and what is left in `after` make up the
   * old `after`, which starts with a line break.
   */
  lemma EndTagKeepsQuoteAfter(x: Regions)
    requires var a := LeadWithNewline(x.after); |a| > 1 && a[1] == '>'
    ensures var a := LeadWithNewline(x.after);
            var y := EndTagStep(x);
            y.endTag + y.after == a && a[..RunEnd(a, 1, Dot)] <= y.endTag
  {
    var a := LeadWithNewline(x.after);
    QuoteTailFromQuoteLine(a);
    var n := QuoteTail(a).value;
    assert a == a[..n] + a[n..];
  }

  // ---------------------------------------------------------------------
  // Blank lines in the tags
  // ---------------------------------------------------------------------

  /** `^[ ]{0,3}>?[ \t]*$` on one line: up to three spaces, maybe a `>`, and blanks. */
  predicate BlankQuoteLine(line: string) {
    var a := Min(RunEnd(line, 0, Only(' ')), 3);
    var b := if a < |line| && line[a] == '>' then a + 1 else a;
    RunEnd(line, b, Blank) == |line|
  }

  /**
   * `s.replace(/^[ ]{0,3}>?[ \t]*$/gm, repl)`: every line that is blank but
   * for a `>` becomes `repl`. Lines end at any line terminator, and the
   * empty line after a final terminator counts.
   */
  function BlankLines(s: string, repl: string): string
    decreases |s|
  {
    var e := RunEnd(s, 0, Dot);
    var line := if BlankQuoteLine(s[..e]) then repl else s[..e];
    if e == |s| then line else line + [s[e]] + BlankLines(s[e + 1..], repl)
  }

  /** The first line break in `t[i..m]`, or `m`. */
  function FindNewline(t: string, i: nat, m: nat): (p: nat)
    requires i <= m <= |t|
    ensures i <= p <= m && (p < m ==> t[p] == '\n')
    ensures forall k | i <= k < p :: t[k] != '\n'
    decreases m - i
  {
    if i == m || t[i] == '\n' then i else FindNewline(t, i + 1, m)
  }

  /** The last line break in `t[lo..hi]`. */
  function LastNewline(t: string, lo: nat, hi: nat): (q: Option<nat>)
    requires lo <= hi <= |t|
    ensures q.Some? ==> lo <= q.value < hi && t[q.value] == '\n' && forall k | q.value < k < hi :: t[k] != '\n'
    ensures q.None? ==> forall k | lo <= k < hi :: t[k] != '\n'
    decreases hi - lo
  {
    if hi == lo then None else if t[hi - 1] == '\n' then Some(hi - 1) else LastNewline(t, lo, hi - 1)
  }

  /**
   * `startTag.replace(/\n((>|\s)*)\n$/, …)`: the leftmost line break that
   * only spaces and `>` follow up to a final line break starts the part
   * whose blank lines become `repl`.
   */
  function StartTagBlanks(t: string, repl: string): string {
    if t == [] || t[|t| - 1] != '\n' then t
    else
      var m := |t| - 1;
      var j := m - TrailingRun(t[..m], SpaceOrQuote);
      var p := FindNewline(t, j, m);
      if p == m then t else t[..p] + "\n" + BlankLines(t[p + 1..m], repl) + "\n"
  }

  /**
   * `endTag.replace(/^\n((>|\s)*)\n/, …)`: from the leading line break up
   * to the last line break that only spaces and `>` lead up to, blank lines
   * become `repl`.
   */
  function EndTagBlanks(t: string, repl: string): string {
    if t == [] || t[0] != '\n' then t
    else
      var e := RunEnd(t, 1, SpaceOrQuote);
      match LastNewline(t, 1, e)
      case None => t
      case Some(q) => "\n" + BlankLines(t[1..q], repl) + "\n" + t[q + 1..]
  }

  /** `replaceBlanksInTags(useBracket)`. */
  function ReplaceBlanks(x: Regions, useBracket: bool): Regions {
    var repl := if useBracket then "> " else "";
    x.(startTag := StartTagBlanks(x.startTag, repl), endTag := EndTagBlanks(x.endTag, repl))
  }

  /** `BlankLines` on a last line without a terminator. */
  lemma BlankLinesOne(line: string, repl: string)
    requires All(line, Dot)
    ensures BlankLines(line, repl) == if BlankQuoteLine(line) then repl else line
  {
    OnlyLine(line);
    assert line[..|line|] == line;
  }

  /** `BlankLines` on a first line and its terminator. */
  lemma BlankLinesCons(line: string, c: char, rest: string, repl: string)
    requires All(line, Dot) && !In(c, Dot)
    ensures BlankLines(line + [c] + rest, repl) == (if BlankQuoteLine(line) then repl else line) + [c] + BlankLines(rest, repl)
  {
    FirstLine(line, c, rest);
  }

  /** Each line once replaced is left alone by a second replacement. */
  lemma LineSettled(line: string, repl: string)
    requires BlankQuoteLine(repl)
    ensures var out := if BlankQuoteLine(line) then repl else line;
            (if BlankQuoteLine(out) then repl else out) == out
  {
  }

  /**
   * Replacing the blank lines a second time changes nothing, when the
   * replacement is itself one line of that kind, as `> ` and the empty
   * string are.
   */
  lemma {:induction false} BlankLinesIdempotent(s: string, repl: string)
    requires All(repl, Dot) && BlankQuoteLine(repl)
    ensures BlankLines(BlankLines(s, repl), repl) == BlankLines(s, repl)
    decreases |s|
  {
    var e := RunEnd(s, 0, Dot);
    var line := s[..e];
    var out := if BlankQuoteLine(line) then repl else line;
    assert All(out, Dot);
    LineSettled(line, repl);
    if e == |s| {
      assert s == line;
      BlankLinesOne(line, repl);
      BlankLinesOne(out, repl);
    } else {
      assert s == line + [s[e]] + s[e + 1..];
      BlankLinesCons(line, s[e], s[e + 1..], repl);
      var rest := BlankLines(s[e + 1..], repl);
      BlankLinesCons(out, s[e], rest, repl);
      BlankLinesIdempotent(s[e + 1..], repl);
    }
  }

  /** The replacements `replaceBlanksInTags` uses are blank quote lines themselves. */
  lemma ReplacementsBlank()
    ensures All("> ", Dot) && BlankQuoteLine("> ") && All("", Dot) && BlankQuoteLine("")
  {
    assert RunEnd("> ", 0, Only(' ')) == 0;
    assert RunEnd("> ", 1, Blank) == 2;
  }

  // ---------------------------------------------------------------------
  // Quoting and unquoting the selection
  // ---------------------------------------------------------------------

  /** `[ ]{0,3}>` at `p`. */
  predicate QuotePrefixAt(s: string, p: nat)
    requires p <= |s|
  {
    var a := Min(RunEnd(s, p, Only(' ')) - p, 3);
    p + a < |s| && s[p + a] == '>'
  }

  /** No line of `s` fails `^[ ]{0,3}>`; the test `/^(?![ ]{0,3}>)/m` is its negation. */
  predicate AllQuoted(s: string)
    decreases |s|
  {
    QuotePrefixAt(s, 0) && (var e := RunEnd(s, 0, Dot); e == |s| || AllQuoted(s[e + 1..]))
  }

  /** `line.replace(/^[ ]{0,3}> ?/, "")`. */
  function UnquoteLine(line: string): string {
    var a := Min(RunEnd(line, 0, Only(' ')), 3);
    if a < |line| && line[a] == '>' then
      if a + 1 < |line| && line[a + 1] == ' ' then line[a + 2..] else line[a + 1..]
    else line
  }

  /** `s.replace(/^[ ]{0,3}> ?/gm, "")`: the quote marker off every line. */
  function StripQuoteLines(s: string): string
    decreases |s|
  {
    var e := RunEnd(s, 0, Dot);
    var line := UnquoteLine(s[..e]);
    if e == |s| then line else line + [s[e]] + StripQuoteLines(s[e + 1..])
  }

  /** The first line of `"> " + s` ends where the first line of `s` does, two characters on. */
  lemma PrefixedFirstLine(s: string)
    ensures RunEnd("> " + s, 0, Dot) == RunEnd(s, 0, Dot) + 2
  {
    var e := RunEnd(s, 0, Dot);
    var r := "> " + s;
    forall k | 0 <= k < e + 2 ensures In(r[k], Dot) {
      if k >= 2 { assert r[k] == s[k - 2]; }
    }
    if e < |s| { assert r[e + 2] == s[e]; }
    RunEndAt(r, 0, e + 2, Dot);
  }

  /** `> ` comes off a line it was put on. */
  lemma UnquotePrefixed(line: string)
    ensures UnquoteLine("> " + line) == line
  {
    RunEndAt("> " + line, 0, 0, Only(' '));
  }

  /** `StripQuoteLines` on a first line and its terminator. */
  lemma StripQuoteLinesCons(line: string, c: char, rest: string)
    requires All(line, Dot) && !In(c, Dot)
    ensures StripQuoteLines(line + [c] + rest) == UnquoteLine(line) + [c] + StripQuoteLines(rest)
  {
    FirstLine(line, c, rest);
  }

  /** `StripQuoteLines` on a last line without a terminator. */
  lemma StripQuoteLinesOne(line: string)
    requires All(line, Dot)
    ensures StripQuoteLines(line) == UnquoteLine(line)
  {
    OnlyLine(line);
    assert line[..|line|] == line;
  }

  /** The same on one line. */
  lemma StripPrefixedLine(s: string)
    requires RunEnd(s, 0, Dot) == |s|
    ensures StripQuoteLines(PrefixLines(s, "> ")) == s
  {
    assert All("> " + s, Dot) by {
      forall k | 0 <= k < |s| ensures In(s[k], Dot) { }
    }
    StripQuoteLinesOne("> " + s);
    UnquotePrefixed(s);
  }

  /** One more line, on the front of lines that come back. */
  lemma StripPrefixStep(s: string, e: nat)
    requires e == RunEnd(s, 0, Dot) < |s|
    requires StripQuoteLines(PrefixLines(s[e + 1..], "> ")) == s[e + 1..]
    ensures StripQuoteLines(PrefixLines(s, "> ")) == s
  {
    var line, rest := s[..e], s[e + 1..];
    LineSplit(s, e, "> ");
    PrefixLinesCons(s, e, "> ");
    StripQuoteLinesCons("> " + line, s[e], PrefixLines(rest, "> "));
    UnquotePrefixed(line);
  }

  /** Taking the `> ` off every line gives back the lines quoted by `> `. */
  lemma {:induction false} StripPrefixLines(s: string)
    ensures StripQuoteLines(PrefixLines(s, "> ")) == s
    decreases |s|
  {
    var e := RunEnd(s, 0, Dot);
    if e == |s| {
      StripPrefixedLine(s);
    } else {
      StripPrefixLines(s[e + 1..]);
      StripPrefixStep(s, e);
    }
  }

  /** Every line quoted by `> ` passes the test, so quoting the selection twice unquotes it the second time. */
  lemma {:induction false} PrefixLinesAllQuoted(s: string)
    ensures AllQuoted(PrefixLines(s, "> "))
    decreases |s|
  {
    var e := RunEnd(s, 0, Dot);
    var r := PrefixLines(s, "> ");
    RunEndAt(r, 0, 0, Only(' '));
    if e == |s| {
      assert r == "> " + s;
      PrefixedFirstLine(s);
    } else {
      var rest := PrefixLines(s[e + 1..], "> ");
      PrefixLinesCons(s, e, "> ");
      assert All("> " + s[..e], Dot);
      FirstLine("> " + s[..e], s[e], rest);
      PrefixLinesAllQuoted(s[e + 1..]);
    }
  }

  /** `/^(\n|^)[ ]{0,3}>/`: the selection starts with a quote line, maybe after one line break. */
  predicate StartsQuoted(s: string) {
    QuotePrefixAt(s, 0) || (|s| > 0 && s[0] == '\n' && QuotePrefixAt(s, 1))
  }

  /** `/(\n|^)[ ]{0,3}>.*$/`: the last line of the selection is a quote line. */
  predicate EndsQuoted(s: string) {
    var q := |s| - TrailingRun(s, Dot);
    (q == 0 || s[q - 1] == '\n') && QuotePrefixAt(s, q)
  }

  /** The selection quoted: wrapped short of the line length, `> ` on every line, the tags' blank lines quoted, a blank line around. */
  function QuoteBranch(x: Regions): Regions {
    var y := x.(selection := PrefixLines(Wrap(x.selection, LineLength - 2), "> "));
    SkipLinesSpec(ReplaceBlanks(y, true), 1, 1, false)
  }

  /**
   * A tag left next to an unquoted edge of the selection is parted from it
   * by a blank line: its newlines on that side, up to two, become two.
   */
  function SpaceTags(y: Regions): Regions {
    var st := y.startTag;
    var et := y.endTag;
    y.(startTag := if !StartsQuoted(y.selection) && st != [] then st[..|st| - Min(2, TrailingRun(st, Newline))] + "\n\n" else st,
       endTag := if !EndsQuoted(y.selection) && et != [] then "\n\n" + et[Min(2, LeadingRun(et, Newline))..] else et)
  }

  /** The selection unquoted and the tags' blank quote lines emptied, then the tags spaced from it. */
  function UnquoteBranch(x: Regions): Regions {
    SpaceTags(ReplaceBlanks(x.(selection := UnwrapAsWritten(StripQuoteLines(x.selection))), false))
  }

  /** Quote, or unquote when every line of the selection is quoted already. */
  function Toggle(x: Regions): Regions {
    if !AllQuoted(x.selection) then QuoteBranch(x) else UnquoteBranch(x)
  }

  /**
   * A one-line selection that starts with `>` gives the `>` and the spaces
   * after it to the start tag; the tag and the selection together do not
   * change.
   */
  function MarkerToTag(x: Regions): (r: Regions)
    ensures r.startTag + r.selection == x.startTag + x.selection
    ensures r.before == x.before && r.endTag == x.endTag && r.after == x.after
    ensures x.startTag <= r.startTag
    ensures '\n' !in x.selection && Quoted(x.selection) ==>
              Quoted(r.startTag[|x.startTag|..]) && (r.selection == [] || r.selection[0] != ' ')
    ensures '\n' in x.selection || !Quoted(x.selection) ==> r == x
  {
    var s := x.selection;
    if '\n' !in s && Quoted(s) then
      var k := RunEnd(s, 1, Only(' '));
      assert s == s[..k] + s[k..];
      x.(startTag := x.startTag + s[..k], selection := s[k..])
    else x
  }

  /** A text whose edges are not line breaks is its own strip. */
  lemma StripKept(s: string)
    requires s != [] && s[0] != '\n' && s[|s| - 1] != '\n'
    ensures Strip(s, Newline) == s
  {
    assert LeadingRun(s, Newline) == 0;
    assert s[0..] == s;
    assert TrailingRun(s, Newline) == 0;
  }

  /** A wrapped text quoted by `> ` has no line break at either edge. */
  lemma PrefixedEdges(w: string)
    requires w == [] || !IsSpace(w[|w| - 1])
    ensures Strip(PrefixLines(w, "> "), Newline) == PrefixLines(w, "> ")
  {
    var q := PrefixLines(w, "> ");
    assert q[0] == '>';
    if w != [] {
      PrefixLinesLast(w, "> ");
    } else {
      assert q == "> ";
    }
    StripKept(q);
  }

  /** The selection the quoting branch leaves. */
  lemma QuoteBranchSelection(x: Regions)
    ensures QuoteBranch(x).selection == Strip(PrefixLines(Wrap(x.selection, LineLength - 2), "> "), Newline)
  {
    var q := PrefixLines(Wrap(x.selection, LineLength - 2), "> ");
    SkipLinesSelection(ReplaceBlanks(x.(selection := q), true), 1, 1, false);
  }

  /**
   * Quoting a selection that has an unquoted line leaves one whose every
   * line is quoted, so the command run again takes the other branch; and
   * taking the markers off gives back the wrapped text.
   */
  lemma QuoteBranchQuotes(x: Regions)
    requires !AllQuoted(x.selection)
    ensures AllQuoted(Toggle(x).selection)
    ensures StripQuoteLines(Toggle(x).selection) == Wrap(x.selection, LineLength - 2)
  {
    var w := Wrap(x.selection, LineLength - 2);
    QuoteBranchSelection(x);
    PrefixedEdges(w);
    PrefixLinesAllQuoted(w);
    StripPrefixLines(w);
  }

  // ---------------------------------------------------------------------
  // The command
  // ---------------------------------------------------------------------

  /** The selection tidied: edge newlines out, a `>` before it in, and an example text for an empty one. */
  function Prepared(x: Regions, strings: map<string, string>): Regions {
    var y := MarkerToSelection(NewlinesOut(x));
    y.(selection := QuoteSelection(y.selection, strings))
  }

  /** The start tag from the backward scan over `before`. */
  function Scanned(x: Regions): Regions {
    var (tag, rest) := ScanBefore(x.before);
    x.(startTag := tag, before := rest)
  }

  /**
   * `quote` on the chunks, with the `postBlockquoteCreation` hook as `hook`:
   * the steps in the order the command takes them.
   */
  function QuoteRegions(x: Regions, strings: map<string, string>, hook: string -> string): Regions {
    var y := Toggle(EndTagStep(Scanned(Prepared(x, strings))));
    MarkerToTag(y.(selection := hook(y.selection)))
  }

  /** `quote` on the text area. */
  function QuoteSpec(st: State, strings: map<string, string>, hook: string -> string): State {
    StateOf(QuoteRegions(RegionsOf(st), strings, hook), st.scrollTop)
  }

  /** `replaceBlanksInTags(useBracket)`, on the chunk. */
  method ReplaceBlanksInTags(chunk: Chunk, useBracket: bool)
    modifies chunk
    ensures chunk.Value() == ReplaceBlanks(old(chunk.Value()), useBracket) && chunk.scrollTop == old(chunk.scrollTop)
  {
    var replacement := if useBracket then "> " else "";
    if chunk.startTag != [] {
      chunk.startTag := StartTagBlanks(chunk.startTag, replacement);
    }
    if chunk.endTag != [] {
      chunk.endTag := EndTagBlanks(chunk.endTag, replacement);
    }
  }

  /** The blank line between the tags and an unquoted selection, on the chunk. */
  method SpaceTagsOf(chunk: Chunk)
    modifies chunk
    ensures chunk.Value() == SpaceTags(old(chunk.Value())) && chunk.scrollTop == old(chunk.scrollTop)
  {
    if !StartsQuoted(chunk.selection) && chunk.startTag != [] {
      chunk.startTag := chunk.startTag[..|chunk.startTag| - Min(2, TrailingRun(chunk.startTag, Newline))] + "\n\n";
    }
    if !EndsQuoted(chunk.selection) && chunk.endTag != [] {
      chunk.endTag := "\n\n" + chunk.endTag[Min(2, LeadingRun(chunk.endTag, Newline))..];
    }
  }

  /** The unquoting branch, on the chunk. */
  method UnquoteLines(chunk: Chunk)
    modifies chunk
    ensures chunk.Value() == UnquoteBranch(old(chunk.Value())) && chunk.scrollTop == old(chunk.scrollTop)
  {
    chunk.selection := StripQuoteLines(chunk.selection);
    chunk.selection := UnwrapAsWritten(chunk.selection);
    ReplaceBlanksInTags(chunk, false);
    SpaceTagsOf(chunk);
  }

  /** The quoting branch, on the chunk. */
  method QuoteLines(chunk: Chunk)
    modifies chunk
    ensures chunk.Value() == QuoteBranch(old(chunk.Value())) && chunk.scrollTop == old(chunk.scrollTop)
  {
    chunk.selection := Wrap(chunk.selection, LineLength - 2);
    chunk.selection := PrefixLines(chunk.selection, "> ");
    ReplaceBlanksInTags(chunk, true);
    chunk.SkipLines(1, 1, false);
  }

  /** The selection tidied, on the chunk. */
  method Prepare(chunk: Chunk, strings: map<string, string>)
    modifies chunk
    ensures chunk.Value() == Prepared(old(chunk.Value()), strings) && chunk.scrollTop == old(chunk.scrollTop)
  {
    chunk.Set(NewlinesOut(chunk.Value()));
    chunk.Set(MarkerToSelection(chunk.Value()));
    chunk.selection := QuoteSelection(chunk.selection, strings);
  }

  /** The tags found around the selection, on the chunk. */
  method FindQuoteTags(chunk: Chunk)
    modifies chunk
    ensures chunk.Value() == EndTagStep(Scanned(old(chunk.Value()))) && chunk.scrollTop == old(chunk.scrollTop)
  {
    var matched, leftOver := ScanQuote(chunk.before);
    chunk.startTag, chunk.before := matched, leftOver;
    chunk.Set(EndTagStep(chunk.Value()));
  }

  /** The hook, and a one-line quote's marker into the start tag, on the chunk. */
  method Finish(chunk: Chunk, hook: string -> string)
    modifies chunk
    ensures chunk.Value() == MarkerToTag(old(chunk.Value()).(selection := hook(old(chunk.selection))))
    ensures chunk.scrollTop == old(chunk.scrollTop)
  {
    chunk.selection := hook(chunk.selection);
    if '\n' !in chunk.selection && |chunk.selection| > 0 && chunk.selection[0] == '>' {
      var k := RunEnd(chunk.selection, 1, Only(' '));
      chunk.startTag := chunk.startTag + chunk.selection[..k];
      chunk.selection := chunk.selection[k..];
    }
  }

  /** The steps of `quote` between `initiate` and `finish`. */
  method QuoteChunk(chunk: Chunk, strings: map<string, string>, hook: string -> string)
    modifies chunk
    ensures chunk.Value() == QuoteRegions(old(chunk.Value()), strings, hook) && chunk.scrollTop == old(chunk.scrollTop)
  {
    Prepare(chunk, strings);
    FindQuoteTags(chunk);
    if !AllQuoted(chunk.selection) {
      QuoteLines(chunk);
    } else {
      UnquoteLines(chunk);
    }
    Finish(chunk, hook);
  }

  /** The blockquote command: the chunks are taken from the text area, changed and written back. */
  method QuoteCommand(state: TextareaState, strings: map<string, string>, hook: string -> string)
    modifies state
    ensures state.Value() == QuoteSpec(old(state.Value()), strings, hook)
  {
    var chunk := state.GetChunks();
    QuoteChunk(chunk, strings, hook);
    state.SetChunks(chunk);
  }
}
