/**
 * The reference-link bookkeeping of the command manager in Markdown.Editor.js.
 * `stripLinkDefs` removes the definitions `[n]: url "title"` from a text and
 * records them by id; `addLinkDef` renumbers every reference whose id has a
 * definition densely (1, 2, ...) and writes the renumbered definitions after
 * the chunk; `getLinkDef` reads the URL of a reference back.
 *
 * Each regular expression is written as a deterministic matcher that takes
 * the alternatives in the order the JavaScript engine backtracks through
 * them, and each global `replace` as a left-to-right scan over the text.
 */
module LinkDefs {
  import opened Wrappers
  import opened Strings
  import opened Chunks

  // ---------------------------------------------------------------------
  // The definition pattern of `stripLinkDefs`
  // ---------------------------------------------------------------------

  /** `^` in a multi-line pattern: the start of the text or just after a line terminator. */
  predicate LineStartAt(s: string, x: nat)
    requires x <= |s|
  {
    x == 0 || IsLineTerminator(s[x - 1])
  }

  /** `(?:\n+|$)` in a multi-line pattern at `x`: where the match ends, if there is one. */
  function LineEndFrom(s: string, x: nat): (r: Option<nat>)
    requires x <= |s|
    ensures r.Some? ==> x <= r.value <= |s|
    ensures r.Some? <==> x == |s| || IsLineTerminator(s[x])
  {
    if x < |s| && s[x] == '\n' then Some(RunEnd(s, x, Newline))
    else if x == |s| || IsLineTerminator(s[x]) then Some(x)
    else None
  }

  /** `[ \t]*` from `x`. */
  function AfterBlanks(s: string, x: nat): (y: nat)
    requires x <= |s|
    ensures x <= y <= |s|
  {
    RunEnd(s, x, Blank)
  }

  /**
   * `[ \t]*\n?[ \t]*` from `x`, taken greedily: what follows it in the
   * pattern needs a character outside `[ \t\n]`, so it never gives any back.
   */
  function BlankLineGap(s: string, x: nat): (y: nat)
    requires x <= |s|
    ensures x <= y <= |s|
  {
    var b := AfterBlanks(s, x);
    if b < |s| && s[b] == '\n' then AfterBlanks(s, b + 1) else b
  }

  /** `[ ]{0,3}\[(\d+)\]:` at `p`: the id and where the colon ends. */
  datatype Label = Label(id: string, colonEnd: nat)

  function LabelAt(s: string, p: nat): (r: Option<Label>)
    requires p <= |s|
    ensures r.Some? ==> p + 4 <= r.value.colonEnd <= |s|
    ensures r.Some? ==> r.value.id != "" && All(r.value.id, DecimalDigit)
    ensures r.Some? ==> s[r.value.colonEnd - 1] == ':' && forall k | p <= k < r.value.colonEnd :: s[k] != '"' && s[k] != '('
  {
    var i := LabelOpen(s, p);
    if i < |s| && s[i] == '[' then
      var j := RunEnd(s, i + 1, DecimalDigit);
      if j > i + 1 && j + 1 < |s| && s[j] == ']' && s[j + 1] == ':' then
        var id := s[i + 1..j];
        assert forall k | 0 <= k < |id| :: id[k] == s[i + 1 + k];
        Some(Label(id, j + 2))
      else None
    else None
  }

  /** Where the `[` of a label at `p` must be: after at most three spaces. */
  function LabelOpen(s: string, p: nat): (i: nat)
    requires p <= |s|
    ensures p <= i <= |s| && forall k | p <= k < i :: s[k] == ' '
  {
    Min(RunEnd(s, p, Only(' ')), p + 3)
  }

  /** How the part of a definition after its URL matched: where it ends, and the `newlines` and `title` captures. */
  datatype Tail = Tail(end: nat, newlines: string, title: string)

  /**
   * `(.+?)[")][ \t]*(?:\n+|$)` once the title has reached `t`: the shortest
   * title (without line terminators) whose closing quote the rest of the line
   * accepts. Returns the position of the closing quote and where the match ends.
   */
  function TitleClose(s: string, t: nat): (r: Option<(nat, nat)>)
    requires t <= |s|
    ensures r.Some? ==> t <= r.value.0 < r.value.1 <= |s|
    decreases |s| - t
  {
    if t == |s| then None
    else if (s[t] == '"' || s[t] == ')') && LineEndFrom(s, AfterBlanks(s, t + 1)).Some? then
      Some((t, LineEndFrom(s, AfterBlanks(s, t + 1)).value))
    else if IsLineTerminator(s[t]) then None
    else TitleClose(s, t + 1)
  }

  /** `(\n*)["(](.+?)[")][ \t]*(?:\n+|$)` at `x`. */
  function TitleAt(s: string, x: nat): (r: Option<Tail>)
    requires x <= |s|
    ensures r.Some? ==> x + |r.value.newlines| + |r.value.title| + 2 <= r.value.end <= |s|
  {
    var y := RunEnd(s, x, Newline);
    if y + 1 < |s| && (s[y] == '"' || s[y] == '(') && !IsLineTerminator(s[y + 1]) then
      match TitleClose(s, y + 2)
      case Some((t, e)) => Some(Tail(e, s[x..y], s[y + 1..t]))
      case None => None
    else None
  }

  /** The optional title group and then `(?:\n+|$)` at `x`: the group is tried first. */
  function TitleOrLineEnd(s: string, x: nat): (r: Option<Tail>)
    requires x <= |s|
    ensures r.Some? ==> x + |r.value.newlines| + |r.value.title| <= r.value.end <= |s|
  {
    match TitleAt(s, x)
    case Some(tail) => Some(tail)
    case None =>
      match LineEndFrom(s, x)
      case Some(e) => Some(Tail(e, "", ""))
      case None => None
  }

  /**
   * `>?[ \t]*\n?[ \t]*` and the rest of the pattern, once the URL ends at `e`.
   * The greedy path (past a newline and the blanks after it) is tried first;
   * the engine then backtracks to just before the newline. Every other
   * backtracking point leaves a blank or a `>` in front of the title group
   * and the line end, which both refuse it.
   */
  function AfterLink(s: string, e: nat): (r: Option<Tail>)
    requires e <= |s|
    ensures r.Some? ==> e + |r.value.newlines| + |r.value.title| <= r.value.end <= |s|
  {
    var q := if e < |s| && s[e] == '>' then e + 1 else e;
    var b := AfterBlanks(s, q);
    if b < |s| && s[b] == '\n' then
      match TitleOrLineEnd(s, AfterBlanks(s, b + 1))
      case Some(tail) => Some(tail)
      case None => TitleOrLineEnd(s, b)
    else TitleOrLineEnd(s, b)
  }

  /** The lazy URL `(\S+?)`: the first end `e` in `lo..hi` after which the rest matches. */
  function FirstLinkEnd(s: string, lo: nat, hi: nat): (r: Option<Tail>)
    requires hi <= |s|
    ensures r.Some? ==> lo + |r.value.newlines| + |r.value.title| <= r.value.end <= |s|
    decreases hi + 1 - lo
  {
    if lo > hi then None
    else
      match AfterLink(s, lo)
      case Some(tail) => Some(tail)
      case None => FirstLinkEnd(s, lo + 1, hi)
  }

  /**
   * `<?(\S+?)` from `a` and the rest of the pattern. An opening `<` is first
   * taken as the bracket (the URL then starts after it) and only on failure
   * as the URL's one and only character (longer URLs were tried already).
   */
  function UrlTail(s: string, a: nat): (r: Option<Tail>)
    requires a <= |s|
    ensures r.Some? ==> a + |r.value.newlines| + |r.value.title| <= r.value.end <= |s|
  {
    var hi := RunEnd(s, a, NonSpace);
    if a < |s| && s[a] == '<' then
      match FirstLinkEnd(s, a + 2, hi)
      case Some(t) => Some(t)
      case None => FirstLinkEnd(s, a + 1, a + 1)
    else FirstLinkEnd(s, a + 1, hi)
  }

  /** A match of the definition pattern: where it ends, its id, and the `newlines` and `title` captures. */
  datatype Definition = Definition(end: nat, id: string, newlines: string, title: string)

  /**
   * The pattern of `stripLinkDefs` at `p`:
   * `[ ]{0,3}\[(\d+)\]:[ \t]*\n?[ \t]*<?(\S+?)>?[ \t]*\n?[ \t]*(?:(\n*)["(](.+?)[")][ \t]*)?(?:\n+|$)`.
   */
  function DefinitionAt(s: string, p: nat): (r: Option<Definition>)
    requires p <= |s|
    ensures r.Some? ==> p + 4 + |r.value.newlines| + |r.value.title| <= r.value.end <= |s|
    ensures r.Some? ==> r.value.id != "" && All(r.value.id, DecimalDigit)
    ensures r.Some? ==> LabelAt(s, p).Some? && LabelAt(s, p).value.id == r.value.id && LabelAt(s, p).value.colonEnd <= r.value.end
  {
    match LabelAt(s, p)
    case None => None
    case Some(lbl) =>
      var a := BlankLineGap(s, lbl.colonEnd);
      match UrlTail(s, a)
      case None => None
      case Some(t) => Some(Definition(t.end, lbl.id, t.newlines, t.title))
  }

  // ---------------------------------------------------------------------
  // stripLinkDefs
  // ---------------------------------------------------------------------

  /** `/["(](.+?)[")]$/`: the leftmost start, from `i`, of a quoted title ending the text. */
  function QuotedTitleEnding(t: string, i: nat): (r: Option<nat>)
    requires i <= |t|
    ensures r.Some? ==> i <= r.value < |t| && (t[r.value] == '"' || t[r.value] == '(')
    decreases |t| - i
  {
    if i == |t| then None
    else if (t[i] == '"' || t[i] == '(') && i + 3 <= |t| && (t[|t| - 1] == '"' || t[|t| - 1] == ')')
         && (forall k | i < k < |t| - 1 :: !IsLineTerminator(t[k])) then Some(i)
    else QuotedTitleEnding(t, i + 1)
  }

  /**
   * What `stripLinkDefs` records for a definition: the match without its
   * trailing white space; when the title came after blank lines, the match
   * with a title at its very end cut off instead.
   */
  function Recorded(total: string, newlines: string): string {
    if newlines != "" then
      match QuotedTitleEnding(total, 0)
      case Some(i) => total[..i]
      case None => total
    else total[..|total| - TrailingRun(total, Space)]
  }

  /** What a definition is replaced by: nothing, or the blank lines and the title it kept. */
  function Replacement(d: Definition): string {
    if d.newlines != "" then d.newlines + d.title else ""
  }

  /** A definition that matches at a line start `q`. */
  predicate DefinitionLineAt(s: string, q: nat)
    requires q <= |s|
  {
    LineStartAt(s, q) && DefinitionAt(s, q).Some?
  }

  /** The definition the global, multi-line scan takes at each position of `s`, if any. */
  function DefinitionLines(s: string): (at: nat -> Option<Definition>)
    ensures Advances(s, at)
    ensures forall q: nat | q <= |s| :: at(q).Some? <==> DefinitionLineAt(s, q)
  {
    (q: nat) => if q <= |s| && LineStartAt(s, q) then DefinitionAt(s, q) else None
  }

  /** Every definition `at` finds lies inside the text and is longer than what replaces it. */
  ghost predicate Advances(s: string, at: nat -> Option<Definition>) {
    forall q: nat :: at(q).Some? ==> q + |Replacement(at(q).value)| < at(q).value.end <= |s|
  }

  /**
   * A global `replace` of definitions from `p`, where `at` says which
   * definition matches where: the text left and the definitions recorded by
   * id (a later definition of an id replaces an earlier one).
   */
  function StripFrom(s: string, p: nat, defs: map<string, string>, at: nat -> Option<Definition>): (r: (string, map<string, string>))
    requires p <= |s| && Advances(s, at)
    ensures |r.0| <= |s| - p
    decreases |s| - p
  {
    if p == |s| then ("", defs)
    else
      match at(p)
      case Some(d) =>
        var rest := StripFrom(s, d.end, defs[d.id := Recorded(s[p..d.end], d.newlines)], at);
        (Replacement(d) + rest.0, rest.1)
      case None =>
        var rest := StripFrom(s, p + 1, defs, at);
        ([s[p]] + rest.0, rest.1)
  }

  /**
   * `stripLinkDefs(text, defsToAdd)`: the text without its definitions, and
   * `defsToAdd` after recording them. The text is left as it was exactly when
   * no definition starts at any of its line starts, and then nothing is
   * recorded; otherwise the text gets shorter.
   */
  function StripLinkDefs(s: string, defs: map<string, string>): (r: (string, map<string, string>))
    ensures r.0 == s <==> NoDefinitionLine(s)
    ensures NoDefinitionLine(s) ==> r.1 == defs
    ensures !NoDefinitionLine(s) ==> |r.0| < |s|
  {
    var at := DefinitionLines(s);
    StripFromUnchanged(s, 0, defs, at);
    assert s[0..] == s;
    assert NothingFrom(s, 0, at) <==> NoDefinitionLine(s);
    StripFrom(s, 0, defs, at)
  }

  /** No definition line starts anywhere in `s`. */
  predicate NoDefinitionLine(s: string) {
    forall q | 0 <= q < |s| :: !DefinitionLineAt(s, q)
  }

  /** `at` finds nothing from `p` on. */
  predicate NothingFrom(s: string, p: nat, at: nat -> Option<Definition>)
    requires p <= |s|
  {
    forall q | p <= q < |s| :: at(q).None?
  }

  lemma {:induction false} StripFromUnchanged(s: string, p: nat, defs: map<string, string>, at: nat -> Option<Definition>)
    requires p <= |s| && Advances(s, at)
    ensures StripFrom(s, p, defs, at).0 == s[p..] <==> NothingFrom(s, p, at)
    ensures NothingFrom(s, p, at) ==> StripFrom(s, p, defs, at).1 == defs
    ensures !NothingFrom(s, p, at) ==> |StripFrom(s, p, defs, at).0| < |s| - p
    decreases |s| - p
  {
    if p < |s| {
      match at(p)
      case Some(d) =>
        assert !NothingFrom(s, p, at);
        assert |Replacement(d)| < d.end - p;
      case None =>
        StripFromUnchanged(s, p + 1, defs, at);
        assert s[p..] == [s[p]] + s[p + 1..];
        if NothingFrom(s, p + 1, at) {
          assert NothingFrom(s, p, at);
        } else {
          assert !NothingFrom(s, p, at);
        }
    }
  }

  // ---------------------------------------------------------------------
  // What is recorded keeps its label
  // ---------------------------------------------------------------------

  /** Every recorded definition starts with the label of its own id. */
  predicate Labelled(defs: map<string, string>) {
    forall id | id in defs :: LabelAt(defs[id], 0).Some? && LabelAt(defs[id], 0).value.id == id
  }

  /** A label read from `s` at `p` reads the same from any piece of `s` that starts at `p` and holds it. */
  lemma LabelAtSlice(s: string, p: nat, e: nat)
    requires p <= e <= |s| && LabelAt(s, p).Some? && LabelAt(s, p).value.colonEnd <= e
    ensures LabelAt(s[p..e], 0) == Some(Label(LabelAt(s, p).value.id, LabelAt(s, p).value.colonEnd - p))
  {
    ShiftLabel(s, p, s[p..e]);
  }

  /** `t` starts with the `n` characters of `s` from `p`. */
  predicate Agree(s: string, p: nat, t: string, n: nat) {
    p + n <= |s| && n <= |t| && forall k | 0 <= k < n :: t[k] == s[p + k]
  }

  /** A label read from `s` at `p` is read from the start of any `t` that agrees with `s` from `p` up to the colon. */
  lemma ShiftLabel(s: string, p: nat, t: string)
    requires p <= |s| && LabelAt(s, p).Some? && Agree(s, p, t, LabelAt(s, p).value.colonEnd - p)
    ensures LabelAt(t, 0) == Some(Label(LabelAt(s, p).value.id, LabelAt(s, p).value.colonEnd - p))
  {
    var i := LabelOpen(s, p);
    var j := RunEnd(s, i + 1, DecimalDigit);
    LabelAtParts(s, p);
    ShiftParts(s, p, t, i, j);
    LabelAtFromParts(t, i - p, j - p, s[i + 1..j]);
  }

  /** Where the parts of the label sit in `t`. */
  lemma ShiftParts(s: string, p: nat, t: string, i: nat, j: nat)
    requires p <= |s| && i == LabelOpen(s, p) && i < |s| && s[i] == '[' && j == RunEnd(s, i + 1, DecimalDigit)
    requires i + 1 < j && j + 1 < |s| && s[j] == ']' && s[j + 1] == ':' && Agree(s, p, t, j + 2 - p)
    ensures i - p == LabelOpen(t, 0) && i - p < |t| && t[i - p] == '[' && RunEnd(t, i - p + 1, DecimalDigit) == j - p
    ensures i - p + 1 < j - p && j - p + 1 < |t| && t[j - p] == ']' && t[j - p + 1] == ':' && t[i - p + 1..j - p] == s[i + 1..j]
  {
    var n := j + 2 - p;
    ShiftOpen(s, p, t, n);
    ShiftDigits(s, p, t, n, i + 1);
    ShiftSlice(s, p, t, n, i + 1, j);
    assert t[i - p] == s[i] && t[j - p] == s[j] && t[j - p + 1] == s[j + 1];
  }

  /** The spaces before the label's bracket are as many in `t`. */
  lemma ShiftOpen(s: string, p: nat, t: string, n: nat)
    requires Agree(s, p, t, n) && LabelOpen(s, p) < p + n && s[LabelOpen(s, p)] == '['
    ensures LabelOpen(t, 0) == LabelOpen(s, p) - p
  {
    var i := LabelOpen(s, p);
    assert t[i - p] == s[i];
    RunEndAt(t, 0, i - p, Only(' '));
    RunEndAt(s, p, i, Only(' '));
  }

  /** The id's digits end at the same place in `t`. */
  lemma ShiftDigits(s: string, p: nat, t: string, n: nat, a: nat)
    requires Agree(s, p, t, n) && p <= a <= p + n && RunEnd(s, a, DecimalDigit) < p + n
    ensures RunEnd(t, a - p, DecimalDigit) == RunEnd(s, a, DecimalDigit) - p
  {
    var j := RunEnd(s, a, DecimalDigit);
    assert t[j - p] == s[j];
    assert forall k | a - p <= k < j - p :: t[k] == s[p + k];
    RunEndAt(t, a - p, j - p, DecimalDigit);
  }

  /** A piece of `s` after `p` is the same piece of `t`. */
  lemma ShiftSlice(s: string, p: nat, t: string, n: nat, a: nat, b: nat)
    requires Agree(s, p, t, n) && p <= a <= b <= p + n
    ensures t[a - p..b - p] == s[a..b]
  {
    forall k | 0 <= k < b - a ensures t[a - p..b - p][k] == s[a..b][k] {
      assert t[a - p + k] == s[p + (a - p + k)];
    }
  }

  /** What a label read at `p` is made of. */
  lemma LabelAtParts(s: string, p: nat)
    requires p <= |s| && LabelAt(s, p).Some?
    ensures var i := LabelOpen(s, p);
            i < |s| && s[i] == '[' &&
            var j := RunEnd(s, i + 1, DecimalDigit);
            i + 1 < j && j + 1 < |s| && s[j] == ']' && s[j + 1] == ':' && LabelAt(s, p).value == Label(s[i + 1..j], j + 2)
  {
  }

  /** A label is read at `p` from its parts. */
  lemma LabelAtIs(s: string, p: nat, i: nat, j: nat)
    requires p <= |s| && i == LabelOpen(s, p) && i < |s| && s[i] == '[' && j == RunEnd(s, i + 1, DecimalDigit)
    requires i + 1 < j && j + 1 < |s| && s[j] == ']' && s[j + 1] == ':'
    ensures LabelAt(s, p) == Some(Label(s[i + 1..j], j + 2))
  {
  }

  /** A label is read at the start of `t` from its parts. */
  lemma LabelAtFromParts(t: string, i: nat, j: nat, id: string)
    requires i == LabelOpen(t, 0) && i < |t| && t[i] == '[' && RunEnd(t, i + 1, DecimalDigit) == j
    requires i + 1 < j && j + 1 < |t| && t[j] == ']' && t[j + 1] == ':' && t[i + 1..j] == id
    ensures LabelAt(t, 0) == Some(Label(id, j + 2))
  {
    LabelAtIs(t, 0, i, j);
  }

  /** What the scan records for a definition at `p` ending at `e` starts with the definition's label. */
  lemma RecordedLabel(s: string, p: nat, e: nat, newlines: string)
    requires p <= e <= |s| && LabelAt(s, p).Some? && LabelAt(s, p).value.colonEnd <= e
    ensures LabelAt(Recorded(s[p..e], newlines), 0) == Some(Label(LabelAt(s, p).value.id, LabelAt(s, p).value.colonEnd - p))
  {
    var c := LabelAt(s, p).value.colonEnd;
    RecordedPiece(s, p, c, e, newlines);
    var k :| c <= k <= e && Recorded(s[p..e], newlines) == s[p..k];
    LabelAtSlice(s, p, k);
  }

  /** What is recorded for a match `s[p..e]` is a prefix of it that keeps everything up to the label's colon at `c - 1`. */
  lemma RecordedPiece(s: string, p: nat, c: nat, e: nat, newlines: string)
    requires p < c <= e <= |s| && s[c - 1] == ':' && forall k | p <= k < c :: s[k] != '"' && s[k] != '('
    ensures exists k | c <= k <= e :: Recorded(s[p..e], newlines) == s[p..k]
  {
    var total := s[p..e];
    if newlines != "" {
      match QuotedTitleEnding(total, 0)
      case Some(i) =>
        assert total[i] == s[p + i];
        assert c <= p + i <= e && Recorded(total, newlines) == s[p..p + i];
      case None =>
        assert Recorded(total, newlines) == s[p..e];
    } else {
      var n := TrailingRun(total, Space);
      assert total[c - p - 1] == ':';
      assert n <= |total| - (c - p);
      assert c <= e - n <= e && Recorded(total, newlines) == s[p..e - n];
    }
  }

  /** The scan of `stripLinkDefs` records only labelled definitions, each under its own id. */
  ghost predicate RecordsLabelled(s: string, at: nat -> Option<Definition>)
    requires Advances(s, at)
  {
    forall q: nat | at(q).Some? ::
      var d := at(q).value;
      LabelAt(Recorded(s[q..d.end], d.newlines), 0).Some? && LabelAt(Recorded(s[q..d.end], d.newlines), 0).value.id == d.id
  }

  lemma DefinitionLinesLabelled(s: string)
    ensures RecordsLabelled(s, DefinitionLines(s))
  {
    var at := DefinitionLines(s);
    forall q: nat | at(q).Some?
      ensures LabelAt(Recorded(s[q..at(q).value.end], at(q).value.newlines), 0).Some?
      ensures LabelAt(Recorded(s[q..at(q).value.end], at(q).value.newlines), 0).value.id == at(q).value.id
    {
      assert q <= |s|;
      RecordedLabel(s, q, at(q).value.end, at(q).value.newlines);
    }
  }

  lemma {:induction false} StripFromLabelled(s: string, p: nat, defs: map<string, string>, at: nat -> Option<Definition>)
    requires p <= |s| && Advances(s, at) && RecordsLabelled(s, at) && Labelled(defs)
    ensures Labelled(StripFrom(s, p, defs, at).1)
    decreases |s| - p
  {
    if p < |s| {
      match at(p)
      case Some(d) =>
        var v := Recorded(s[p..d.end], d.newlines);
        assert LabelAt(v, 0).Some? && LabelAt(v, 0).value.id == d.id;
        LabelledUpdate(defs, d.id, v);
        StripFromLabelled(s, d.end, defs[d.id := v], at);
      case None =>
        StripFromLabelled(s, p + 1, defs, at);
    }
  }

  /** Recording a definition that starts with the label of its id keeps the table labelled. */
  lemma LabelledUpdate(defs: map<string, string>, id: string, v: string)
    requires Labelled(defs) && LabelAt(v, 0).Some? && LabelAt(v, 0).value.id == id
    ensures Labelled(defs[id := v])
  {
  }

  /** `stripLinkDefs` keeps every recorded definition starting with the label of its own id. */
  lemma StripLinkDefsLabelled(s: string, defs: map<string, string>)
    requires Labelled(defs)
    ensures Labelled(StripLinkDefs(s, defs).1)
  {
    DefinitionLinesLabelled(s);
    StripFromLabelled(s, 0, defs, DefinitionLines(s));
  }

  /** `addDefNumber`'s `def.replace(/^[ ]{0,3}\[(\d+)\]:/, "  [" + refNumber + "]:")`. */
  function Renumbered(def: string, n: nat): string {
    match LabelAt(def, 0)
    case Some(l) => "  [" + NatToString(n) + "]:" + def[l.colonEnd..]
    case None => def
  }

  /** Renumbering a labelled definition puts the label `  [n]:` in front of what followed its old label. */
  lemma RenumberedLabel(def: string, n: nat)
    requires LabelAt(def, 0).Some?
    ensures Renumbered(def, n) == "  [" + NatToString(n) + "]:" + def[LabelAt(def, 0).value.colonEnd..]
    ensures LabelAt(Renumbered(def, n), 0) == Some(Label(NatToString(n), |NatToString(n)| + 5))
  {
    var r := Renumbered(def, n);
    var num := NatToString(n);
    assert r[..2] == "  " && r[2] == '[';
    assert RunEnd(r, 0, Only(' ')) == 2 by {
      assert RunEnd(r, 2, Only(' ')) == 2;
      assert RunEnd(r, 1, Only(' ')) == 2;
    }
    assert LabelOpen(r, 0) == 2;
    assert r[3..3 + |num|] == num;
    RunEndDigits(r, 3, |num|);
    assert r[3 + |num|] == ']' && r[4 + |num|] == ':';
  }

  lemma RenumberedPrefix(def: string, n: nat)
    requires LabelAt(def, 0).Some?
    ensures NumberLabel(n) <= Renumbered(def, n)
  {
  }

  lemma {:induction false} RunEndDigits(r: string, i: nat, m: nat)
    requires i + m < |r| && All(r[i..i + m], DecimalDigit) && !IsDigit(r[i + m])
    ensures RunEnd(r, i, DecimalDigit) == i + m
    decreases m
  {
    if m > 0 {
      assert r[i..i + m][0] == r[i];
      assert r[i + 1..i + m] == r[i..i + m][1..];
      RunEndDigits(r, i + 1, m - 1);
    }
  }

  // ---------------------------------------------------------------------
  // The reference pattern of `addLinkDef` and its `getLink` replacement
  // ---------------------------------------------------------------------

  /** Where the first `]` at or after `i` is, or `|s|` when there is none. */
  function CloseAt(s: string, i: nat): (j: nat)
    requires i <= |s|
    ensures i <= j <= |s|
    decreases |s| - i
  {
    if i == |s| || s[i] == ']' then i else CloseAt(s, i + 1)
  }

  /**
   * `(?:\[[^\]]*\]|[^\[\]])*` from `i`: a bracketed group runs to the first
   * `]`, any other character but `[` and `]` stands alone. Where the
   * repetition stops; giving an iteration back would leave something other
   * than the `]` the pattern needs next, so the engine never does.
   */
  function InnerEnd(s: string, i: nat): (j: nat)
    requires i <= |s|
    ensures i <= j <= |s|
    decreases |s| - i
  {
    if i == |s| || s[i] == ']' then i
    else if s[i] == '[' then
      var c := CloseAt(s, i + 1);
      if c == |s| then i else InnerEnd(s, c + 1)
    else InnerEnd(s, i + 1)
  }

  /** A match of the reference pattern: the `]` closing the text, where the id starts, and where the match ends. */
  datatype Reference = Reference(innerEnd: nat, idStart: nat, end: nat)

  /** `(\[)((?:\[[^\]]*\]|[^\[\]])*)(\][ ]?(?:\n[ ]*)?\[)(\d+)(\])` at `p`. */
  function ReferenceAt(s: string, p: nat): (r: Option<Reference>)
    requires p <= |s|
    ensures r.Some? ==> p < r.value.innerEnd < r.value.idStart < r.value.end - 1 && r.value.end <= |s|
    ensures r.Some? ==> s[p] == '[' && s[r.value.end - 1] == ']' && All(s[r.value.idStart..r.value.end - 1], DecimalDigit)
  {
    if p < |s| && s[p] == '[' then
      var q := InnerEnd(s, p + 1);
      if q < |s| && s[q] == ']' then
        var a := if q + 1 < |s| && s[q + 1] == ' ' then q + 2 else q + 1;
        var b := if a < |s| && s[a] == '\n' then RunEnd(s, a + 1, Only(' ')) else a;
        if b < |s| && s[b] == '[' then
          var e := RunEnd(s, b + 1, DecimalDigit);
          if e > b + 1 && e < |s| && s[e] == ']' then
            var id := s[b + 1..e];
            assert forall k | 0 <= k < |id| :: id[k] == s[b + 1 + k];
            Some(Reference(q, b + 1, e + 1))
          else None
        else None
      else None
    else None
  }

  /** What a reference matcher must give: a match inside the text, between brackets. */
  ghost predicate Matches(find: (string, nat) -> Option<Reference>) {
    forall t: string, q: nat :: find(t, q).Some? ==>
      var m := find(t, q).value;
      q < m.innerEnd < m.idStart < m.end - 1 && m.end <= |t| && t[q] == '[' && t[m.end - 1] == ']'
  }

  /** The ids a reference matcher finds are digits. */
  ghost predicate DigitIds(find: (string, nat) -> Option<Reference>)
    requires Matches(find)
  {
    forall t: string, q: nat :: find(t, q).Some? ==>
      var m := find(t, q).value;
      All(t[m.idStart..m.end - 1], DecimalDigit)
  }

  /** The reference pattern as a matcher. */
  function References(): (find: (string, nat) -> Option<Reference>)
    ensures Matches(find) && DigitIds(find)
    ensures forall t: string, q: nat | q <= |t| :: find(t, q) == ReferenceAt(t, q)
  {
    (t: string, q: nat) => if q <= |t| then ReferenceAt(t, q) else None
  }

  /**
   * The global `replace` of references by `getLink`, from `p`, where `find`
   * says which reference matches where, with the recorded definitions
   * `table` and the definitions `defs` numbered so far (`defs[k]` carries the
   * number `k + 1`). A reference's inner text is rewritten first. A reference
   * whose id has a definition gets the next number and its definition is
   * appended; any other reference is left as it was written, inner text and
   * all.
   */
  function RewriteFrom(s: string, p: nat, table: map<string, string>, defs: seq<string>,
                       find: (string, nat) -> Option<Reference>): (r: (string, seq<string>))
    requires p <= |s| && Matches(find)
    decreases |s|, |s| - p
  {
    if p == |s| then ("", defs)
    else
      match find(s, p)
      case None =>
        var rest := RewriteFrom(s, p + 1, table, defs, find);
        ([s[p]] + rest.0, rest.1)
      case Some(m) =>
        var inner := RewriteFrom(s[p + 1..m.innerEnd], 0, table, defs, find);
        var id := s[m.idStart..m.end - 1];
        var defs1 := if id in table then inner.1 + [Renumbered(table[id], |inner.1| + 1)] else inner.1;
        var piece := if id in table then "[" + inner.0 + s[m.innerEnd..m.idStart] + NatToString(|defs1|) + "]"
                     else s[p..m.end];
        var rest := RewriteFrom(s, m.end, table, defs1, find);
        (piece + rest.0, rest.1)
  }

  /** `text.replace(regex, getLink)` in `addLinkDef`. */
  function Rewrite(s: string, table: map<string, string>, defs: seq<string>): (string, seq<string>) {
    RewriteFrom(s, 0, table, defs, References())
  }

  /** The ids of the references `getLink` visits from `p`, the ones inside a reference before it. */
  function ReferenceIds(s: string, p: nat, find: (string, nat) -> Option<Reference>): seq<string>
    requires p <= |s| && Matches(find)
    decreases |s|, |s| - p
  {
    if p == |s| then []
    else
      match find(s, p)
      case None => ReferenceIds(s, p + 1, find)
      case Some(m) => ReferenceIds(s[p + 1..m.innerEnd], 0, find) + [s[m.idStart..m.end - 1]] + ReferenceIds(s, m.end, find)
  }

  /** The definitions for the ids that have one, renumbered from `n + 1` on in order. */
  function Numbered(ids: seq<string>, table: map<string, string>, n: nat): seq<string> {
    if ids == [] then []
    else if ids[0] in table then [Renumbered(table[ids[0]], n + 1)] + Numbered(ids[1..], table, n + 1)
    else Numbered(ids[1..], table, n)
  }

  lemma {:induction false} NumberedAppend(a: seq<string>, b: seq<string>, table: map<string, string>, n: nat)
    ensures Numbered(a + b, table, n) == Numbered(a, table, n) + Numbered(b, table, n + |Numbered(a, table, n)|)
    decreases |a|
  {
    if a == [] {
      assert a + b == b;
    } else {
      assert (a + b)[0] == a[0] && (a + b)[1..] == a[1..] + b;
      if a[0] in table {
        NumberedAppend(a[1..], b, table, n + 1);
      } else {
        NumberedAppend(a[1..], b, table, n);
      }
    }
  }

  /**
   * `getLink` numbers densely: the definitions it appends are those of the
   * references it visits whose id has a definition, renumbered consecutively
   * after the ones already there, in the order it visits them.
   */
  lemma {:induction false} RewriteNumbering(s: string, p: nat, table: map<string, string>, defs: seq<string>,
                                            find: (string, nat) -> Option<Reference>)
    requires p <= |s| && Matches(find)
    ensures RewriteFrom(s, p, table, defs, find).1 == defs + Numbered(ReferenceIds(s, p, find), table, |defs|)
    decreases |s|, |s| - p
  {
    if p == |s| {
      assert defs + [] == defs;
    } else {
      match find(s, p)
      case None =>
        RewriteNumbering(s, p + 1, table, defs, find);
      case Some(m) =>
        var t := s[p + 1..m.innerEnd];
        var id := s[m.idStart..m.end - 1];
        var inner := RewriteFrom(t, 0, table, defs, find);
        RewriteNumbering(t, 0, table, defs, find);
        var defs1 := if id in table then inner.1 + [Renumbered(table[id], |inner.1| + 1)] else inner.1;
        RewriteNumbering(s, m.end, table, defs1, find);
        RewriteNumberingStep(s, p, m, table, defs, find);
    }
  }

  /** The numbering at a reference, from the numbering inside it and after it. */
  lemma RewriteNumberingStep(s: string, p: nat, m: Reference, table: map<string, string>, defs: seq<string>,
                             find: (string, nat) -> Option<Reference>)
    requires p < |s| && Matches(find) && find(s, p) == Some(m)
    requires var inner := RewriteFrom(s[p + 1..m.innerEnd], 0, table, defs, find);
             inner.1 == defs + Numbered(ReferenceIds(s[p + 1..m.innerEnd], 0, find), table, |defs|)
    requires var inner := RewriteFrom(s[p + 1..m.innerEnd], 0, table, defs, find);
             var id := s[m.idStart..m.end - 1];
             var defs1 := if id in table then inner.1 + [Renumbered(table[id], |inner.1| + 1)] else inner.1;
             RewriteFrom(s, m.end, table, defs1, find).1 == defs1 + Numbered(ReferenceIds(s, m.end, find), table, |defs1|)
    ensures RewriteFrom(s, p, table, defs, find).1 == defs + Numbered(ReferenceIds(s, p, find), table, |defs|)
  {
    var t := s[p + 1..m.innerEnd];
    var id := s[m.idStart..m.end - 1];
    var inner := RewriteFrom(t, 0, table, defs, find);
    var defs1 := if id in table then inner.1 + [Renumbered(table[id], |inner.1| + 1)] else inner.1;
    var a, b := ReferenceIds(t, 0, find), ReferenceIds(s, m.end, find);
    RewriteFromReference(s, p, m, table, defs, find);
    assert RewriteFrom(s, p, table, defs, find).1 == defs1 + Numbered(b, table, |defs1|);
    ReferenceIdsAt(s, p, m, find);
    NumberedOne(id, table, |inner.1|);
    NumberedVisit(defs, a, id, b, table, inner.1, defs1);
  }

  /** The ids seen from a reference: those inside it, its own, then those after it. */
  lemma ReferenceIdsAt(s: string, p: nat, m: Reference, find: (string, nat) -> Option<Reference>)
    requires p < |s| && Matches(find) && find(s, p) == Some(m)
    ensures ReferenceIds(s, p, find) == ReferenceIds(s[p + 1..m.innerEnd], 0, find) + [s[m.idStart..m.end - 1]] + ReferenceIds(s, m.end, find)
  {
    assert find(s, p).value == m;
  }

  /** One visited reference between the ones inside it and the ones after it. */
  lemma {:induction false} NumberedVisit(defs: seq<string>, a: seq<string>, id: string, b: seq<string>, table: map<string, string>,
                      inner: seq<string>, defs1: seq<string>)
    requires inner == defs + Numbered(a, table, |defs|)
    requires defs1 == inner + Numbered([id], table, |inner|)
    ensures defs1 + Numbered(b, table, |defs1|) == defs + Numbered(a + [id] + b, table, |defs|)
  {
    var n := |defs|;
    var c := a + [id];
    var na := Numbered(a, table, n);
    var ni := Numbered([id], table, n + |na|);
    var nb := Numbered(b, table, n + |na| + |ni|);
    NumberedAppend(a, [id], table, n);
    assert Numbered(c, table, n) == na + ni;
    NumberedAppend(c, b, table, n);
    assert |defs1| == n + |na| + |ni|;
    Assoc4(defs, na, ni, nb);
  }

  lemma Assoc4(w: seq<string>, x: seq<string>, y: seq<string>, z: seq<string>)
    ensures w + x + y + z == w + ((x + y) + z)
  {
  }

  lemma NumberedOne(id: string, table: map<string, string>, n: nat)
    ensures Numbered([id], table, n) == if id in table then [Renumbered(table[id], n + 1)] else []
  {
    assert [id][1..] == [];
  }

  /** The label `addDefNumber` gives the definition numbered `n`. */
  function NumberLabel(n: nat): string {
    "  [" + NatToString(n) + "]:"
  }

  /** The definitions in `defs` start with the labels of the numbers `n + 1`, `n + 2`, ... in order. */
  predicate NumberedFrom(defs: seq<string>, n: nat) {
    defs == [] || (NumberLabel(n + 1) <= defs[0] && NumberedFrom(defs[1..], n + 1))
  }

  /** Renumbered labelled definitions carry the numbers `n + 1`, `n + 2`, ... in order. */
  lemma {:induction false} NumberedDense(ids: seq<string>, table: map<string, string>, n: nat)
    requires Labelled(table)
    ensures NumberedFrom(Numbered(ids, table, n), n)
    decreases |ids|
  {
    if ids != [] {
      if ids[0] in table {
        var rest := Numbered(ids[1..], table, n + 1);
        NumberedDense(ids[1..], table, n + 1);
        RenumberedPrefix(table[ids[0]], n + 1);
        var all := [Renumbered(table[ids[0]], n + 1)] + rest;
        assert all[0] == Renumbered(table[ids[0]], n + 1) && all[1..] == rest;
      } else {
        NumberedDense(ids[1..], table, n);
      }
    }
  }

  /** The `k`-th definition of a densely numbered list starts with the label of `n + k + 1`. */
  lemma {:induction false} NumberedFromAt(defs: seq<string>, n: nat, k: nat)
    requires NumberedFrom(defs, n) && k < |defs|
    ensures NumberLabel(n + k + 1) <= defs[k]
    decreases k
  {
    if k > 0 {
      NumberedFromAt(defs[1..], n + 1, k - 1);
    }
  }

  /**
   * `getLink` changes nothing but reference numbers: with the digits taken
   * out, the text is what it was.
   */
  lemma {:induction false} RewriteOnlyRenumbers(s: string, p: nat, table: map<string, string>, defs: seq<string>,
                                                find: (string, nat) -> Option<Reference>)
    requires p <= |s| && Matches(find) && DigitIds(find)
    ensures Without(RewriteFrom(s, p, table, defs, find).0, DecimalDigit) == Without(s[p..], DecimalDigit)
    decreases |s|, |s| - p
  {
    if p < |s| {
      match find(s, p)
      case None =>
        RewriteOnlyRenumbers(s, p + 1, table, defs, find);
        RewriteStepText(s, p, table, defs, find);
      case Some(m) =>
        var t := s[p + 1..m.innerEnd];
        var inner := RewriteFrom(t, 0, table, defs, find);
        RewriteOnlyRenumbers(t, 0, table, defs, find);
        var id := s[m.idStart..m.end - 1];
        var defs1 := if id in table then inner.1 + [Renumbered(table[id], |inner.1| + 1)] else inner.1;
        RewriteOnlyRenumbers(s, m.end, table, defs1, find);
        RewriteReferenceText(s, p, m, table, defs, find);
    }
  }

  lemma RewriteStepText(s: string, p: nat, table: map<string, string>, defs: seq<string>,
                        find: (string, nat) -> Option<Reference>)
    requires p < |s| && Matches(find) && find(s, p).None?
    requires Without(RewriteFrom(s, p + 1, table, defs, find).0, DecimalDigit) == Without(s[p + 1..], DecimalDigit)
    ensures Without(RewriteFrom(s, p, table, defs, find).0, DecimalDigit) == Without(s[p..], DecimalDigit)
  {
    assert s[p..] == [s[p]] + s[p + 1..];
    WithoutAppend([s[p]], RewriteFrom(s, p + 1, table, defs, find).0, DecimalDigit);
    WithoutAppend([s[p]], s[p + 1..], DecimalDigit);
  }

  lemma RewriteReferenceText(s: string, p: nat, m: Reference, table: map<string, string>, defs: seq<string>,
                             find: (string, nat) -> Option<Reference>)
    requires p < |s| && Matches(find) && DigitIds(find) && find(s, p) == Some(m)
    requires var t := s[p + 1..m.innerEnd];
             Without(RewriteFrom(t, 0, table, defs, find).0, DecimalDigit) == Without(t[0..], DecimalDigit)
    requires var inner := RewriteFrom(s[p + 1..m.innerEnd], 0, table, defs, find);
             var id := s[m.idStart..m.end - 1];
             var defs1 := if id in table then inner.1 + [Renumbered(table[id], |inner.1| + 1)] else inner.1;
             Without(RewriteFrom(s, m.end, table, defs1, find).0, DecimalDigit) == Without(s[m.end..], DecimalDigit)
    ensures Without(RewriteFrom(s, p, table, defs, find).0, DecimalDigit) == Without(s[p..], DecimalDigit)
  {
    var t := s[p + 1..m.innerEnd];
    assert t[0..] == t;
    var inner := RewriteFrom(t, 0, table, defs, find);
    var id := s[m.idStart..m.end - 1];
    var defs1 := if id in table then inner.1 + [Renumbered(table[id], |inner.1| + 1)] else inner.1;
    var rest := RewriteFrom(s, m.end, table, defs1, find);
    var piece := if id in table then "[" + inner.0 + s[m.innerEnd..m.idStart] + NatToString(|defs1|) + "]" else s[p..m.end];
    FoundReference(find, s, p, m);
    PieceOnlyRenumbers(s, p, m.innerEnd, m.idStart, m.end, inner.0, NatToString(|defs1|), id in table);
    DropSplit(s, p, m.end);
    RewriteFromReference(s, p, m, table, defs, find);
    WithoutConcat(piece, rest.0, s[p..m.end], s[m.end..], DecimalDigit);
  }

  /** A found reference is bracketed and its id is digits. */
  lemma FoundReference(find: (string, nat) -> Option<Reference>, t: string, q: nat, m: Reference)
    requires Matches(find) && DigitIds(find) && find(t, q) == Some(m)
    ensures q < m.innerEnd < m.idStart < m.end - 1 && m.end <= |t| && t[q] == '[' && t[m.end - 1] == ']'
    ensures All(t[m.idStart..m.end - 1], DecimalDigit)
  {
  }

  /** The text from `p` is the piece up to `e` and the text from `e`. */
  lemma DropSplit(s: string, p: nat, e: nat)
    requires p <= e <= |s|
    ensures s[p..] == s[p..e] + s[e..]
  {
  }

  /** `RewriteFrom` at a reference: its piece, then the rest. */
  lemma RewriteFromReference(s: string, p: nat, m: Reference, table: map<string, string>, defs: seq<string>,
                             find: (string, nat) -> Option<Reference>)
    requires p < |s| && Matches(find) && find(s, p) == Some(m)
    ensures var inner := RewriteFrom(s[p + 1..m.innerEnd], 0, table, defs, find);
            var id := s[m.idStart..m.end - 1];
            var defs1 := if id in table then inner.1 + [Renumbered(table[id], |inner.1| + 1)] else inner.1;
            var piece := if id in table then "[" + inner.0 + s[m.innerEnd..m.idStart] + NatToString(|defs1|) + "]"
                         else s[p..m.end];
            var rest := RewriteFrom(s, m.end, table, defs1, find);
            RewriteFrom(s, p, table, defs, find) == (piece + rest.0, rest.1)
  {
  }

  /** The text `getLink` returns for one reference differs from the match only in digits. */
  lemma PieceOnlyRenumbers(s: string, p: nat, q: nat, d: nat, e: nat, inner: string, num: string, renumber: bool)
    requires p < q < d < e - 1 && e <= |s| && s[p] == '[' && s[e - 1] == ']'
    requires All(s[d..e - 1], DecimalDigit) && All(num, DecimalDigit)
    requires Without(inner, DecimalDigit) == Without(s[p + 1..q], DecimalDigit)
    ensures var piece := if renumber then "[" + inner + s[q..d] + num + "]" else s[p..e];
            Without(piece, DecimalDigit) == Without(s[p..e], DecimalDigit)
  {
    if renumber {
      BracketedParts(s, p, q, d, e);
      WithoutPiece("[", inner, s[q..d], num, "]");
      WithoutPiece("[", s[p + 1..q], s[q..d], s[d..e - 1], "]");
    }
  }

  /** A bracketed slice of `s` cut at `q` and `d`. */
  lemma BracketedParts(s: string, p: nat, q: nat, d: nat, e: nat)
    requires p < q < d < e - 1 && e <= |s| && s[p] == '[' && s[e - 1] == ']'
    ensures s[p..e] == "[" + s[p + 1..q] + s[q..d] + s[d..e - 1] + "]"
  {
    assert s[p..e] == s[p..q] + s[q..e];
    assert s[p..q] == [s[p]] + s[p + 1..q];
    assert s[q..e] == s[q..d] + s[d..e];
    assert s[d..e] == s[d..e - 1] + [s[e - 1]];
  }

  /** `a + x + sep + num + z` without digits, piece by piece, when `num` is all digits. */
  lemma WithoutPiece(a: string, x: string, sep: string, num: string, z: string)
    requires All(num, DecimalDigit)
    ensures Without(a + x + sep + num + z, DecimalDigit) ==
            Without(a, DecimalDigit) + Without(x, DecimalDigit) + Without(sep, DecimalDigit) + Without(z, DecimalDigit)
  {
    WithoutAppend(a + x + sep + num, z, DecimalDigit);
    WithoutAppend(a + x + sep, num, DecimalDigit);
    WithoutAppend(a + x, sep, DecimalDigit);
    WithoutAppend(a, x, DecimalDigit);
    WithoutAll(num, DecimalDigit);
  }

  /**
   * References whose ids have no definition are left as they were written,
   * and no definition is added.
   */
  lemma {:induction false} RewriteWithoutDefinitions(s: string, p: nat, table: map<string, string>, defs: seq<string>,
                                                     find: (string, nat) -> Option<Reference>)
    requires p <= |s| && Matches(find)
    requires forall id | id in ReferenceIds(s, p, find) :: id !in table
    ensures RewriteFrom(s, p, table, defs, find) == (s[p..], defs)
    decreases |s|, |s| - p
  {
    if p < |s| {
      match find(s, p)
      case None =>
        RewriteWithoutDefinitions(s, p + 1, table, defs, find);
        assert s[p..] == [s[p]] + s[p + 1..];
      case Some(m) =>
        var t := s[p + 1..m.innerEnd];
        ReferenceIdsAt(s, p, m, find);
        RewriteWithoutDefinitions(t, 0, table, defs, find);
        RewriteWithoutDefinitions(s, m.end, table, defs, find);
        RewriteWithoutStep(s, p, m, table, defs, find);
    }
  }

  lemma RewriteWithoutStep(s: string, p: nat, m: Reference, table: map<string, string>, defs: seq<string>,
                           find: (string, nat) -> Option<Reference>)
    requires p < |s| && Matches(find) && find(s, p) == Some(m)
    requires s[m.idStart..m.end - 1] !in table
    requires RewriteFrom(s[p + 1..m.innerEnd], 0, table, defs, find).1 == defs
    requires RewriteFrom(s, m.end, table, defs, find) == (s[m.end..], defs)
    ensures RewriteFrom(s, p, table, defs, find) == (s[p..], defs)
  {
    RewriteFromReference(s, p, m, table, defs, find);
    DropSplit(s, p, m.end);
  }

  // ---------------------------------------------------------------------
  // addLinkDef
  // ---------------------------------------------------------------------

  /** The string `defs` that `addDefNumber` builds: each definition after a line break. */
  function Render(defs: seq<string>): string {
    if defs == [] then "" else "\n" + defs[0] + Render(defs[1..])
  }

  lemma {:induction false} RenderAppend(a: seq<string>, b: seq<string>)
    ensures Render(a + b) == Render(a) + Render(b)
    decreases |a|
  {
    if a == [] {
      assert a + b == b;
    } else {
      assert (a + b)[0] == a[0] && (a + b)[1..] == a[1..] + b;
      RenderAppend(a[1..], b);
    }
  }

  /** `s.replace(/\n*$/, "")`: the line breaks at the end taken away. */
  function DropTrailingNewlines(s: string): (r: string)
    ensures r <= s && All(s[|r|..], Newline)
    ensures r == [] || r[|r| - 1] != '\n'
  {
    var n := TrailingRun(s, Newline);
    assert s[..|s| - n] <= s;
    s[..|s| - n]
  }

  /** `linkDef` as JavaScript tests it: given and not empty. */
  predicate Given(linkDef: Option<string>) {
    linkDef.Some? && linkDef.value != ""
  }

  /** The stages of `addLinkDef`, as values. */
  datatype Stages = Stages(
    table: map<string, string>,   // `defsToAdd` once all three regions are stripped
    before: string,               // `before` stripped and its references renumbered
    selection: string,            // the selection stripped and, without a `linkDef`, renumbered
    after: string,                // `after` stripped and renumbered
    refOut: nat,                  // the number of definitions before `after` is renumbered
    defs: seq<string>)            // the definitions written after the chunk, in order

  /** `addLinkDef` up to (not including) the line-break trimming at the end. */
  function AddLinkDefStages(x: Regions, linkDef: Option<string>): Stages {
    var b := StripLinkDefs(x.before, map[]);
    var sel := StripLinkDefs(x.selection, b.1);
    var aft := StripLinkDefs(x.after, sel.1);
    Renumbering(aft.1, b.0, sel.0, aft.0, linkDef)
  }

  /**
   * The renumbering stages of `addLinkDef` over the stripped regions: the
   * references in `before`, then the given definition or the references in
   * the selection, then those in `after`, each under the next free number.
   */
  function Renumbering(table: map<string, string>, before: string, selection: string, after: string,
                       linkDef: Option<string>): Stages {
    var rb := Rewrite(before, table, []);
    var rs := if Given(linkDef) then (selection, rb.1 + [Renumbered(linkDef.value, |rb.1| + 1)])
              else Rewrite(selection, table, rb.1);
    var ra := Rewrite(after, table, rs.1);
    Stages(table, rb.0, rs.0, ra.0, |rs.1|, ra.1)
  }

  /**
   * `addLinkDef(chunk, linkDef)`: the chunk it leaves and the number it
   * returns. Line breaks are trimmed from the end of `after` and, when
   * `after` is then empty, from the end of the selection; the definitions
   * follow `after` after a blank line.
   */
  function AddLinkDefSpec(x: Regions, linkDef: Option<string>): (Regions, nat) {
    Finished(x, AddLinkDefStages(x, linkDef))
  }

  /** The chunk and the number `addLinkDef` returns once its stages are done. */
  function Finished(x: Regions, st: Stages): (Regions, nat) {
    var after := DropTrailingNewlines(st.after);
    var selection := if after == "" then DropTrailingNewlines(st.selection) else st.selection;
    (Regions(st.before, x.startTag, selection, x.endTag, after + "\n\n" + Render(st.defs)), st.refOut)
  }

  method AddLinkDef(chunk: Chunk, linkDef: Option<string>) returns (refOut: nat)
    modifies chunk
    ensures (chunk.Value(), refOut) == AddLinkDefSpec(old(chunk.Value()), linkDef)
    ensures chunk.scrollTop == old(chunk.scrollTop)
  {
    var defsToAdd := StripChunkDefs(chunk);
    var defs;
    refOut, defs := RenumberChunk(chunk, defsToAdd, linkDef);
    if chunk.after != "" {
      chunk.after := DropTrailingNewlines(chunk.after);
    }
    if chunk.after == "" {
      chunk.selection := DropTrailingNewlines(chunk.selection);
    }
    chunk.after := chunk.after + "\n\n" + Render(defs);
  }

  /** The three calls of `stripLinkDefs` that open `addLinkDef`, collecting the definitions they take out. */
  method StripChunkDefs(chunk: Chunk) returns (defsToAdd: map<string, string>)
    modifies chunk
    ensures var b := StripLinkDefs(old(chunk.before), map[]);
            var sel := StripLinkDefs(old(chunk.selection), b.1);
            var aft := StripLinkDefs(old(chunk.after), sel.1);
            chunk.Value() == old(chunk.Value()).(before := b.0, selection := sel.0, after := aft.0) &&
            defsToAdd == aft.1
    ensures chunk.scrollTop == old(chunk.scrollTop)
  {
    var b := StripLinkDefs(chunk.before, map[]);
    chunk.before := b.0;
    var sel := StripLinkDefs(chunk.selection, b.1);
    chunk.selection := sel.0;
    var aft := StripLinkDefs(chunk.after, sel.1);
    chunk.after := aft.0;
    defsToAdd := aft.1;
  }

  /** The `addDefNumber` passes of `addLinkDef`: the definitions to write and the number of the given one. */
  method RenumberChunk(chunk: Chunk, defsToAdd: map<string, string>, linkDef: Option<string>)
    returns (refOut: nat, defs: seq<string>)
    modifies chunk
    ensures var st := Renumbering(defsToAdd, old(chunk.before), old(chunk.selection), old(chunk.after), linkDef);
            chunk.Value() == old(chunk.Value()).(before := st.before, selection := st.selection, after := st.after) &&
            refOut == st.refOut && defs == st.defs
    ensures chunk.scrollTop == old(chunk.scrollTop)
  {
    defs := [];
    chunk.before, defs := Rewrite(chunk.before, defsToAdd, defs).0, Rewrite(chunk.before, defsToAdd, defs).1;
    if Given(linkDef) {
      defs := defs + [Renumbered(linkDef.value, |defs| + 1)];
    } else {
      chunk.selection, defs := Rewrite(chunk.selection, defsToAdd, defs).0, Rewrite(chunk.selection, defsToAdd, defs).1;
    }
    refOut := |defs|;
    chunk.after, defs := Rewrite(chunk.after, defsToAdd, defs).0, Rewrite(chunk.after, defsToAdd, defs).1;
  }

  // ---------------------------------------------------------------------
  // Properties of addLinkDef
  // ---------------------------------------------------------------------

  lemma {:induction false} NumberedFromAppend(a: seq<string>, b: seq<string>, n: nat)
    requires NumberedFrom(a, n) && NumberedFrom(b, n + |a|)
    ensures NumberedFrom(a + b, n)
    decreases |a|
  {
    if a == [] {
      assert a + b == b;
    } else {
      assert (a + b)[0] == a[0] && (a + b)[1..] == a[1..] + b;
      NumberedFromAppend(a[1..], b, n + 1);
    }
  }

  /** The definitions recorded by the three calls of `stripLinkDefs` each start with the label of their own id. */
  lemma StrippedTableLabelled(x: Regions)
    ensures Labelled(AddLinkDefStages(x, None).table)
  {
    var b := StripLinkDefs(x.before, map[]);
    var sel := StripLinkDefs(x.selection, b.1);
    StripLinkDefsLabelled(x.before, map[]);
    StripLinkDefsLabelled(x.selection, b.1);
    StripLinkDefsLabelled(x.after, sel.1);
  }

  /**
   * The definitions `addLinkDef` writes carry the numbers 1, 2, ... in the
   * order they are written, and the number it returns is that of the
   * definition it was given (the reference the caller writes points to it).
   */
  lemma AddLinkDefNumbering(x: Regions, linkDef: Option<string>)
    requires Given(linkDef) ==> LabelAt(linkDef.value, 0).Some?
    ensures var st := AddLinkDefStages(x, linkDef);
            NumberedFrom(st.defs, 0) && st.refOut <= |st.defs| &&
            (Given(linkDef) ==> 1 <= st.refOut && st.defs[st.refOut - 1] == Renumbered(linkDef.value, st.refOut))
  {
    var b := StripLinkDefs(x.before, map[]);
    var sel := StripLinkDefs(x.selection, b.1);
    var aft := StripLinkDefs(x.after, sel.1);
    StrippedTableLabelled(x);
    RenumberingNumbered(aft.1, b.0, sel.0, aft.0, linkDef);
  }

  lemma RenumberingNumbered(table: map<string, string>, before: string, selection: string, after: string,
                            linkDef: Option<string>)
    requires Labelled(table) && (Given(linkDef) ==> LabelAt(linkDef.value, 0).Some?)
    ensures var st := Renumbering(table, before, selection, after, linkDef);
            NumberedFrom(st.defs, 0) && st.refOut <= |st.defs| &&
            (Given(linkDef) ==> 1 <= st.refOut && st.defs[st.refOut - 1] == Renumbered(linkDef.value, st.refOut))
  {
    var rb := Rewrite(before, table, []);
    RewriteKeepsNumbered(before, table, []);
    var rs := if Given(linkDef) then (selection, rb.1 + [Renumbered(linkDef.value, |rb.1| + 1)])
              else Rewrite(selection, table, rb.1);
    if Given(linkDef) {
      GivenNumbered(rb.1, linkDef.value);
    } else {
      RewriteKeepsNumbered(selection, table, rb.1);
    }
    RewriteKeepsNumbered(after, table, rs.1);
  }

  /** One rewrite keeps the definitions densely numbered, and only appends to them. */
  lemma RewriteKeepsNumbered(s: string, table: map<string, string>, defs: seq<string>)
    requires Labelled(table) && NumberedFrom(defs, 0)
    ensures var r := Rewrite(s, table, defs).1; NumberedFrom(r, 0) && defs <= r
  {
    var find := References();
    RewriteNumbering(s, 0, table, defs, find);
    NumberedDense(ReferenceIds(s, 0, find), table, |defs|);
    NumberedFromAppend(defs, Numbered(ReferenceIds(s, 0, find), table, |defs|), 0);
  }

  /** The given definition, renumbered after the ones already there, keeps them densely numbered. */
  lemma GivenNumbered(defs: seq<string>, d: string)
    requires NumberedFrom(defs, 0) && LabelAt(d, 0).Some?
    ensures NumberedFrom(defs + [Renumbered(d, |defs| + 1)], 0)
  {
    RenumberedPrefix(d, |defs| + 1);
    assert NumberedFrom([Renumbered(d, |defs| + 1)], |defs|);
    NumberedFromAppend(defs, [Renumbered(d, |defs| + 1)], 0);
  }

  /**
   * Besides taking the definitions out, `addLinkDef` changes only reference
   * numbers in `before`, the selection and `after`; the selection is kept as
   * stripped when a definition is given.
   */
  lemma AddLinkDefOnlyRenumbers(x: Regions, linkDef: Option<string>)
    ensures var st := AddLinkDefStages(x, linkDef);
            var b := StripLinkDefs(x.before, map[]);
            var sel := StripLinkDefs(x.selection, b.1);
            var aft := StripLinkDefs(x.after, sel.1);
            Without(st.before, DecimalDigit) == Without(b.0, DecimalDigit) &&
            Without(st.selection, DecimalDigit) == Without(sel.0, DecimalDigit) &&
            Without(st.after, DecimalDigit) == Without(aft.0, DecimalDigit) &&
            (Given(linkDef) ==> st.selection == sel.0)
  {
    var st := AddLinkDefStages(x, linkDef);
    var find := References();
    var b := StripLinkDefs(x.before, map[]);
    var sel := StripLinkDefs(x.selection, b.1);
    var aft := StripLinkDefs(x.after, sel.1);
    var rb := Rewrite(b.0, st.table, []);
    RewriteOnlyRenumbers(b.0, 0, st.table, [], find);
    assert b.0[0..] == b.0;
    if !Given(linkDef) {
      RewriteOnlyRenumbers(sel.0, 0, st.table, rb.1, find);
      assert sel.0[0..] == sel.0;
    }
    var rs := if Given(linkDef) then (sel.0, rb.1 + [Renumbered(linkDef.value, |rb.1| + 1)])
              else Rewrite(sel.0, st.table, rb.1);
    RewriteOnlyRenumbers(aft.0, 0, st.table, rs.1, find);
    assert aft.0[0..] == aft.0;
  }

  /** `defs` rendered around its `k`-th definition. */
  lemma RenderAt(defs: seq<string>, k: nat)
    requires k < |defs|
    ensures Render(defs) == Render(defs[..k]) + "\n" + defs[k] + Render(defs[k + 1..])
  {
    var r := defs[k..];
    assert defs == defs[..k] + r;
    RenderAppend(defs[..k], r);
    assert r[0] == defs[k] && r[1..] == defs[k + 1..];
    RenderAssoc(Render(defs[..k]), defs[k], Render(defs[k + 1..]));
  }

  lemma RenderAssoc(a: string, d: string, b: string)
    ensures a + ("\n" + d + b) == a + "\n" + d + b
  {
  }

  /**
   * With a definition given, `after` ends in a blank line and the renumbered
   * definitions, one per line, and the line of the returned number holds the
   * given definition under the label `  [refOut]:`.
   */
  lemma AddLinkDefLayout(x: Regions, linkDef: Option<string>)
    requires Given(linkDef) && LabelAt(linkDef.value, 0).Some?
    ensures var st := AddLinkDefStages(x, linkDef);
            var (r, refOut) := Finished(x, st);
            1 <= refOut <= |st.defs| && NumberLabel(refOut) <= Renumbered(linkDef.value, refOut) &&
            r.after == DropTrailingNewlines(st.after) + "\n\n" + Render(st.defs[..refOut - 1]) +
                       "\n" + Renumbered(linkDef.value, refOut) + Render(st.defs[refOut..])
  {
    var st := AddLinkDefStages(x, linkDef);
    AddLinkDefNumbering(x, linkDef);
    RenumberedPrefix(linkDef.value, st.refOut);
    FinishedAround(x, st);
  }

  /** What `addLinkDef` leaves after `after`, around the definition of the returned number. */
  lemma FinishedAround(x: Regions, st: Stages)
    requires 1 <= st.refOut <= |st.defs|
    ensures Finished(x, st).0.after == DropTrailingNewlines(st.after) + "\n\n" + Render(st.defs[..st.refOut - 1]) +
                                       "\n" + st.defs[st.refOut - 1] + Render(st.defs[st.refOut..])
  {
    var a := DropTrailingNewlines(st.after);
    assert Finished(x, st).0.after == a + "\n\n" + Render(st.defs);
    RenderAt(st.defs, st.refOut - 1);
  }

  // ---------------------------------------------------------------------
  // getLinkDef
  // ---------------------------------------------------------------------

  /**
   * The id of the first `][id]` in `e` at or after `i` whose id is numeric:
   * `\]\[(\d+)\]`, or `\]\[([\d])\]` (exactly one digit) when `oneDigit`.
   */
  function NumericRef(e: string, i: nat, oneDigit: bool): (r: Option<string>)
    requires i <= |e|
    ensures r.Some? ==> r.value != "" && All(r.value, DecimalDigit) && (oneDigit ==> |r.value| == 1)
    decreases |e| - i
  {
    if i + 4 > |e| then None
    else
      var j := RunEnd(e, i + 2, DecimalDigit);
      if e[i] == ']' && e[i + 1] == '[' && j > i + 2 && j < |e| && e[j] == ']' && (!oneDigit || j == i + 3) then
        var id := e[i + 2..j];
        assert forall k | 0 <= k < |id| :: id[k] == e[i + 2 + k];
        Some(id)
      else NumericRef(e, i + 1, oneDigit)
  }

  /** The id of the first `][id]` in `e` at or after `i`: `\]\[([^\]]+)\]`. */
  function AnyRef(e: string, i: nat): (r: Option<string>)
    requires i <= |e|
    ensures r.Some? ==> r.value != "" && ']' !in r.value
    decreases |e| - i
  {
    if i + 4 > |e| then None
    else
      var j := CloseAt(e, i + 2);
      if e[i] == ']' && e[i + 1] == '[' && j > i + 2 && j < |e| then
        assert forall k | i + 2 <= k < j :: e[k] != ']' by {
          CloseAtFirst(e, i + 2);
        }
        Some(e[i + 2..j])
      else AnyRef(e, i + 1)
  }

  lemma {:induction false} CloseAtFirst(s: string, i: nat)
    requires i <= |s|
    ensures forall k | i <= k < CloseAt(s, i) :: s[k] != ']'
    ensures CloseAt(s, i) < |s| ==> s[CloseAt(s, i)] == ']'
    decreases |s| - i
  {
    if i < |s| && s[i] != ']' {
      CloseAtFirst(s, i + 1);
    }
  }

  /** Where the line holding `a[k]` ends: the first line terminator at or after `k`, or `|a|`. */
  function LineStop(a: string, k: nat): (j: nat)
    requires k <= |a|
    ensures k <= j <= |a|
    ensures forall m | k <= m < j :: !IsLineTerminator(a[m])
    ensures j < |a| ==> IsLineTerminator(a[j])
    decreases |a| - k
  {
    if k == |a| || IsLineTerminator(a[k]) then k else LineStop(a, k + 1)
  }

  /** The last `k` in `lo..hi` where `a[k]` is not a line terminator. */
  function LastOnLine(a: string, lo: nat, hi: nat): (r: Option<nat>)
    requires hi <= |a|
    ensures r.Some? ==> lo <= r.value < hi && !IsLineTerminator(a[r.value])
    decreases hi
  {
    if hi <= lo then None
    else if !IsLineTerminator(a[hi - 1]) then Some(hi - 1)
    else LastOnLine(a, lo, hi - 1)
  }

  /**
   * `\s+(.+)` from `j`: the white space is taken greedily and given back
   * only as far as `.` needs a character that is not a line terminator.
   * What `(.+)` captures.
   */
  function SpacedRest(a: string, j: nat): (r: Option<string>)
    requires j <= |a|
    ensures r.Some? ==> r.value != ""
  {
    var w := RunEnd(a, j, Space);
    if w == j then None
    else if w < |a| then Some(a[w..LineStop(a, w)])
    else
      match LastOnLine(a, j + 1, w)
      case Some(k) => Some(a[k..k + 1])
      case None => None
  }

  /** `\[id\]:\s+(.+)` searched in `a` from `i`: the capture of the first match. */
  function DefinitionUrl(a: string, id: string, i: nat): Option<string>
    requires i <= |a|
    decreases |a| - i
  {
    var c := i + |id| + 3;
    if c > |a| then None
    else if a[i] == '[' && a[i + 1..i + 1 + |id|] == id && a[c - 2] == ']' && a[c - 1] == ':' && SpacedRest(a, c).Some? then
      SpacedRest(a, c)
    else DefinitionUrl(a, id, i + 1)
  }

  /**
   * `getLinkDef` with the numeric pattern `\]\[(\d+)\]` (`oneDigit` off) or
   * `\]\[([\d])\]` (on): a numeric id's definition line in `after` gives
   * the URL; failing a numeric id, any other id is returned itself.
   */
  function LinkDefLookup(x: Regions, oneDigit: bool): string {
    match NumericRef(x.endTag, 0, oneDigit)
    case Some(id) => DefinitionUrl(x.after, id, 0).GetOr("")
    case None => AnyRef(x.endTag, 0).GetOr("")
  }

  /**
   * `getLinkDef(chunk)` as written: only a one-digit reference number is
   * looked up, so it agrees with the lookup of any length for references
   * numbered below 10.
   */
  function GetLinkDefAsWritten(x: Regions): (r: string)
    ensures forall n: nat | n < 10 && x.endTag == "][" + NatToString(n) + "]" :: r == GetLinkDef(x)
  {
    OneDigitAgrees(x);
    LinkDefLookup(x, true)
  }

  /** `getLinkDef(chunk)` looking up reference numbers of any length. */
  function GetLinkDef(x: Regions): string {
    LinkDefLookup(x, false)
  }

  /** The numeric id of `][num]` is `num`, for either pattern when `num` has one digit. */
  lemma NumericRefOf(num: string, oneDigit: bool)
    requires num != "" && All(num, DecimalDigit) && (oneDigit ==> |num| == 1)
    ensures NumericRef("][" + num + "]", 0, oneDigit) == Some(num)
  {
    var e := "][" + num + "]";
    assert e[2..2 + |num|] == num;
    RunEndDigits(e, 2, |num|);
  }

  /** The label `[id]:` is written at `a[k..]`. */
  predicate LabelStartsAt(a: string, id: string, k: nat) {
    k + |id| + 3 <= |a| && a[k..k + |id| + 3] == "[" + id + "]:"
  }

  /** The characters the definition search tests at `k` spell the label `[id]:`. */
  lemma LabelParts(a: string, id: string, k: nat)
    requires k + |id| + 3 <= |a|
    requires a[k] == '[' && a[k + 1..k + 1 + |id|] == id && a[k + |id| + 1] == ']' && a[k + |id| + 2] == ':'
    ensures LabelStartsAt(a, id, k)
  {
    var l := "[" + id + "]:";
    assert forall m | 0 <= m < |l| :: a[k..k + |id| + 3][m] == l[m] by {
      forall m | 0 <= m < |l|
        ensures a[k..k + |id| + 3][m] == l[m]
      {
        if 1 <= m <= |id| {
          assert a[k + m] == a[k + 1..k + 1 + |id|][m - 1];
        }
      }
    }
  }

  /** Positions where the label `[id]:` does not start are passed over by the definition search. */
  lemma {:induction false} DefinitionUrlSkip(a: string, id: string, i: nat, j: nat)
    requires i <= j <= |a| && forall k | i <= k < j :: !LabelStartsAt(a, id, k)
    ensures DefinitionUrl(a, id, i) == DefinitionUrl(a, id, j)
    decreases j - i
  {
    if i < j {
      var c := i + |id| + 3;
      if c <= |a| && a[i] == '[' && a[i + 1..i + 1 + |id|] == id && a[c - 2] == ']' && a[c - 1] == ':' {
        LabelParts(a, id, i);
      }
      DefinitionUrlSkip(a, id, i + 1, j);
    }
  }

  /** The definition line `[num]: url` at `p` gives back `url`. */
  lemma DefinitionUrlAt(a: string, num: string, p: nat, url: string)
    requires url != "" && !IsSpace(url[0]) && forall k | 0 <= k < |url| :: !IsLineTerminator(url[k])
    requires p + |num| + 4 + |url| <= |a| && a[p..p + |num| + 4 + |url|] == "[" + num + "]: " + url
    requires p + |num| + 4 + |url| == |a| || IsLineTerminator(a[p + |num| + 4 + |url|])
    ensures DefinitionUrl(a, num, p) == Some(url)
  {
    var c := p + |num| + 3;
    assert "[" + num + "]: " + url == "[" + num + "]:" + (" " + url);
    DefinitionHeader(a, p, num, " " + url);
    SpacedRestAt(a, c, url);
  }

  /** The pieces of `[num]:rest` written at `p`. */
  lemma DefinitionHeader(a: string, p: nat, num: string, rest: string)
    requires p + |num| + 3 + |rest| <= |a| && a[p..p + |num| + 3 + |rest|] == "[" + num + "]:" + rest
    ensures a[p] == '[' && a[p + 1..p + 1 + |num|] == num && a[p + |num| + 1] == ']' && a[p + |num| + 2] == ':'
    ensures a[p + |num| + 3..p + |num| + 3 + |rest|] == rest
  {
    var n := |num| + 3 + |rest|;
    var d := a[p..p + n];
    assert d[0] == '[' && d[|num| + 1] == ']' && d[|num| + 2] == ':';
    SliceOfSlice(a, p, p + n, 1, 1 + |num|);
    assert d[1..1 + |num|] == num;
    SliceOfSlice(a, p, p + n, |num| + 3, n);
    assert d[|num| + 3..n] == rest;
  }

  /** `\s+(.+)` over one space and then `url` to the end of its line captures `url`. */
  lemma SpacedRestAt(a: string, c: nat, url: string)
    requires url != "" && !IsSpace(url[0]) && forall k | 0 <= k < |url| :: !IsLineTerminator(url[k])
    requires c + 1 + |url| <= |a| && a[c..c + 1 + |url|] == " " + url
    requires c + 1 + |url| == |a| || IsLineTerminator(a[c + 1 + |url|])
    ensures SpacedRest(a, c) == Some(url)
  {
    var d := a[c..c + 1 + |url|];
    assert a[c] == d[0] && a[c + 1] == d[1] == url[0];
    assert RunEnd(a, c, Space) == c + 1;
    assert forall k | c + 1 <= k < c + 1 + |url| :: a[k] == d[k - c] == url[k - c - 1];
    LineStopAt(a, c + 1, c + 1 + |url|);
    assert a[c + 1..c + 1 + |url|] == url;
  }

  lemma {:induction false} LineStopAt(a: string, k: nat, j: nat)
    requires k <= j <= |a| && (forall m | k <= m < j :: !IsLineTerminator(a[m])) && (j == |a| || IsLineTerminator(a[j]))
    ensures LineStop(a, k) == j
    decreases j - k
  {
    if k < j {
      LineStopAt(a, k + 1, j);
    }
  }

  /**
   * `getLinkDef` reads back what `addLinkDef` writes: for the reference
   * `][n]`, the definition line `  [n]: url` in `after` gives `url`, when the
   * label `[n]:` does not occur before that line (the search takes its
   * first occurrence).
   */
  lemma GetLinkDefReadsBack(x: Regions, n: nat, pre: string, url: string, rest: string)
    requires url != "" && !IsSpace(url[0]) && forall k | 0 <= k < |url| :: !IsLineTerminator(url[k])
    requires rest == "" || IsLineTerminator(rest[0])
    requires !Contains(pre, "[" + NatToString(n) + "]:")
    requires x.endTag == "][" + NatToString(n) + "]" && x.after == pre + NumberLabel(n) + " " + url + rest
    ensures GetLinkDef(x) == url
  {
    var num := NatToString(n);
    NumericRefOf(num, false);
    DefinitionLineLayout(x.after, pre, num, url, rest);
    LabelOnlyInLine(x.after, pre, num, url, rest);
    var p := |pre| + 2;
    DefinitionUrlSkip(x.after, num, 0, p);
    DefinitionUrlAt(x.after, num, p, url);
  }

  /** Where the pieces of a definition line written after `pre` sit in `after`. */
  lemma DefinitionLineLayout(a: string, pre: string, num: string, url: string, rest: string)
    requires rest == "" || IsLineTerminator(rest[0])
    requires a == pre + ("  [" + num + "]:") + " " + url + rest
    ensures var p := |pre| + 2;
            p + |num| + 4 + |url| <= |a| && a[p..p + |num| + 4 + |url|] == "[" + num + "]: " + url &&
            (p + |num| + 4 + |url| == |a| || IsLineTerminator(a[p + |num| + 4 + |url|]))
  {
    var p := |pre| + 2;
    assert a == (pre + "  ") + ("[" + num + "]: " + url) + rest;
    if rest != "" {
      assert a[p + |num| + 4 + |url|] == rest[0];
    }
  }

  /**
   * A label `[num]:` that starts before the definition line written after
   * `pre` lies inside `pre`: it cannot run into the two spaces or the line's
   * own `[`.
   */
  lemma LabelOnlyInLine(a: string, pre: string, num: string, url: string, rest: string)
    requires All(num, DecimalDigit) && !Contains(pre, "[" + num + "]:")
    requires a == pre + ("  [" + num + "]:") + " " + url + rest
    ensures forall k | 0 <= k < |pre| + 2 :: !LabelStartsAt(a, num, k)
  {
    var l := "[" + num + "]:";
    var L := |num| + 3;
    var p := |pre| + 2;
    assert a[..p] == pre + "  " && a[p] == '[';
    forall k | 0 <= k < p
      ensures !LabelStartsAt(a, num, k)
    {
      if k + L > |a| {
      } else if k + L <= |pre| {
        assert a[k..k + L] == pre[k..][..L];
        assert !(l <= pre[k..]);
      } else if k + L - 1 < p {
        assert a[k..k + L][L - 1] == a[..p][k + L - 1] == ' ';
      } else {
        assert a[k..k + L][p - k] == '[';
        if p - k <= |num| {
          assert l[p - k] == num[p - k - 1];
          assert IsDigit(num[p - k - 1]);
        }
      }
    }
  }

  /**
   * As written, `getLinkDef` does not read back a reference numbered 10 or
   * more: the one-digit pattern misses `][12]` and the id itself is returned.
   */
  lemma GetLinkDefAsWrittenMissesTwoDigits()
    ensures var x := Regions("", "[", "a", "][12]", "\n\n  [12]: u");
            GetLinkDefAsWritten(x) == "12" && GetLinkDef(x) == "u"
  {
    var x := Regions("", "[", "a", "][12]", "\n\n  [12]: u");
    AsWrittenTwoDigitId(x);
    TwelveNumeral();
    assert x.after == "\n\n" + NumberLabel(12) + " " + "u" + "";
    GetLinkDefReadsBack(x, 12, "\n\n", "u", "");
  }

  lemma AsWrittenTwoDigitId(x: Regions)
    requires x.endTag == "][12]"
    ensures GetLinkDefAsWritten(x) == "12"
  {
    var e := x.endTag;
    assert NumericRef(e, 1, true) == None;
    assert NumericRef(e, 0, true) == None;
    assert CloseAt(e, 4) == 4;
    assert CloseAt(e, 3) == 4;
    assert e[2..4] == "12";
  }

  lemma TwelveNumeral()
    ensures NatToString(12) == "12"
  {
  }

  /** For reference numbers below 10 the one-digit pattern agrees with the corrected one. */
  lemma OneDigitAgrees(x: Regions)
    ensures forall n: nat | n < 10 && x.endTag == "][" + NatToString(n) + "]" :: LinkDefLookup(x, true) == LinkDefLookup(x, false)
  {
    forall n: nat | n < 10 && x.endTag == "][" + NatToString(n) + "]"
      ensures LinkDefLookup(x, true) == LinkDefLookup(x, false)
    {
      NumericRefOf(NatToString(n), true);
      NumericRefOf(NatToString(n), false);
    }
  }
}
