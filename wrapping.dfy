/**
 * Joining and re-breaking the lines of a selection: `unwrap` and `wrap` of
 * the command manager in Markdown.Editor.js, used by the quote command.
 * Both are global regular-expression replacements; each is written here as
 * the left-to-right scan the replacement performs.
 */
module Wrapping {
  import opened Strings

  // ---------------------------------------------------------------------
  // The alternatives of `prefixes`: text that starts a Markdown block
  // ---------------------------------------------------------------------

  /** `\s{4,}`: an indented code line. */
  predicate IndentAt(t: string) {
    LeadingRun(t, Space) >= 4
  }

  /** `\s*>`: a quote marker. */
  predicate QuoteMarkerAt(t: string) {
    var w := LeadingRun(t, Space);
    w < |t| && t[w] == '>'
  }

  /** `\s*-\s+`: a bullet. */
  predicate BulletAt(t: string) {
    var w := LeadingRun(t, Space);
    w + 1 < |t| && t[w] == '-' && IsSpace(t[w + 1])
  }

  /** `\s*\d+\.`: a list number. */
  predicate NumberAt(t: string) {
    var w := LeadingRun(t, Space);
    var d := LeadingRun(t[w..], DecimalDigit);
    d > 0 && w + d < |t| && t[w + d] == '.'
  }

  /** `=`, `+`, `-`, `_`, `*` or `#`: a rule, a header underline or a list marker. */
  predicate MarkerCharAt(t: string) {
    t != [] && t[0] in "=+-_*#"
  }

  /**
   * The last alternative as written, `\s*\[[^\n]]+\]:`: a `[`, exactly one
   * character other than a newline, at least two `]` and a `:`.
   */
  predicate LinkDefinitionAsWrittenAt(t: string) {
    var w := LeadingRun(t, Space);
    w + 2 <= |t| && t[w] == '[' && t[w + 1] != '\n' &&
    var r := LeadingRun(t[w + 2..], Only(']'));
    r >= 2 && w + 2 + r < |t| && t[w + 2 + r] == ':'
  }

  /**
   * The last alternative as evidently intended, `\s*\[[^\n]+\]:`: the start
   * of a reference-link definition `[id]:`.
   */
  predicate LinkDefinitionAt(t: string) {
    var w := LeadingRun(t, Space);
    w < |t| && t[w] == '[' &&
    exists j :: w + 2 <= j < |t| - 1 && t[j] == ']' && t[j + 1] == ':' && '\n' !in t[w + 1..j]
  }

  /** `^prefixes` matches `t`; `asWritten` chooses the link-definition alternative as written. */
  predicate StartsBlock(t: string, asWritten: bool) {
    IndentAt(t) || QuoteMarkerAt(t) || BulletAt(t) || NumberAt(t) || MarkerCharAt(t) ||
    (if asWritten then LinkDefinitionAsWrittenAt(t) else LinkDefinitionAt(t))
  }

  /** `^prefixes` with the link-definition alternative as evidently intended. */
  predicate IsBlockStart(t: string) {
    StartsBlock(t, false)
  }

  /** The block test with `prefixes` exactly as written. */
  predicate IsBlockStartAsWritten(t: string) {
    StartsBlock(t, true)
  }

  // ---------------------------------------------------------------------
  // unwrap: `([^\n])\n(?!(\n|prefixes))` replaced by `"$1 $2"`
  // ---------------------------------------------------------------------

  /** The lookahead fails on `t`: a blank line or a block follows the line break. */
  predicate KeepsBreak(t: string, blockStart: string -> bool) {
    (t != [] && t[0] == '\n') || blockStart(t)
  }

  /** The pattern matches at `s[j..]` (the group `$2` inside the negative lookahead is always empty). */
  predicate JoinsAt(s: string, j: nat, blockStart: string -> bool) {
    j + 1 < |s| && s[j] != '\n' && s[j + 1] == '\n' && !KeepsBreak(s[j + 2..], blockStart)
  }

  /** The global replacement on `s[p..]`: a match becomes its first character and a space. */
  function UnwrapFrom(s: string, p: nat, blockStart: string -> bool): string
    requires p <= |s|
    decreases |s| - p
  {
    if p == |s| then []
    else if JoinsAt(s, p, blockStart) then [s[p], ' '] + UnwrapFrom(s, p + 2, blockStart)
    else [s[p]] + UnwrapFrom(s, p + 1, blockStart)
  }

  /**
   * `unwrap` with the link-definition alternative as intended. It only turns
   * line breaks into spaces, so no other character is lost or changed.
   */
  function Unwrap(s: string): (r: string)
    ensures |r| == |s|
    ensures forall i :: 0 <= i < |s| ==> r[i] == s[i] || (s[i] == '\n' && r[i] == ' ')
    ensures Without(r, Space) == Without(s, Space)
  {
    UnwrapPointwise(s, IsBlockStart);
    WithoutPointwise(UnwrapFrom(s, 0, IsBlockStart), s, Space);
    UnwrapFrom(s, 0, IsBlockStart)
  }

  /**
   * `unwrap` with `prefixes` exactly as written: the one the quote command
   * runs. It too only turns line breaks into spaces.
   */
  function UnwrapAsWritten(s: string): (r: string)
    ensures |r| == |s|
    ensures forall i :: 0 <= i < |s| ==> r[i] == s[i] || (s[i] == '\n' && r[i] == ' ')
    ensures Without(r, Space) == Without(s, Space)
  {
    UnwrapPointwise(s, IsBlockStartAsWritten);
    WithoutPointwise(UnwrapFrom(s, 0, IsBlockStartAsWritten), s, Space);
    UnwrapFrom(s, 0, IsBlockStartAsWritten)
  }

  /**
   * Reference: the character `unwrap` leaves at `i`, judged from its
   * neighbours alone. A line break that ends a non-empty line becomes a space
   * unless a blank line or a block follows it.
   */
  function UnwrappedChar(s: string, i: nat, blockStart: string -> bool): char
    requires i < |s|
  {
    if s[i] == '\n' && i > 0 && s[i - 1] != '\n' && !KeepsBreak(s[i + 1..], blockStart) then ' ' else s[i]
  }

  lemma {:induction false} UnwrapFromChars(s: string, p: nat, blockStart: string -> bool)
    requires p <= |s|
    requires p == 0 || !JoinsAt(s, p - 1, blockStart)
    ensures |UnwrapFrom(s, p, blockStart)| == |s| - p
    ensures forall k :: 0 <= k < |s| - p ==> UnwrapFrom(s, p, blockStart)[k] == UnwrappedChar(s, p + k, blockStart)
    decreases |s| - p
  {
    if p < |s| {
      var r := UnwrapFrom(s, p, blockStart);
      if JoinsAt(s, p, blockStart) {
        UnwrapFromChars(s, p + 2, blockStart);
        var rest := UnwrapFrom(s, p + 2, blockStart);
        assert r == [s[p], ' '] + rest;
        forall k | 0 <= k < |s| - p
          ensures r[k] == UnwrappedChar(s, p + k, blockStart)
        {
          if k >= 2 {
            assert r[k] == rest[k - 2];
          }
        }
      } else {
        UnwrapFromChars(s, p + 1, blockStart);
        var rest := UnwrapFrom(s, p + 1, blockStart);
        assert r == [s[p]] + rest;
        forall k | 0 <= k < |s| - p
          ensures r[k] == UnwrappedChar(s, p + k, blockStart)
        {
          if k >= 1 {
            assert r[k] == rest[k - 1];
          }
        }
      }
    }
  }

  /**
   * `unwrap` keeps the length and rewrites each character independently,
   * exactly as the reference says.
   */
  lemma UnwrapPointwise(s: string, blockStart: string -> bool)
    ensures |UnwrapFrom(s, 0, blockStart)| == |s|
    ensures forall i :: 0 <= i < |s| ==> UnwrapFrom(s, 0, blockStart)[i] == UnwrappedChar(s, i, blockStart)
  {
    UnwrapFromChars(s, 0, blockStart);
  }

  /** A line break before a reference-link definition is kept. */
  lemma UnwrapKeepsDefinitionLines(s: string, i: nat)
    requires i + 1 < |s| && s[i] == '\n' && LinkDefinitionAt(s[i + 1..])
    ensures |Unwrap(s)| == |s|
    ensures Unwrap(s)[i] == '\n'
  {
    UnwrapPointwise(s, IsBlockStart);
  }

  /**
   * As written, the last alternative of `prefixes` does not recognise a
   * definition such as `[1]:`, so the line break before it is joined away.
   */
  lemma UnwrapAsWrittenJoinsDefinition()
    ensures UnwrapAsWritten("a\n[1]:") == "a [1]:"
    ensures Unwrap("a\n[1]:") == "a\n[1]:"
  {
    DefinitionJoinedAsWritten();
    DefinitionKept();
  }

  /** The as-written unwrapping joins the line break before `[1]:`. */
  lemma DefinitionJoinedAsWritten()
    ensures UnwrapAsWritten("a\n[1]:") == "a [1]:"
  {
    var s := "a\n[1]:";
    assert s[2..] == "[1]:";
    DefinitionNotBlockAsWritten();
    UnwrapPointwise(s, IsBlockStartAsWritten);
    JoinedAt(s, UnwrapAsWritten(s));
  }

  /** The corrected unwrapping keeps the line break before `[1]:`. */
  lemma DefinitionKept()
    ensures Unwrap("a\n[1]:") == "a\n[1]:"
  {
    var s := "a\n[1]:";
    assert s[2..] == "[1]:";
    DefinitionBlock();
    UnwrapPointwise(s, IsBlockStart);
    assert Unwrap(s)[1] == '\n';
  }

  /** The as-written `prefixes` does not recognise the definition `[1]:`. */
  lemma DefinitionNotBlockAsWritten()
    ensures !IsBlockStartAsWritten("[1]:")
  {
    var t := "[1]:";
    assert LeadingRun(t, Space) == 0;
    assert t[0..] == t;
    assert LeadingRun(t, DecimalDigit) == 0;
    assert t[2..] == "]:";
    assert LeadingRun("]:", Only(']')) == 1;
  }

  /** The corrected `prefixes` recognises the definition `[1]:`. */
  lemma DefinitionBlock()
    ensures IsBlockStart("[1]:")
  {
    var t := "[1]:";
    assert LeadingRun(t, Space) == 0;
    assert t[2] == ']' && t[3] == ':' && '\n' !in t[1..2];
    assert LinkDefinitionAt(t);
  }

  /** An unwrapping of `a\n[1]:` that joins the line break gives `a [1]:`. */
  lemma JoinedAt(s: string, a: string)
    requires s == "a\n[1]:" && |a| == |s| && a[1] == ' '
    requires forall i :: 0 <= i < |s| ==> a[i] == s[i] || (s[i] == '\n' && a[i] == ' ')
    ensures a == "a [1]:"
  {
  }

  // ---------------------------------------------------------------------
  // wrap: `(.{1,len})( +|$\n?)` under the flags `gm`
  // ---------------------------------------------------------------------

  /** `.{1,len}` of `k` characters at the start of `t`, followed by a space, a line break or the end. */
  predicate BreaksAt(t: string, k: nat) {
    1 <= k <= |t| && All(t[..k], Dot) && (k == |t| || t[k] == ' ' || IsLineTerminator(t[k]))
  }

  /** The last space at `t[j]` with `1 <= j <= k`, or 0 when there is none. */
  function LastSpaceWithin(t: string, k: nat): (j: nat)
    requires k < |t|
    ensures j <= k && (j > 0 ==> t[j] == ' ')
    ensures forall m :: j < m <= k ==> t[m] != ' '
  {
    if k == 0 then 0 else if t[k] == ' ' then k else LastSpaceWithin(t, k - 1)
  }

  /**
   * The length of the `(.{1,len})` group of a match at the start of `t`, or 0
   * when the pattern does not match there: the rest of the line when it fits
   * in `len`, otherwise the longest head that stops before a space.
   */
  function BreakLength(t: string, len: nat): (k: nat)
    ensures k <= len && k <= |t|
  {
    var r := LeadingRun(t, Dot);
    if r <= len then r else LastSpaceWithin(t, len)
  }

  /** Greedy matching: `BreakLength` is the longest head that can end a match. */
  lemma BreakLengthGreedy(t: string, len: nat)
    ensures var k := BreakLength(t, len);
            (k > 0 ==> BreaksAt(t, k)) && forall k' :: k < k' <= len ==> !BreaksAt(t, k')
  {
    var r := LeadingRun(t, Dot);
    var k := BreakLength(t, len);
    if k > 0 {
      assert All(t[..k], Dot) by {
        forall i | 0 <= i < k ensures In(t[..k][i], Dot) {
          assert t[..k][i] == t[i];
        }
      }
    }
    forall k' | k < k' <= len
      ensures !BreaksAt(t, k')
    {
      if k' <= |t| {
        if r <= len {
          assert t[..k'][r] == t[r];
          assert !In(t[..k'][r], Dot);
        } else {
          assert In(t[k'], Dot) && t[k'] != ' ';
        }
      }
    }
  }

  /** The length of the `( +|$\n?)` group at the start of `t`. */
  function TailLength(t: string): (n: nat)
    ensures n <= |t| && All(t[..n], Space)
  {
    if t != [] && t[0] == ' ' then
      var n := LeadingRun(t, Only(' '));
      assert forall i :: 0 <= i < n ==> t[..n][i] == t[i];
      n
    else if t != [] && t[0] == '\n' then 1
    else 0
  }

  /** What one step of the replacement writes, and where the next step starts. */
  datatype Step = Step(piece: string, next: nat)

  /**
   * One step of the global replacement at `s[p..]`: a matched line that
   * starts a block is kept, any other becomes its `(.{1,len})` group and a
   * line break; where the pattern does not match, one character is copied.
   */
  function WrapStep(s: string, p: nat, len: nat, blockStart: string -> bool): (r: Step)
    requires p < |s|
    ensures p < r.next <= |s|
  {
    var k := BreakLength(s[p..], len);
    if k == 0 then Step([s[p]], p + 1)
    else
      var e := p + k + TailLength(s[p + k..]);
      Step(if blockStart(s[p..e]) then s[p..e] else s[p..p + k] + "\n", e)
  }

  /** The global replacement on `s[p..]`, step after step. */
  function WrapFrom(s: string, p: nat, len: nat, blockStart: string -> bool): string
    requires p <= |s|
    decreases |s| - p
  {
    if p == |s| then []
    else
      var r := WrapStep(s, p, len, blockStart);
      r.piece + WrapFrom(s, r.next, len, blockStart)
  }

  /**
   * `wrap(chunk, len)` on the selection: unwrap, break the lines, drop
   * trailing white space, with `prefixes` as written. Wrapping changes
   * nothing but white space, and the result does not end with white space.
   */
  function Wrap(s: string, len: nat): (r: string)
    ensures Without(r, Space) == Without(s, Space)
    ensures r == [] || !IsSpace(r[|r| - 1])
  {
    var u := UnwrapAsWritten(s);
    var w := WrapFrom(u, 0, len, IsBlockStartAsWritten);
    WrapFromWithout(u, 0, len, IsBlockStartAsWritten);
    assert u[0..] == u;
    TailWithout(w, TrailingRun(w, Space), Space);
    w[..|w| - TrailingRun(w, Space)]
  }

  /** A replaced line and its replacement differ only in white space. */
  lemma PieceWithout(line: string, k: nat)
    requires k <= |line| && All(line[k..], Space)
    ensures Without(line[..k] + "\n", Space) == Without(line, Space)
  {
    assert line == line[..k] + line[k..];
    WithoutAppend(line[..k], line[k..], Space);
    WithoutAll(line[k..], Space);
    WithoutAppend(line[..k], "\n", Space);
    WithoutAll("\n", Space);
  }

  /** One step of the replacement: the piece written differs from the text it replaces only in white space. */
  lemma StepWithout(s: string, p: nat, len: nat, blockStart: string -> bool)
    requires p < |s|
    ensures var r := WrapStep(s, p, len, blockStart);
            Without(r.piece, Space) == Without(s[p..r.next], Space)
  {
    var k := BreakLength(s[p..], len);
    var r := WrapStep(s, p, len, blockStart);
    if k == 0 {
      assert r == Step([s[p]], p + 1);
      assert s[p..p + 1] == [s[p]];
    } else {
      var n := TailLength(s[p + k..]);
      assert r.next == p + k + n;
      if !blockStart(s[p..p + k + n]) {
        assert r.piece == s[p..p + k] + "\n";
        BrokenLineWithout(s, p, k, n);
      }
    }
  }

  lemma BrokenLineWithout(s: string, p: nat, k: nat, n: nat)
    requires p + k + n <= |s| && All(s[p + k..][..n], Space)
    ensures Without(s[p..p + k] + "\n", Space) == Without(s[p..p + k + n], Space)
  {
    var line := s[p..p + k + n];
    assert line[..k] == s[p..p + k];
    assert line[k..] == s[p + k..][..n];
    PieceWithout(line, k);
  }

  lemma {:induction false} WrapFromWithout(s: string, p: nat, len: nat, blockStart: string -> bool)
    requires p <= |s|
    ensures Without(WrapFrom(s, p, len, blockStart), Space) == Without(s[p..], Space)
    decreases |s| - p
  {
    if p < |s| {
      WrapFromWithout(s, WrapStep(s, p, len, blockStart).next, len, blockStart);
      WrapFromStepWithout(s, p, len, blockStart);
    }
  }

  lemma WrapFromStepWithout(s: string, p: nat, len: nat, blockStart: string -> bool)
    requires p < |s|
    requires var r := WrapStep(s, p, len, blockStart);
             Without(WrapFrom(s, r.next, len, blockStart), Space) == Without(s[r.next..], Space)
    ensures Without(WrapFrom(s, p, len, blockStart), Space) == Without(s[p..], Space)
  {
    var r := WrapStep(s, p, len, blockStart);
    StepWithout(s, p, len, blockStart);
    WrapFromAt(s, p, len, blockStart);
    JoinWithout(r.piece, WrapFrom(s, r.next, len, blockStart), s, p, r.next);
  }

  lemma WrapFromAt(s: string, p: nat, len: nat, blockStart: string -> bool)
    requires p < |s|
    ensures var r := WrapStep(s, p, len, blockStart);
            WrapFrom(s, p, len, blockStart) == r.piece + WrapFrom(s, r.next, len, blockStart)
  {
  }

  /** A piece alike the text up to `q` without white space, then the rest alike the text from `q`. */
  lemma JoinWithout(piece: string, rest: string, s: string, p: nat, q: nat)
    requires p <= q <= |s|
    requires Without(piece, Space) == Without(s[p..q], Space) && Without(rest, Space) == Without(s[q..], Space)
    ensures Without(piece + rest, Space) == Without(s[p..], Space)
  {
    assert s[p..] == s[p..q] + s[q..];
    WithoutConcat(piece, rest, s[p..q], s[q..], Space);
  }
}
