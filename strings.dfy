/**
 * Character classes and string helpers shared by the editor's text engine.
 * The character classes follow the JavaScript regular-expression classes the
 * editor's patterns use (`\s`, `\d`, `\w`, `.`).
 */
module Strings {

  /** The JavaScript class `\s`: white space and line terminators. */
  predicate IsSpace(c: char) {
    c == ' ' || c == '\t' || c == '\n' || c == '\r' || c == '\U{000B}' || c == '\U{000C}'
    || c == '\U{00A0}' || c == '\U{1680}' || ('\U{2000}' <= c <= '\U{200A}')
    || c == '\U{2028}' || c == '\U{2029}' || c == '\U{202F}' || c == '\U{205F}'
    || c == '\U{3000}' || c == '\U{FEFF}'
  }

  /** The characters the JavaScript `.` does not match. */
  predicate IsLineTerminator(c: char) {
    c == '\n' || c == '\r' || c == '\U{2028}' || c == '\U{2029}'
  }

  /** The class `[ \t]`. */
  predicate IsBlank(c: char) { c == ' ' || c == '\t' }

  predicate IsDigit(c: char) { '0' <= c <= '9' }

  predicate IsHexDigit(c: char) { IsDigit(c) || 'a' <= c <= 'f' || 'A' <= c <= 'F' }

  /** The class `\w`. */
  predicate IsWordChar(c: char) { IsDigit(c) || 'a' <= c <= 'z' || 'A' <= c <= 'Z' || c == '_' }

  /** The character classes whose runs the editor's patterns strip or count. */
  datatype Class = Newline | Space | NonSpace | Blank | DecimalDigit | Dot | SpaceOrQuote | Only(c: char)

  predicate In(c: char, k: Class) {
    match k
    case Newline => c == '\n'
    case Space => IsSpace(c)
    case NonSpace => !IsSpace(c)
    case Blank => IsBlank(c)
    case DecimalDigit => IsDigit(c)
    case Dot => !IsLineTerminator(c)
    case SpaceOrQuote => IsSpace(c) || c == '>'
    case Only(x) => c == x
  }

  function Min(a: nat, b: nat): nat {
    if a <= b then a else b
  }

  /** Every character of `s` is in class `p`. */
  predicate All(s: string, p: Class) {
    forall i :: 0 <= i < |s| ==> In(s[i], p)
  }

  /** `t` is a suffix of `s`. */
  predicate EndsWith(s: string, t: string) {
    |t| <= |s| && s[|s| - |t|..] == t
  }

  /** `t` occurs somewhere inside `s`. */
  predicate Contains(s: string, t: string) {
    exists i | 0 <= i <= |s| :: t <= s[i..]
  }

  /** Length of the longest prefix of `s` whose characters satisfy `p`. */
  function LeadingRun(s: string, p: Class): (n: nat)
    ensures n <= |s|
    ensures forall i :: 0 <= i < n ==> In(s[i], p)
    ensures n < |s| ==> !In(s[n], p)
  {
    if s == [] || !In(s[0], p) then 0 else 1 + LeadingRun(s[1..], p)
  }

  /** Length of the longest suffix of `s` whose characters satisfy `p`. */
  function TrailingRun(s: string, p: Class): (n: nat)
    ensures n <= |s|
    ensures forall i :: |s| - n <= i < |s| ==> In(s[i], p)
    ensures n < |s| ==> !In(s[|s| - n - 1], p)
  {
    if s == [] || !In(s[|s| - 1], p) then 0 else 1 + TrailingRun(s[..|s| - 1], p)
  }

  lemma {:induction false} TrailingRunAppend(a: string, b: string, p: Class)
    requires All(b, p)
    ensures TrailingRun(a + b, p) == TrailingRun(a, p) + |b|
  {
    if b != [] {
      assert (a + b)[..|a + b| - 1] == a + b[..|b| - 1];
      TrailingRunAppend(a, b[..|b| - 1], p);
    } else {
      assert a + b == a;
    }
  }

  lemma {:induction false} LeadingRunPrepend(a: string, b: string, p: Class)
    requires All(a, p)
    ensures LeadingRun(a + b, p) == |a| + LeadingRun(b, p)
  {
    if a != [] {
      assert (a + b)[1..] == a[1..] + b;
      LeadingRunPrepend(a[1..], b, p);
    } else {
      assert a + b == b;
    }
  }

  /** Where the run of class `p` that starts at `i` ends. */
  function RunEnd(s: string, i: nat, p: Class): (j: nat)
    requires i <= |s|
    ensures i <= j <= |s|
    ensures forall k | i <= k < j :: In(s[k], p)
    ensures j < |s| ==> !In(s[j], p)
    decreases |s| - i
  {
    if i < |s| && In(s[i], p) then RunEnd(s, i + 1, p) else i
  }

  /** A run is pinned by where its characters stop being of class `p`. */
  lemma {:induction false} RunEndAt(s: string, i: nat, n: nat, p: Class)
    requires i <= n <= |s| && (forall k | i <= k < n :: In(s[k], p)) && (n == |s| || !In(s[n], p))
    ensures RunEnd(s, i, p) == n
    decreases n - i
  {
    if i < n {
      RunEndAt(s, i + 1, n, p);
    }
  }

  /** Every character of `s` is a newline. */
  predicate AllNewlines(s: string) {
    All(s, Newline)
  }

  /** `k` newlines. */
  function Newlines(k: nat): (r: string)
    ensures |r| == k && AllNewlines(r)
  {
    if k == 0 then [] else "\n" + Newlines(k - 1)
  }

  lemma NewlinesSnoc(k: nat)
    ensures Newlines(k) + "\n" == Newlines(k + 1)
  {
    var a, b := Newlines(k) + "\n", Newlines(k + 1);
    forall i | 0 <= i < k + 1 ensures a[i] == b[i] {
      assert In(a[i], Newline) && In(b[i], Newline);
    }
  }

  lemma TrailingNewlinesAppend(a: string, k: nat)
    ensures TrailingRun(a + Newlines(k), Newline) == TrailingRun(a, Newline) + k
  {
    TrailingRunAppend(a, Newlines(k), Newline);
  }

  lemma LeadingNewlinesPrepend(k: nat, b: string)
    ensures LeadingRun(Newlines(k) + b, Newline) == k + LeadingRun(b, Newline)
  {
    LeadingRunPrepend(Newlines(k), b, Newline);
  }

  /**
   * The effect of `s.replace(/\n?\n?…\n?$/, "\n…\n")` with `k` optional
   * newlines (and of `/\n{0,k}$/`): at most `k` trailing newlines are removed
   * and exactly `k` are appended, so `s` ends with at least `k` newlines and
   * nothing but newlines is changed.
   */
  function PadEnd(s: string, k: nat): (r: string)
    ensures TrailingRun(r, Newline) == if TrailingRun(s, Newline) < k then k else TrailingRun(s, Newline)
  {
    var n := TrailingRun(s, Newline);
    var m := if n < k then n else k;
    PadEndParts(s, m);
    TrailingNewlinesAppend(s[..|s| - m], k);
    assert (s[..|s| - m] + Newlines(k))[..|s| - m] == s[..|s| - m];
    s[..|s| - m] + Newlines(k)
  }

  lemma PadEndParts(s: string, m: nat)
    requires m <= TrailingRun(s, Newline)
    ensures TrailingRun(s[..|s| - m], Newline) == TrailingRun(s, Newline) - m
    ensures AllNewlines(s[|s| - m..])
  {
    var n := TrailingRun(s, Newline);
    TrailingRunSplit(s, n, m);
  }

  lemma {:induction false} TrailingRunSplit(s: string, n: nat, m: nat)
    requires n == TrailingRun(s, Newline) && m <= n
    ensures TrailingRun(s[..|s| - m], Newline) == n - m
    decreases m
  {
    if m == 0 {
      assert s[..|s|] == s;
    } else {
      var s' := s[..|s| - 1];
      assert s'[..|s'| - (m - 1)] == s[..|s| - m];
      TrailingRunSplit(s', n - 1, m - 1);
    }
  }

  lemma AllSlice(t: string, a: nat, b: nat, p: Class)
    requires All(t, p) && a <= b <= |t|
    ensures All(t[a..b], p)
  {
    forall i | 0 <= i < b - a ensures In(t[a..b][i], p) {
      assert t[a..b][i] == t[a + i];
    }
  }

  /** The effect of `s.replace(/\n*$/, "\n…\n")`: the trailing newlines become exactly `k`. */
  function SetTrailingNewlines(s: string, k: nat): (r: string)
    ensures TrailingRun(r, Newline) == k
  {
    var kept := s[..|s| - TrailingRun(s, Newline)];
    TrailingNewlinesAppend(kept, k);
    assert (kept + Newlines(k))[..|kept|] == kept;
    kept + Newlines(k)
  }

  /**
   * The effect of `s.replace(/\n?…\n?/, "\n…\n")` with `k` optional newlines (and
   * of `/^\n{0,k}/`): at most `k` leading newlines are removed and exactly `k` prepended.
   */
  function PadStart(s: string, k: nat): (r: string)
    ensures LeadingRun(r, Newline) == if LeadingRun(s, Newline) < k then k else LeadingRun(s, Newline)
  {
    var n := LeadingRun(s, Newline);
    var m := if n < k then n else k;
    PadStartParts(s, m);
    LeadingNewlinesPrepend(k, s[m..]);
    assert (Newlines(k) + s[m..])[k..] == s[m..];
    Newlines(k) + s[m..]
  }

  lemma PadStartParts(s: string, m: nat)
    requires m <= LeadingRun(s, Newline)
    ensures LeadingRun(s[m..], Newline) == LeadingRun(s, Newline) - m
    ensures AllNewlines(s[..m])
  {
    var n := LeadingRun(s, Newline);
    LeadingRunPrepend(s[m..n], s[n..], Newline);
    assert s[m..n] + s[n..] == s[m..];
  }

  /** The effect of replacing the leading run of newlines (`/^\n*` + `/`) by `k` newlines. */
  function SetLeadingNewlines(s: string, k: nat): (r: string)
    ensures LeadingRun(r, Newline) == k
  {
    var n := LeadingRun(s, Newline);
    var kept := s[n..];
    assert s[n..][..0] == [];
    LeadingNewlinesPrepend(k, kept);
    assert (Newlines(k) + kept)[k..] == kept;
    Newlines(k) + kept
  }

  /** `s` with every character of class `p` deleted. */
  function Without(s: string, p: Class): string {
    if s == [] then []
    else (if In(s[0], p) then [] else [s[0]]) + Without(s[1..], p)
  }

  /** A slice of a slice is a slice of the whole. */
  lemma SliceOfSlice(a: string, i: nat, j: nat, k: nat, l: nat)
    requires i <= j <= |a| && k <= l <= j - i
    ensures a[i..j][k..l] == a[i + k..i + l]
  {
    var x, y := a[i..j][k..l], a[i + k..i + l];
    assert |x| == |y|;
    forall t | 0 <= t < |x| ensures x[t] == y[t] {
      assert x[t] == a[i..j][k + t] == a[i + k + t];
    }
  }

  lemma {:induction false} WithoutAppend(a: string, b: string, p: Class)
    ensures Without(a + b, p) == Without(a, p) + Without(b, p)
    decreases |a|
  {
    if a != [] {
      var head := if In(a[0], p) then [] else [a[0]];
      assert (a + b)[0] == a[0];
      assert (a + b)[1..] == a[1..] + b;
      assert Without(a + b, p) == head + Without(a[1..] + b, p);
      WithoutAppend(a[1..], b, p);
      assert Without(a, p) == head + Without(a[1..], p);
    } else {
      assert a + b == b;
    }
  }

  /** Pieces alike without class `c` make wholes alike without it. */
  lemma WithoutConcat(a: string, b: string, x: string, y: string, c: Class)
    requires Without(a, c) == Without(x, c) && Without(b, c) == Without(y, c)
    ensures Without(a + b, c) == Without(x + y, c)
  {
    WithoutAppend(a, b, c);
    WithoutAppend(x, y, c);
  }

  lemma {:induction false} WithoutAll(s: string, p: Class)
    requires All(s, p)
    ensures Without(s, p) == []
    decreases |s|
  {
    if s != [] {
      assert In(s[0], p);
      assert All(s[1..], p) by {
        forall i | 0 <= i < |s| - 1 ensures In(s[1..][i], p) {
          assert s[1..][i] == s[i + 1];
        }
      }
      WithoutAll(s[1..], p);
    }
  }

  /** Strings that differ only where both have a character of class `p` agree once those are deleted. */
  lemma {:induction false} WithoutPointwise(a: string, b: string, p: Class)
    requires |a| == |b|
    requires forall i :: 0 <= i < |a| ==> a[i] == b[i] || (In(a[i], p) && In(b[i], p))
    ensures Without(a, p) == Without(b, p)
    decreases |a|
  {
    if a != [] {
      assert forall i :: 0 <= i < |a| - 1 ==> a[1..][i] == a[i + 1] && b[1..][i] == b[i + 1];
      WithoutPointwise(a[1..], b[1..], p);
    }
  }

  /** Cutting off a head of class `p` keeps what is left of `s` without `p`. */
  lemma HeadWithout(s: string, m: nat, p: Class)
    requires m <= |s| && forall i :: 0 <= i < m ==> In(s[i], p)
    ensures All(s[..m], p) && Without(s[m..], p) == Without(s, p)
  {
    assert s == s[..m] + s[m..];
    WithoutAppend(s[..m], s[m..], p);
    WithoutAll(s[..m], p);
  }

  /** Cutting off a tail of class `p` keeps what is left of `s` without `p`. */
  lemma TailWithout(s: string, m: nat, p: Class)
    requires m <= |s| && forall i :: |s| - m <= i < |s| ==> In(s[i], p)
    ensures All(s[|s| - m..], p) && Without(s[..|s| - m], p) == Without(s, p)
  {
    var tail := s[|s| - m..];
    assert All(tail, p) by {
      forall i | 0 <= i < m ensures In(tail[i], p) {
        assert tail[i] == s[|s| - m + i];
      }
    }
    assert s == s[..|s| - m] + s[|s| - m..];
    WithoutAppend(s[..|s| - m], s[|s| - m..], p);
    WithoutAll(s[|s| - m..], p);
  }

  /** `s` with its leading and then its trailing run of class `p` cut off. */
  function Strip(s: string, p: Class): string {
    var s1 := s[LeadingRun(s, p)..];
    s1[..|s1| - TrailingRun(s1, p)]
  }

  /** A stripped string has no character of class `p` at either edge, and lost no other character. */
  lemma StripEdges(s: string, p: Class)
    ensures var s2 := Strip(s, p);
            (s2 == [] || (!In(s2[0], p) && !In(s2[|s2| - 1], p))) &&
            Without(s2, p) == Without(s, p)
  {
    StripWithout(s, p);
    StripEdgeChars(s, p);
  }

  lemma StripWithout(s: string, p: Class)
    ensures Without(Strip(s, p), p) == Without(s, p)
  {
    var s1 := s[LeadingRun(s, p)..];
    HeadWithout(s, LeadingRun(s, p), p);
    TailWithout(s1, TrailingRun(s1, p), p);
  }

  lemma StripEdgeChars(s: string, p: Class)
    ensures var s2 := Strip(s, p);
            s2 == [] || (!In(s2[0], p) && !In(s2[|s2| - 1], p))
  {
    var s1 := s[LeadingRun(s, p)..];
    var t := TrailingRun(s1, p);
    var s2 := s1[..|s1| - t];
    if s2 != [] {
      assert s2[0] == s1[0] == s[LeadingRun(s, p)];
      assert s2[|s2| - 1] == s1[|s1| - t - 1];
    }
  }

  /** Replacing the last `m` characters, all newlines, by `k` newlines changes nothing but newlines. */
  lemma ReplaceTailWithout(s: string, m: nat, k: nat)
    requires m <= |s| && AllNewlines(s[|s| - m..])
    ensures Without(s[..|s| - m] + Newlines(k), Newline) == Without(s, Newline)
  {
    assert s == s[..|s| - m] + s[|s| - m..];
    WithoutAppend(s[..|s| - m], s[|s| - m..], Newline);
    WithoutAll(s[|s| - m..], Newline);
    WithoutAppend(s[..|s| - m], Newlines(k), Newline);
    WithoutAll(Newlines(k), Newline);
  }

  /** Replacing the first `m` characters, all newlines, by `k` newlines changes nothing but newlines. */
  lemma ReplaceHeadWithout(s: string, m: nat, k: nat)
    requires m <= |s| && AllNewlines(s[..m])
    ensures Without(Newlines(k) + s[m..], Newline) == Without(s, Newline)
  {
    assert s == s[..m] + s[m..];
    WithoutAppend(s[..m], s[m..], Newline);
    WithoutAll(s[..m], Newline);
    WithoutAppend(Newlines(k), s[m..], Newline);
    WithoutAll(Newlines(k), Newline);
  }

  /** Newline padding changes nothing but newlines. */
  lemma PadEndWithout(s: string, k: nat)
    ensures Without(PadEnd(s, k), Newline) == Without(s, Newline)
  {
    var n := TrailingRun(s, Newline);
    var m := if n < k then n else k;
    PadEndParts(s, m);
    ReplaceTailWithout(s, m, k);
  }

  /** Newline padding changes nothing but newlines. */
  lemma SetTrailingNewlinesWithout(s: string, k: nat)
    ensures Without(SetTrailingNewlines(s, k), Newline) == Without(s, Newline)
  {
    var n := TrailingRun(s, Newline);
    PadEndParts(s, n);
    ReplaceTailWithout(s, n, k);
  }

  /** Newline padding changes nothing but newlines. */
  lemma PadStartWithout(s: string, k: nat)
    ensures Without(PadStart(s, k), Newline) == Without(s, Newline)
  {
    var n := LeadingRun(s, Newline);
    var m := if n < k then n else k;
    PadStartParts(s, m);
    ReplaceHeadWithout(s, m, k);
  }

  /** Newline padding changes nothing but newlines. */
  lemma SetLeadingNewlinesWithout(s: string, k: nat)
    ensures Without(SetLeadingNewlines(s, k), Newline) == Without(s, Newline)
  {
    var n := LeadingRun(s, Newline);
    PadStartParts(s, n);
    ReplaceHeadWithout(s, n, k);
  }

  /** `String.prototype.split(sep)` for a one-character separator (`"".split(sep)` is `[""]`). */
  function Split(s: string, sep: char): (r: seq<string>)
    ensures |r| >= 1
    ensures forall i :: 0 <= i < |r| ==> sep !in r[i]
  {
    if s == [] then [""]
    else if s[0] == sep then [""] + Split(s[1..], sep)
    else
      var t := Split(s[1..], sep);
      [[s[0]] + t[0]] + t[1..]
  }

  /** `Array.prototype.join(sep)`. */
  function Join(lines: seq<string>, sep: char): string {
    if lines == [] then ""
    else if |lines| == 1 then lines[0]
    else lines[0] + [sep] + Join(lines[1..], sep)
  }

  lemma {:induction false} JoinSplit(s: string, sep: char)
    ensures Join(Split(s, sep), sep) == s
  {
    if s == [] {
    } else if s[0] == sep {
      JoinSplit(s[1..], sep);
      var t := Split(s[1..], sep);
      assert Split(s, sep) == [""] + t;
      assert (([""] + t)[1..]) == t;
    } else {
      JoinSplit(s[1..], sep);
      var t := Split(s[1..], sep);
      var r := [[s[0]] + t[0]] + t[1..];
      assert Split(s, sep) == r;
      if |t| == 1 {
        assert Join(r, sep) == [s[0]] + t[0];
      } else {
        assert r[1..] == t[1..];
        assert Join(r, sep) == [s[0]] + t[0] + [sep] + Join(t[1..], sep);
      }
    }
  }

  /** Every line of `lines` followed by a newline. */
  function ConcatLines(lines: seq<string>): string {
    if lines == [] then "" else ConcatLines(lines[..|lines| - 1]) + lines[|lines| - 1] + "\n"
  }

  lemma {:induction false} ConcatLinesJoin(lines: seq<string>)
    requires |lines| >= 1
    ensures ConcatLines(lines) == Join(lines, '\n') + "\n"
  {
    if |lines| > 1 {
      var init := lines[..|lines| - 1];
      ConcatLinesJoin(init);
      JoinSnoc(init, lines[|lines| - 1], '\n');
      assert init + [lines[|lines| - 1]] == lines;
    }
  }

  lemma {:induction false} JoinSnoc(lines: seq<string>, last: string, sep: char)
    requires |lines| >= 1
    ensures Join(lines + [last], sep) == Join(lines, sep) + [sep] + last
  {
    if |lines| > 1 {
      assert (lines + [last])[1..] == lines[1..] + [last];
      JoinSnoc(lines[1..], last, sep);
    } else {
      assert (lines + [last])[1..] == [last];
    }
  }

  /** `/\r\n/g` replaced by `"\n"`, scanning left to right. */
  function ReplaceCrLf(s: string): (r: string)
    ensures '\r' !in s ==> r == s
  {
    if |s| >= 2 && s[0] == '\r' && s[1] == '\n' then "\n" + ReplaceCrLf(s[2..])
    else if s == [] then []
    else [s[0]] + ReplaceCrLf(s[1..])
  }

  /** `/\r/g` replaced by `"\n"`. */
  function ReplaceCr(s: string): (r: string)
    ensures '\r' !in r
    ensures '\r' !in s ==> r == s
  {
    if s == [] then [] else [if s[0] == '\r' then '\n' else s[0]] + ReplaceCr(s[1..])
  }

  /**
   * Reference for line-break fixing, in one pass: each `\r\n` and each
   * lone `\r` becomes one `\n`, and every other character is kept.
   */
  function EolFixed(s: string): string {
    if |s| >= 2 && s[0] == '\r' && s[1] == '\n' then "\n" + EolFixed(s[2..])
    else if s == [] then []
    else if s[0] == '\r' then "\n" + EolFixed(s[1..])
    else [s[0]] + EolFixed(s[1..])
  }

  /** The two global replacements of `fixEolChars` do what the one-pass reference does. */
  lemma {:induction false} FixEolCharsSinglePass(s: string)
    ensures ReplaceCr(ReplaceCrLf(s)) == EolFixed(s)
  {
    if |s| >= 2 && s[0] == '\r' && s[1] == '\n' {
      var x := ReplaceCrLf(s[2..]);
      assert ("\n" + x)[1..] == x;
      FixEolCharsSinglePass(s[2..]);
    } else if s != [] {
      var x := ReplaceCrLf(s[1..]);
      assert ([s[0]] + x)[1..] == x;
      FixEolCharsSinglePass(s[1..]);
    }
  }

  /**
   * `util.fixEolChars`: converts `\r\n` and then any remaining `\r` to `\n`.
   * The result is the one-pass conversion, so it holds no carriage return,
   * and text without one is unchanged.
   */
  function FixEolChars(text: string): (r: string)
    ensures r == EolFixed(text)
    ensures '\r' !in r
    ensures '\r' !in text ==> r == text
  {
    FixEolCharsSinglePass(text);
    ReplaceCr(ReplaceCrLf(text))
  }

  /** The characters `util.escapeRegExp` escapes: `. * + ? ^ $ { } ( ) | [ ] / \`. */
  predicate IsRegExpSpecial(c: char) {
    c in ".*+?^${}()|[]/\\"
  }

  /** Removes the backslash in front of every escaped character. */
  function UnescapeRegExp(s: string): string {
    if s == [] then []
    else if s[0] == '\\' && |s| >= 2 then [s[1]] + UnescapeRegExp(s[2..])
    else [s[0]] + UnescapeRegExp(s[1..])
  }

  /**
   * `r` is made of escaped units only: a special character always comes
   * with a backslash in front, and any other character stands alone.
   */
  predicate Escaped(r: string) {
    if r == [] then true
    else if IsRegExpSpecial(r[0]) then |r| >= 2 && r[0] == '\\' && IsRegExpSpecial(r[1]) && Escaped(r[2..])
    else Escaped(r[1..])
  }

  /**
   * `util.escapeRegExp`: a backslash is inserted before every special
   * character, so that unescaping gives back the original string.
   */
  function EscapeRegExp(s: string): (r: string)
    ensures Escaped(r)
    ensures UnescapeRegExp(r) == s
    ensures |r| >= |s|
  {
    if s == [] then []
    else
      var rest := EscapeRegExp(s[1..]);
      if IsRegExpSpecial(s[0]) then
        assert (['\\', s[0]] + rest)[2..] == rest;
        ['\\', s[0]] + rest
      else
        assert ([s[0]] + rest)[1..] == rest;
        [s[0]] + rest
  }

  /** Unescaping an escaped text starts with the character its first unit stands for. */
  lemma UnescapeHead(r: string)
    requires Escaped(r) && r != []
    ensures var k := if IsRegExpSpecial(r[0]) then 2 else 1;
            k <= |r| && UnescapeRegExp(r) == [r[k - 1]] + UnescapeRegExp(r[k..])
  {
  }

  /**
   * The escaped text is determined by what it stands for: two escaped texts
   * that unescape alike are equal, so `escapeRegExp` is the only function
   * meeting its contract.
   */
  lemma {:induction false} EscapedUnique(r1: string, r2: string)
    requires Escaped(r1) && Escaped(r2) && UnescapeRegExp(r1) == UnescapeRegExp(r2)
    ensures r1 == r2
    decreases |r1|
  {
    if r1 == [] {
      if r2 != [] {
        UnescapeHead(r2);
      }
    } else if r2 == [] {
      UnescapeHead(r1);
    } else {
      UnescapeHead(r1);
      UnescapeHead(r2);
      var k1 := if IsRegExpSpecial(r1[0]) then 2 else 1;
      var k2 := if IsRegExpSpecial(r2[0]) then 2 else 1;
      assert UnescapeRegExp(r1)[0] == r1[k1 - 1] && UnescapeRegExp(r2)[0] == r2[k2 - 1];
      assert k1 == k2;
      assert UnescapeRegExp(r1[k1..]) == UnescapeRegExp(r1)[1..];
      EscapedUnique(r1[k1..], r2[k2..]);
      assert r1 == r1[..k1] + r1[k1..] && r2 == r2[..k2] + r2[k2..];
    }
  }

  /** The decimal digit for `d`. */
  function Digit(d: nat): char
    requires d < 10
  {
    "0123456789"[d]
  }

  /** JavaScript's `"" + n` for a natural number: its decimal numeral. */
  function NatToString(n: nat): (r: string)
    ensures r != "" && All(r, DecimalDigit)
    ensures ParseDecimal(r) == n
    decreases n
  {
    if n < 10 then [Digit(n)]
    else
      var r := NatToString(n / 10) + [Digit(n % 10)];
      assert r[..|r| - 1] == NatToString(n / 10);
      r
  }

  /** The value of a string of decimal digits. */
  function ParseDecimal(s: string): nat
    requires All(s, DecimalDigit)
  {
    if s == [] then 0 else 10 * ParseDecimal(s[..|s| - 1]) + ((s[|s| - 1] as int) - ('0' as int))
  }

  /** `String.prototype.substring(a, b)`: both ends clamped to the string, swapped when reversed. */
  function Substring(s: string, a: int, b: int): (r: string)
    ensures |r| <= |s|
    ensures 0 <= a <= b <= |s| ==> r == s[a..b]
  {
    var a' := if a < 0 then 0 else if a > |s| then |s| else a;
    var b' := if b < 0 then 0 else if b > |s| then |s| else b;
    if a' <= b' then s[a'..b'] else s[b'..a']
  }
}
