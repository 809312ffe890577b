/**
 * Text taken line by line, as the editor's patterns with the `m` flag see it:
 * a line ends at any line terminator, and a final terminator is followed by
 * one more, empty, line.
 */
module Lines {
  import opened Strings

  /** The first line of `line + [c] + rest` is `line`, when `c` ends lines. */
  lemma FirstLine(line: string, c: char, rest: string)
    requires All(line, Dot) && !In(c, Dot)
    ensures RunEnd(line + [c] + rest, 0, Dot) == |line|
    ensures (line + [c] + rest)[..|line|] == line && (line + [c] + rest)[|line| + 1..] == rest
  {
    var s := line + [c] + rest;
    assert s[|line|] == c;
    RunEndAt(s, 0, |line|, Dot);
  }

  /** A line without terminators is all of its text. */
  lemma OnlyLine(line: string)
    requires All(line, Dot)
    ensures RunEnd(line, 0, Dot) == |line|
  {
    RunEndAt(line, 0, |line|, Dot);
  }

  /** `s.replace(/^/gm, pre)`: `pre` at the start of every line. */
  function PrefixLines(s: string, pre: string): string
    decreases |s|
  {
    var e := RunEnd(s, 0, Dot);
    if e == |s| then pre + s else pre + s[..e + 1] + PrefixLines(s[e + 1..], pre)
  }

  lemma ConsAssoc(pre: string, q: string, c: char, r: string, rest: string)
    requires q + [c] == r
    ensures (pre + q) + [c] + rest == pre + r + rest
  {
  }

  /** `PrefixLines` on its first line. */
  lemma PrefixLinesCons(s: string, e: nat, pre: string)
    requires e == RunEnd(s, 0, Dot) < |s|
    ensures PrefixLines(s, pre) == (pre + s[..e]) + [s[e]] + PrefixLines(s[e + 1..], pre)
  {
    var x := s[..e + 1];
    var rest := PrefixLines(s[e + 1..], pre);
    assert PrefixLines(s, pre) == pre + x + rest;
    assert s[..e] + [s[e]] == x;
    ConsAssoc(pre, s[..e], s[e], x, rest);
  }

  /** A text is its first line, the terminator ending it and the rest; prefixed, that line is still one line. */
  lemma LineSplit(s: string, e: nat, pre: string)
    requires e == RunEnd(s, 0, Dot) < |s| && All(pre, Dot)
    ensures s == s[..e] + [s[e]] + s[e + 1..]
    ensures All(pre + s[..e], Dot) && !In(s[e], Dot)
  {
    assert s[..e] + [s[e]] == s[..e + 1];
    assert s[..e + 1] + s[e + 1..] == s;
    assert forall k | 0 <= k < |pre + s[..e]| :: In((pre + s[..e])[k], Dot) by {
      forall k | 0 <= k < |pre + s[..e]| ensures In((pre + s[..e])[k], Dot) {
        if k >= |pre| {
          assert (pre + s[..e])[k] == s[k - |pre|];
        }
      }
    }
  }

  /** The last line of a text that does not end a line keeps its last character when prefixed. */
  lemma {:induction false} PrefixLinesLast(s: string, pre: string)
    requires s != [] && In(s[|s| - 1], Dot)
    ensures var r := PrefixLines(s, pre); r != [] && r[|r| - 1] == s[|s| - 1]
    decreases |s|
  {
    var e := RunEnd(s, 0, Dot);
    if e < |s| {
      assert e + 1 < |s|;
      assert s[e + 1..][|s[e + 1..]| - 1] == s[|s| - 1];
      PrefixLinesLast(s[e + 1..], pre);
    }
  }
}
