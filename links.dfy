/**
 * The link and image commands of the command manager in Markdown.Editor.js:
 * the escaping of brackets in the link text, `properlyEncoded` (the URL and
 * title typed into the dialog made "nice"), `linkEnteredCallback` and
 * `linkOrImage`.
 */
module Links {
  import opened Wrappers
  import opened Strings
  import opened Chunks
  import opened Textarea
  import opened LinkDefs
  import opened Texts

  // ---------------------------------------------------------------------
  // Escaping the brackets of the link text
  // ---------------------------------------------------------------------

  predicate IsBracket(c: char) { c == '[' || c == ']' }

  /**
   * The brackets of `s` escaped: a backslash is put before every bracket
   * that follows an even number of backslashes (`even` says whether the
   * backslashes just before `s` are even in number).
   */
  function EscapeFrom(s: string, even: bool): string {
    if s == [] then []
    else if s[0] == '\\' then "\\" + EscapeFrom(s[1..], !even)
    else if IsBracket(s[0]) && even then ['\\', s[0]] + EscapeFrom(s[1..], true)
    else [s[0]] + EscapeFrom(s[1..], true)
  }

  /**
   * `/([^\\](?:\\\\)*)(?=[[\]])/g` replaced by `"$1\\"` from `i`: a match
   * is a character other than a backslash and the pairs of backslashes
   * after it, when a bracket comes next; the bracket itself is not consumed.
   */
  function BracketScan(t: string, i: nat): string
    requires i <= |t|
    decreases |t| - i, 1
  {
    if i == |t| then [] else BracketScanAt(t, i, RunEnd(t, i + 1, Only('\\')))
  }

  /** The scan at `t[i]`, where the backslashes after it run up to `j`. */
  function BracketScanAt(t: string, i: nat, j: nat): string
    requires i < j <= |t|
    decreases |t| - i, 0
  {
    if EscapeAt(t, i, j) then t[i..j] + "\\" + BracketScan(t, j)
    else [t[i]] + BracketScan(t, i + 1)
  }

  /** A match of the scan starts at `t[i]`: not a backslash, an even run of backslashes up to `j`, then a bracket. */
  predicate EscapeAt(t: string, i: nat, j: nat)
    requires i < j <= |t|
  {
    t[i] != '\\' && (j - i - 1) % 2 == 0 && j < |t| && IsBracket(t[j])
  }

  /**
   * `(" " + selection).replace(…, "$1\\").substr(1)`: the leading space lets
   * a bracket at the very start match, so the scan puts one backslash before
   * every bracket that follows an even number of backslashes, and changes
   * nothing else.
   */
  function EscapeBrackets(selection: string): (r: string)
    ensures r == EscapeFrom(selection, true)
  {
    var t := " " + selection;
    BracketScanEscapes(t, 0);
    assert t[1..] == selection;
    var e := BracketScan(t, 0);
    if e == [] then [] else e[1..]
  }

  /** Backslashes the scan passes over are copied. */
  lemma {:induction false} BracketScanBackslashes(t: string, a: nat, j: nat)
    requires a <= j <= |t| && forall k | a <= k < j :: t[k] == '\\'
    ensures BracketScan(t, a) == t[a..j] + BracketScan(t, j)
    decreases j - a
  {
    if a < j {
      BracketScanBackslash(t, a);
      BracketScanBackslashes(t, a + 1, j);
      ConsSlice(t, a, j, BracketScan(t, j));
    } else {
      assert t[a..j] == [];
    }
  }

  lemma ConsSlice(t: string, a: nat, j: nat, rest: string)
    requires a < j <= |t|
    ensures [t[a]] + (t[a + 1..j] + rest) == t[a..j] + rest
  {
    assert t[a..j] == [t[a]] + t[a + 1..j];
  }

  /** Where no match starts, the scan copies one character. */
  lemma BracketScanCopies(t: string, i: nat, j: nat)
    requires i < |t| && j == RunEnd(t, i + 1, Only('\\'))
    requires !(t[i] != '\\' && (j - i - 1) % 2 == 0 && j < |t| && IsBracket(t[j]))
    ensures BracketScan(t, i) == [t[i]] + BracketScan(t, i + 1)
  {
  }

  /** No match starts at a backslash. */
  lemma BracketScanBackslash(t: string, i: nat)
    requires i < |t| && t[i] == '\\'
    ensures BracketScan(t, i) == [t[i]] + BracketScan(t, i + 1)
  {
  }

  /** Escaping a run of backslashes copies it and flips the parity once per backslash. */
  lemma {:induction false} EscapeFromBackslashes(b: string, rest: string, even: bool)
    requires forall k | 0 <= k < |b| :: b[k] == '\\'
    ensures EscapeFrom(b + rest, even) == b + EscapeFrom(rest, even == (|b| % 2 == 0))
    decreases |b|
  {
    if b == [] {
      assert b + rest == rest;
    } else {
      assert (b + rest)[0] == '\\' && (b + rest)[1..] == b[1..] + rest;
      EscapeFromBackslashes(b[1..], rest, !even);
      assert b == "\\" + b[1..];
    }
  }

  /** From a character that is not a backslash, the scan escapes as `EscapeFrom` does. */
  lemma {:induction false} BracketScanEscapes(t: string, i: nat)
    requires i < |t| && t[i] != '\\'
    ensures BracketScan(t, i) == [t[i]] + EscapeFrom(t[i + 1..], true)
    decreases |t| - i
  {
    var j := RunEnd(t, i + 1, Only('\\'));
    if j < |t| {
      BracketScanEscapes(t, j);
    }
    BracketScanStep(t, i, j);
  }

  /** One step of `BracketScanEscapes`, given what the scan does from the next non-backslash `j`. */
  lemma BracketScanStep(t: string, i: nat, j: nat)
    requires i < |t| && t[i] != '\\' && j == RunEnd(t, i + 1, Only('\\'))
    requires j < |t| ==> BracketScan(t, j) == [t[j]] + EscapeFrom(t[j + 1..], true)
    ensures BracketScan(t, i) == [t[i]] + EscapeFrom(t[i + 1..], true)
  {
    EscapeRun(t, i, j);
    if (j - i - 1) % 2 == 0 && j < |t| && IsBracket(t[j]) {
      BracketScanMatchCase(t, i, j);
    } else {
      BracketScanCopyCase(t, i, j);
    }
  }

  lemma BracketScanMatchCase(t: string, i: nat, j: nat)
    requires i < |t| && t[i] != '\\' && j == RunEnd(t, i + 1, Only('\\'))
    requires (j - i - 1) % 2 == 0 && j < |t| && IsBracket(t[j])
    requires BracketScan(t, j) == [t[j]] + EscapeFrom(t[j + 1..], true)
    requires EscapeFrom(t[i + 1..], true) == t[i + 1..j] + EscapeFrom(t[j..], true)
    ensures BracketScan(t, i) == [t[i]] + EscapeFrom(t[i + 1..], true)
  {
    BracketScanMatches(t, i, j);
    EscapeBracketAt(t, j);
    BracketScanMatch(t, i, j);
  }

  lemma BracketScanCopyCase(t: string, i: nat, j: nat)
    requires i < |t| && t[i] != '\\' && j == RunEnd(t, i + 1, Only('\\'))
    requires !((j - i - 1) % 2 == 0 && j < |t| && IsBracket(t[j]))
    requires j < |t| ==> BracketScan(t, j) == [t[j]] + EscapeFrom(t[j + 1..], true)
    requires EscapeFrom(t[i + 1..], true) == t[i + 1..j] + EscapeFrom(t[j..], (j - i - 1) % 2 == 0)
    ensures BracketScan(t, i) == [t[i]] + EscapeFrom(t[i + 1..], true)
  {
    BracketScanCopies(t, i, j);
    BracketScanBackslashes(t, i + 1, j);
    BracketScanNoMatch(t, i, j);
  }

  lemma BracketScanMatch(t: string, i: nat, j: nat)
    requires i < j < |t|
    requires BracketScan(t, i) == t[i..j] + "\\" + BracketScan(t, j)
    requires BracketScan(t, j) == [t[j]] + EscapeFrom(t[j + 1..], true)
    requires EscapeFrom(t[i + 1..], true) == t[i + 1..j] + EscapeFrom(t[j..], true)
    requires EscapeFrom(t[j..], true) == "\\" + [t[j]] + EscapeFrom(t[j + 1..], true)
    ensures BracketScan(t, i) == [t[i]] + EscapeFrom(t[i + 1..], true)
  {
    SliceHead(t, i, j);
    Regroup(t[i..j], t[i], t[i + 1..j], t[j], EscapeFrom(t[j + 1..], true));
  }

  /** An unescaped bracket at `t[j]` gets its backslash. */
  lemma EscapeBracketAt(t: string, j: nat)
    requires j < |t| && IsBracket(t[j])
    ensures EscapeFrom(t[j..], true) == "\\" + [t[j]] + EscapeFrom(t[j + 1..], true)
  {
    assert t[j..][0] == t[j] && t[j..][1..] == t[j + 1..];
  }

  lemma SliceHead(t: string, i: nat, j: nat)
    requires i < j <= |t|
    ensures t[i..j] == [t[i]] + t[i + 1..j]
  {
  }

  lemma Regroup(head: string, c: char, mid: string, d: char, rest: string)
    requires head == [c] + mid
    ensures head + "\\" + ([d] + rest) == [c] + (mid + ("\\" + [d] + rest))
  {
  }

  /** Where a match starts, the scan puts a backslash after it. */
  lemma BracketScanMatches(t: string, i: nat, j: nat)
    requires i < |t| && t[i] != '\\' && j == RunEnd(t, i + 1, Only('\\'))
    requires (j - i - 1) % 2 == 0 && j < |t| && IsBracket(t[j])
    ensures BracketScan(t, i) == t[i..j] + "\\" + BracketScan(t, j)
  {
  }

  lemma BracketScanNoMatch(t: string, i: nat, j: nat)
    requires i < |t| && t[i] != '\\' && i + 1 <= j <= |t|
    requires j < |t| ==> t[j] != '\\' && !((j - i - 1) % 2 == 0 && IsBracket(t[j]))
    requires j < |t| ==> BracketScan(t, j) == [t[j]] + EscapeFrom(t[j + 1..], true)
    requires EscapeFrom(t[i + 1..], true) == t[i + 1..j] + EscapeFrom(t[j..], (j - i - 1) % 2 == 0)
    requires BracketScan(t, i) == [t[i]] + BracketScan(t, i + 1)
    requires BracketScan(t, i + 1) == t[i + 1..j] + BracketScan(t, j)
    ensures BracketScan(t, i) == [t[i]] + EscapeFrom(t[i + 1..], true)
  {
    if j < |t| {
      assert t[j..] == [t[j]] + t[j + 1..];
      EscapeFromPlain(t[j], t[j + 1..], (j - i - 1) % 2 == 0);
    } else {
      assert t[j..] == [];
    }
  }

  /** A character that is neither a backslash nor a bracket to escape is copied. */
  lemma EscapeFromPlain(c: char, rest: string, even: bool)
    requires c != '\\' && !(IsBracket(c) && even)
    ensures EscapeFrom([c] + rest, even) == [c] + EscapeFrom(rest, true)
  {
    assert ([c] + rest)[0] == c && ([c] + rest)[1..] == rest;
  }

  /** `EscapeFrom` over the backslashes after `t[i]` up to `j`. */
  lemma EscapeRun(t: string, i: nat, j: nat)
    requires i < |t| && j == RunEnd(t, i + 1, Only('\\'))
    ensures EscapeFrom(t[i + 1..], true) == t[i + 1..j] + EscapeFrom(t[j..], (j - i - 1) % 2 == 0)
  {
    var b := t[i + 1..j];
    assert forall k | 0 <= k < |b| :: b[k] == '\\' by {
      assert forall k | 0 <= k < |b| :: b[k] == t[i + 1 + k];
    }
    assert t[i + 1..] == b + t[j..];
    EscapeFromBackslashes(b, t[j..], true);
  }

  /** Escaping inserts backslashes and nothing else. */
  lemma {:induction false} EscapeFromOnlyBackslashes(s: string, even: bool)
    ensures Without(EscapeFrom(s, even), Only('\\')) == Without(s, Only('\\'))
    decreases |s|
  {
    if s != [] {
      EscapeFromOnlyBackslashes(s[1..], if s[0] == '\\' then !even else true);
      var rest := EscapeFrom(s[1..], if s[0] == '\\' then !even else true);
      assert s == [s[0]] + s[1..];
      WithoutAppend([s[0]], s[1..], Only('\\'));
      if s[0] == '\\' {
        WithoutAppend("\\", rest, Only('\\'));
      } else if IsBracket(s[0]) && even {
        WithoutAppend(['\\', s[0]], rest, Only('\\'));
        assert Without(['\\', s[0]], Only('\\')) == [s[0]];
      } else {
        WithoutAppend([s[0]], rest, Only('\\'));
      }
    }
  }

  /** Escaping twice is escaping once: every bracket is left after an odd number of backslashes. */
  lemma {:induction false} EscapeFromIdempotent(s: string, even: bool)
    ensures EscapeFrom(EscapeFrom(s, even), even) == EscapeFrom(s, even)
    decreases |s|
  {
    if s != [] {
      var r := EscapeFrom(s, even);
      if s[0] == '\\' {
        EscapeFromIdempotent(s[1..], !even);
        assert r[0] == '\\' && r[1..] == EscapeFrom(s[1..], !even);
      } else if IsBracket(s[0]) && even {
        EscapeFromIdempotent(s[1..], true);
        var r2 := r[1..];
        assert r[0] == '\\' && r2 == [s[0]] + EscapeFrom(s[1..], true);
        assert r2[0] == s[0] && r2[1..] == EscapeFrom(s[1..], true);
      } else {
        EscapeFromIdempotent(s[1..], true);
        assert r[0] == s[0] && r[1..] == EscapeFrom(s[1..], true);
      }
    }
  }

  /** The escaping of `linkEnteredCallback` inserts only backslashes, and a second pass changes nothing. */
  lemma EscapeBracketsProperties(selection: string)
    ensures Without(EscapeBrackets(selection), Only('\\')) == Without(selection, Only('\\'))
    ensures EscapeBrackets(EscapeBrackets(selection)) == EscapeBrackets(selection)
  {
    EscapeFromOnlyBackslashes(selection, true);
    EscapeFromIdempotent(selection, true);
  }

  // ---------------------------------------------------------------------
  // properlyEncoded: the URL
  // ---------------------------------------------------------------------

  /** What `[^\w\d-./]` leaves alone: word characters, `-`, `.` and `/`. */
  predicate IsUrlSafe(c: char) {
    IsWordChar(c) || c == '-' || c == '.' || c == '/'
  }

  /** Every character of `s` is one `[^\w\d-./]` leaves alone. */
  predicate AllUrlSafe(s: string) {
    forall k | 0 <= k < |s| :: IsUrlSafe(s[k])
  }

  /** `%(?:[\da-fA-F]{2})` at `s[0]`. */
  predicate PercentHead(s: string) {
    |s| >= 3 && s[0] == '%' && IsHexDigit(s[1]) && IsHexDigit(s[2])
  }

  /** `toUpperCase` on a hexadecimal digit. */
  function UpperHex(c: char): (r: char)
    requires IsHexDigit(c)
    ensures IsUpperHex(r)
  {
    if 'a' <= c <= 'f' then (c as int - 'a' as int + 'A' as int) as char else c
  }

  predicate IsUpperHex(c: char) { IsDigit(c) || 'A' <= c <= 'F' }

  /** A run of percent-encoded bytes in upper case, as `encodeURI` writes them. */
  predicate UpperTriples(t: string)
    decreases |t|
  {
    t == [] || (|t| >= 3 && t[0] == '%' && IsUpperHex(t[1]) && IsUpperHex(t[2]) && UpperTriples(t[3..]))
  }

  /**
   * What the encoding relies on from `encodeURI`: a character the pattern
   * hands to it comes back either unchanged (and is not `%`) or as
   * upper-case percent-encoded bytes.
   */
  ghost predicate EncodesLikeUri(encodeUri: string -> string) {
    forall c: char | !IsUrlSafe(c) && c != '?' :: (encodeUri([c]) == [c] && c != '%') || UpperTriples(encodeUri([c]))
  }

  /**
   * `link.replace(/%(?:[\da-fA-F]{2})|\?|\+|[^\w\d-./]/g, …)`: a valid
   * percent escape is put in upper case, `?` starts the query string, `+` in
   * the query string becomes `%20`, and any other character outside
   * `[\w\d-./]` goes through `encodeURI`. `inQuery` says whether a `?` was seen.
   * A URL made only of word characters, `-`, `.` and `/` is left as it is.
   */
  function EncodeLink(s: string, inQuery: bool, encodeUri: string -> string): (r: string)
    ensures AllUrlSafe(s) ==> r == s
    decreases |s|
  {
    if s == [] then []
    else if PercentHead(s) then ['%', UpperHex(s[1]), UpperHex(s[2])] + EncodeLink(s[3..], inQuery, encodeUri)
    else if s[0] == '?' then "?" + EncodeLink(s[1..], true, encodeUri)
    else if s[0] == '+' && inQuery then "%20" + EncodeLink(s[1..], inQuery, encodeUri)
    else if !IsUrlSafe(s[0]) then encodeUri([s[0]]) + EncodeLink(s[1..], inQuery, encodeUri)
    else [s[0]] + EncodeLink(s[1..], inQuery, encodeUri)
  }

  /** Upper-case percent escapes are encoded as themselves. */
  lemma {:induction false} EncodeTriples(t: string, rest: string, inQuery: bool, encodeUri: string -> string)
    requires UpperTriples(t)
    ensures EncodeLink(t + rest, inQuery, encodeUri) == t + EncodeLink(rest, inQuery, encodeUri)
    decreases |t|
  {
    if t == [] {
      assert t + rest == rest;
    } else {
      EncodeTripleHead(t, rest, inQuery, encodeUri);
      EncodeTriples(t[3..], rest, inQuery, encodeUri);
      SeqAssoc(t[..3], t[3..], EncodeLink(rest, inQuery, encodeUri));
      assert t == t[..3] + t[3..];
    }
  }

  /** Concatenation regroups. */
  lemma SeqAssoc(a: string, b: string, c: string)
    ensures a + (b + c) == (a + b) + c
  {
  }

  /** The first upper-case escape of `t` is encoded as itself. */
  lemma EncodeTripleHead(t: string, rest: string, inQuery: bool, encodeUri: string -> string)
    requires |t| >= 3 && t[0] == '%' && IsUpperHex(t[1]) && IsUpperHex(t[2])
    ensures EncodeLink(t + rest, inQuery, encodeUri) == t[..3] + EncodeLink(t[3..] + rest, inQuery, encodeUri)
  {
    var s := t + rest;
    assert s[0] == '%' && s[1] == t[1] && s[2] == t[2] && s[3..] == t[3..] + rest;
    assert [s[0], UpperHex(s[1]), UpperHex(s[2])] == t[..3];
  }

  /** A single character the encoding leaves as it is. */
  lemma EncodeKept(c: char, rest: string, inQuery: bool, encodeUri: string -> string)
    requires c != '%' && c != '?' && !(c == '+' && inQuery)
    requires IsUrlSafe(c) || encodeUri([c]) == [c]
    ensures EncodeLink([c] + rest, inQuery, encodeUri) == [c] + EncodeLink(rest, inQuery, encodeUri)
  {
    assert ([c] + rest)[1..] == rest;
  }

  /**
   * Encoding an encoded URL changes nothing, with an `encodeURI` that keeps
   * its promise: upper-case escapes stay, `?` and the query state fall at
   * the same places, and what `encodeURI` wrote is already encoded.
   */
  lemma {:induction false} EncodeLinkIdempotent(s: string, inQuery: bool, encodeUri: string -> string)
    requires EncodesLikeUri(encodeUri)
    ensures EncodeLink(EncodeLink(s, inQuery, encodeUri), inQuery, encodeUri) == EncodeLink(s, inQuery, encodeUri)
    decreases |s|
  {
    if s != [] {
      if PercentHead(s) {
        var t := ['%', UpperHex(s[1]), UpperHex(s[2])];
        assert UpperTriples(t[3..]);
        EncodeLinkIdempotent(s[3..], inQuery, encodeUri);
        EncodeTriples(t, EncodeLink(s[3..], inQuery, encodeUri), inQuery, encodeUri);
      } else if s[0] == '?' {
        EncodeLinkIdempotent(s[1..], true, encodeUri);
        assert ("?" + EncodeLink(s[1..], true, encodeUri))[1..] == EncodeLink(s[1..], true, encodeUri);
      } else if s[0] == '+' && inQuery {
        assert UpperTriples("%20"[3..]);
        EncodeLinkIdempotent(s[1..], inQuery, encodeUri);
        EncodeTriples("%20", EncodeLink(s[1..], inQuery, encodeUri), inQuery, encodeUri);
      } else if !IsUrlSafe(s[0]) {
        EncodeLinkIdempotent(s[1..], inQuery, encodeUri);
        var e := encodeUri([s[0]]);
        if e == [s[0]] && s[0] != '%' {
          EncodeKept(s[0], EncodeLink(s[1..], inQuery, encodeUri), inQuery, encodeUri);
        } else {
          EncodeTriples(e, EncodeLink(s[1..], inQuery, encodeUri), inQuery, encodeUri);
        }
      } else {
        EncodeLinkIdempotent(s[1..], inQuery, encodeUri);
        EncodeKept(s[0], EncodeLink(s[1..], inQuery, encodeUri), inQuery, encodeUri);
      }
    }
  }

  /** Every `%` in `t` opens an escape of two upper-case hexadecimal digits. */
  predicate UpperEscapes(t: string) {
    forall k | 0 <= k < |t| && t[k] == '%' :: k + 2 < |t| && IsUpperHex(t[k + 1]) && IsUpperHex(t[k + 2])
  }

  lemma UpperEscapesAppend(a: string, b: string)
    requires UpperEscapes(a) && UpperEscapes(b)
    ensures UpperEscapes(a + b)
  {
    forall k | 0 <= k < |a + b| && (a + b)[k] == '%'
      ensures k + 2 < |a + b| && IsUpperHex((a + b)[k + 1]) && IsUpperHex((a + b)[k + 2])
    {
      if k >= |a| {
        assert b[k - |a|] == '%';
      }
    }
  }

  lemma {:induction false} UpperTriplesEscapes(t: string)
    requires UpperTriples(t)
    ensures UpperEscapes(t) && '+' !in t
    decreases |t|
  {
    if t != [] {
      UpperTriplesEscapes(t[3..]);
      UpperEscapesAppend(t[..3], t[3..]);
      assert t == t[..3] + t[3..];
    }
  }

  /**
   * Every `%` in an encoded URL opens an escape in upper-case hexadecimal:
   * valid escapes of the input are upper-cased, and a stray `%` is handed
   * to `encodeURI`, which writes `%25`.
   */
  lemma {:induction false} EncodeLinkUpperEscapes(s: string, inQuery: bool, encodeUri: string -> string)
    requires EncodesLikeUri(encodeUri)
    ensures UpperEscapes(EncodeLink(s, inQuery, encodeUri))
    decreases |s|
  {
    if s != [] {
      var head: string;
      if PercentHead(s) {
        head := ['%', UpperHex(s[1]), UpperHex(s[2])];
        EncodeLinkUpperEscapes(s[3..], inQuery, encodeUri);
        UpperEscapesAppend(head, EncodeLink(s[3..], inQuery, encodeUri));
      } else if s[0] == '?' {
        EncodeLinkUpperEscapes(s[1..], true, encodeUri);
        UpperEscapesAppend("?", EncodeLink(s[1..], true, encodeUri));
      } else {
        if s[0] == '+' && inQuery {
          head := "%20";
        } else if !IsUrlSafe(s[0]) {
          head := encodeUri([s[0]]);
          if UpperTriples(head) {
            UpperTriplesEscapes(head);
          }
        } else {
          head := [s[0]];
        }
        EncodeLinkUpperEscapes(s[1..], inQuery, encodeUri);
        UpperEscapesAppend(head, EncodeLink(s[1..], inQuery, encodeUri));
      }
    }
  }

  /** Once a `?` has been seen, no `+` is left in what follows. */
  lemma {:induction false} EncodeQueryNoPlus(q: string, encodeUri: string -> string)
    requires EncodesLikeUri(encodeUri)
    ensures '+' !in EncodeLink(q, true, encodeUri)
    decreases |q|
  {
    if q != [] {
      if PercentHead(q) {
        EncodeQueryNoPlus(q[3..], encodeUri);
      } else if q[0] == '?' || q[0] == '+' || IsUrlSafe(q[0]) {
        EncodeQueryNoPlus(q[1..], encodeUri);
      } else {
        var head := encodeUri([q[0]]);
        if UpperTriples(head) {
          UpperTriplesEscapes(head);
        }
        EncodeQueryNoPlus(q[1..], encodeUri);
      }
    }
  }

  /**
   * The first `?` splits the URL: what comes before it is encoded outside
   * the query string (a `+` there goes to `encodeURI`, which keeps it), what
   * comes after it inside (where a `+` becomes `%20`).
   */
  lemma {:induction false} EncodeLinkQuery(u: string, q: string, encodeUri: string -> string)
    requires '?' !in u
    ensures EncodeLink(u + "?" + q, false, encodeUri) == EncodeLink(u, false, encodeUri) + "?" + EncodeLink(q, true, encodeUri)
    decreases |u|
  {
    var s := u + "?" + q;
    if u == [] {
      assert s == "?" + q;
      assert s[1..] == q;
    } else if PercentHead(u) {
      EncodeLinkQuery(u[3..], q, encodeUri);
      EncodeQueryPercentStep(u, q, encodeUri);
    } else {
      EncodeLinkQuery(u[1..], q, encodeUri);
      EncodeQueryCharStep(u, q, encodeUri);
    }
  }

  /** `EncodeLinkQuery` over a leading percent escape, given it for the rest of `u`. */
  lemma EncodeQueryPercentStep(u: string, q: string, encodeUri: string -> string)
    requires PercentHead(u)
    requires EncodeLink(u[3..] + "?" + q, false, encodeUri) == EncodeLink(u[3..], false, encodeUri) + "?" + EncodeLink(q, true, encodeUri)
    ensures EncodeLink(u + "?" + q, false, encodeUri) == EncodeLink(u, false, encodeUri) + "?" + EncodeLink(q, true, encodeUri)
  {
    var s := u + "?" + q;
    assert PercentHead(s) && s[1] == u[1] && s[2] == u[2] && s[3..] == u[3..] + "?" + q by {
      assert s[..3] == u[..3];
    }
    var h := ['%', UpperHex(u[1]), UpperHex(u[2])];
    var t := EncodeLink(u[3..], false, encodeUri);
    var e := EncodeLink(q, true, encodeUri);
    assert EncodeLink(s, false, encodeUri) == h + (t + "?" + e) by {
      EncodePercentUnfold(s, false, encodeUri);
    }
    assert EncodeLink(u, false, encodeUri) == h + t by {
      EncodePercentUnfold(u, false, encodeUri);
    }
    Regroup4(h, t, "?", e);
  }

  /** One step of `EncodeLink` over a leading percent escape. */
  lemma EncodePercentUnfold(s: string, inQuery: bool, encodeUri: string -> string)
    requires PercentHead(s)
    ensures EncodeLink(s, inQuery, encodeUri) == ['%', UpperHex(s[1]), UpperHex(s[2])] + EncodeLink(s[3..], inQuery, encodeUri)
  {
  }

  /** Concatenation of four pieces regroups. */
  lemma Regroup4(a: string, b: string, c: string, d: string)
    ensures a + (b + c + d) == (a + b) + c + d
  {
  }

  /** `EncodeLinkQuery` over a leading character that is no percent escape, given it for the rest of `u`. */
  lemma EncodeQueryCharStep(u: string, q: string, encodeUri: string -> string)
    requires '?' !in u && u != [] && !PercentHead(u)
    requires EncodeLink(u[1..] + "?" + q, false, encodeUri) == EncodeLink(u[1..], false, encodeUri) + "?" + EncodeLink(q, true, encodeUri)
    ensures EncodeLink(u + "?" + q, false, encodeUri) == EncodeLink(u, false, encodeUri) + "?" + EncodeLink(q, true, encodeUri)
  {
    var s := u + "?" + q;
    QueryAfterChar(u, q);
    var h := if !IsUrlSafe(u[0]) then encodeUri([u[0]]) else [u[0]];
    var t := EncodeLink(u[1..], false, encodeUri);
    var e := EncodeLink(q, true, encodeUri);
    assert EncodeLink(s, false, encodeUri) == h + (t + "?" + e) by {
      EncodeCharUnfold(s, encodeUri);
    }
    assert EncodeLink(u, false, encodeUri) == h + t by {
      EncodeCharUnfold(u, encodeUri);
    }
    Regroup4(h, t, "?", e);
  }

  /** `u + "?" + q` starts with the first character of `u`, which is neither a percent escape nor `?`. */
  lemma QueryAfterChar(u: string, q: string)
    requires '?' !in u && u != [] && !PercentHead(u)
    ensures var s := u + "?" + q;
            !PercentHead(s) && s[0] == u[0] && u[0] != '?' && s[1..] == u[1..] + "?" + q
  {
    var s := u + "?" + q;
    if |u| >= 3 { assert s[..3] == u[..3]; }
    else if |u| == 2 { assert s[2] == '?'; }
    else { assert s[1] == '?'; }
    assert u[0] in u;
  }

  /** One step of `EncodeLink` outside the query over a leading character that is neither a percent escape nor `?`. */
  lemma EncodeCharUnfold(s: string, encodeUri: string -> string)
    requires s != [] && !PercentHead(s) && s[0] != '?'
    ensures EncodeLink(s, false, encodeUri) ==
            (if !IsUrlSafe(s[0]) then encodeUri([s[0]]) else [s[0]]) + EncodeLink(s[1..], false, encodeUri)
  {
  }


  // ---------------------------------------------------------------------
  // properlyEncoded: the title
  // ---------------------------------------------------------------------

  /** `s.replace(/c/g, r)` for a single character `c`. */
  function ReplaceAll(s: string, c: char, r: string): string
    decreases |s|
  {
    if s == [] then [] else (if s[0] == c then r else [s[0]]) + ReplaceAll(s[1..], c, r)
  }

  /** What `properlyEncoded` writes for a `"` in the title: the entity without its `&`. */
  const QuoteAsWritten := "quot;"

  /** The HTML entity for `"`, as the other four replacements write theirs. */
  const QuoteEntity := "&quot;"

  /** A replacement for `"` that holds none of the five characters the chain replaces. */
  predicate SafeReplacement(quote: string) {
    forall k | 0 <= k < |quote| :: quote[k] !in "\"()<>"
  }

  /** The five replacements of the title, in the order they are made, with `quote` written for `"`. */
  function EscapeTitleChain(t: string, quote: string): string {
    ReplaceAll(ReplaceAll(ReplaceAll(ReplaceAll(ReplaceAll(t, '"', quote), '(', "&#40;"), ')', "&#41;"), '<', "&lt;"), '>', "&gt;")
  }

  /** What each character of the title becomes. */
  function TitleChar(c: char, quote: string): string {
    match c
    case '"' => quote
    case '(' => "&#40;"
    case ')' => "&#41;"
    case '<' => "&lt;"
    case '>' => "&gt;"
    case _ => [c]
  }

  /** The title escaped one character at a time. */
  function EscapeTitle(t: string, quote: string): (r: string)
    requires SafeReplacement(quote)
    ensures forall k | 0 <= k < |r| :: r[k] !in "\"()<>"
    decreases |t|
  {
    if t == [] then []
    else
      var rest := EscapeTitle(t[1..], quote);
      var head := TitleChar(t[0], quote);
      assert forall k | 0 <= k < |head| :: head[k] !in "\"()<>";
      head + rest
  }

  /** `ReplaceAll` distributes over concatenation. */
  lemma {:induction false} ReplaceAllAppend(a: string, b: string, c: char, r: string)
    ensures ReplaceAll(a + b, c, r) == ReplaceAll(a, c, r) + ReplaceAll(b, c, r)
    decreases |a|
  {
    if a == [] {
      assert a + b == b;
    } else {
      assert (a + b)[0] == a[0] && (a + b)[1..] == a[1..] + b;
      ReplaceAllAppend(a[1..], b, c, r);
    }
  }

  /** A replacement text without `c` is left alone by the replacement of `c`. */
  lemma {:induction false} ReplaceAllAbsent(s: string, c: char, r: string)
    requires c !in s
    ensures ReplaceAll(s, c, r) == s
    decreases |s|
  {
    if s != [] {
      ReplaceAllAbsent(s[1..], c, r);
    }
  }

  /** The replacement of `c` on a one-character text. */
  lemma ReplaceAllOne(x: char, c: char, r: string)
    ensures ReplaceAll([x], c, r) == if x == c then r else [x]
  {
    assert [x][1..] == [];
  }

  /** The replacements after the one that fired leave its text alone. */
  lemma ReplaceAllAbsentAll(s: string)
    requires '"' !in s && '(' !in s && ')' !in s && '<' !in s && '>' !in s
    ensures ReplaceAll(s, '(', "&#40;") == s && ReplaceAll(s, ')', "&#41;") == s
    ensures ReplaceAll(s, '<', "&lt;") == s && ReplaceAll(s, '>', "&gt;") == s
  {
    ReplaceAllAbsent(s, '(', "&#40;");
    ReplaceAllAbsent(s, ')', "&#41;");
    ReplaceAllAbsent(s, '<', "&lt;");
    ReplaceAllAbsent(s, '>', "&gt;");
  }

  /** The chain of replacements on one character. */
  lemma TitleCharChain(c: char, quote: string)
    requires SafeReplacement(quote)
    ensures EscapeTitleChain([c], quote) == TitleChar(c, quote)
  {
    ReplaceAllOne(c, '"', quote);
    ReplaceAllOne(c, '(', "&#40;");
    ReplaceAllOne(c, ')', "&#41;");
    ReplaceAllOne(c, '<', "&lt;");
    ReplaceAllOne(c, '>', "&gt;");
    var r := TitleChar(c, quote);
    SafeTitleChar(c, quote);
    NoSpecialIn(r);
    ReplaceAllAbsentAll(r);
  }

  /** What a character of the title becomes holds none of the characters replaced. */
  lemma SafeTitleChar(c: char, quote: string)
    requires SafeReplacement(quote)
    ensures SafeReplacement(TitleChar(c, quote))
  {
  }

  /** A safe text holds none of the characters replaced. */
  lemma NoSpecialIn(r: string)
    requires SafeReplacement(r)
    ensures '"' !in r && '(' !in r && ')' !in r && '<' !in r && '>' !in r
  {
  }

  /**
   * The five global replacements made one after another escape the title
   * character by character: no replacement text holds a character a later
   * replacement looks for.
   */
  lemma {:induction false} EscapeTitleChainPerChar(t: string, quote: string)
    requires SafeReplacement(quote)
    ensures EscapeTitleChain(t, quote) == EscapeTitle(t, quote)
    decreases |t|
  {
    if t != [] {
      EscapeTitleChainPerChar(t[1..], quote);
      TitleCharChain(t[0], quote);
      assert t == [t[0]] + t[1..];
      ChainAppend([t[0]], t[1..], quote);
    }
  }

  lemma ChainAppend(a: string, b: string, quote: string)
    ensures EscapeTitleChain(a + b, quote) == EscapeTitleChain(a, quote) + EscapeTitleChain(b, quote)
  {
    var a1, b1 := ReplaceAll(a, '"', quote), ReplaceAll(b, '"', quote);
    ReplaceAllAppend(a, b, '"', quote);
    var a2, b2 := ReplaceAll(a1, '(', "&#40;"), ReplaceAll(b1, '(', "&#40;");
    ReplaceAllAppend(a1, b1, '(', "&#40;");
    var a3, b3 := ReplaceAll(a2, ')', "&#41;"), ReplaceAll(b2, ')', "&#41;");
    ReplaceAllAppend(a2, b2, ')', "&#41;");
    var a4, b4 := ReplaceAll(a3, '<', "&lt;"), ReplaceAll(b3, '<', "&lt;");
    ReplaceAllAppend(a3, b3, '<', "&lt;");
    ReplaceAllAppend(a4, b4, '>', "&gt;");
  }

  /**
   * What a browser shows for the escaped title: the five entities the
   * escaping writes are read back as their characters, anything else as it is.
   */
  function DecodeEntities(s: string): string
    decreases |s|
  {
    if s == [] then []
    else if QuoteEntity <= s then "\"" + DecodeEntities(s[|QuoteEntity|..])
    else if "&#40;" <= s then "(" + DecodeEntities(s[5..])
    else if "&#41;" <= s then ")" + DecodeEntities(s[5..])
    else if "&lt;" <= s then "<" + DecodeEntities(s[4..])
    else if "&gt;" <= s then ">" + DecodeEntities(s[4..])
    else [s[0]] + DecodeEntities(s[1..])
  }

  /** The replacements for `"` are safe for the chain. */
  lemma QuoteReplacementsSafe()
    ensures SafeReplacement(QuoteEntity) && SafeReplacement(QuoteAsWritten)
  {
  }

  /** A character other than `&` and the five escaped ones in front of `rest` is read back as itself. */
  lemma DecodePlainHead(c: char, rest: string)
    requires c != '&'
    ensures DecodeEntities([c] + rest) == [c] + DecodeEntities(rest)
  {
    var s := [c] + rest;
    assert s[0] == c && s[1..] == rest;
  }

  /** One escaped character of a title without `&` reads back as that character. */
  lemma DecodeTitleChar(c: char, rest: string)
    requires c != '&'
    ensures DecodeEntities(TitleChar(c, QuoteEntity) + rest) == [c] + DecodeEntities(rest)
  {
    var s := TitleChar(c, QuoteEntity) + rest;
    match c
    case '"' =>
      assert s[..6] == QuoteEntity && s[6..] == rest;
    case '(' =>
      assert s[1] == '#' && s[2] == '4' && s[..5] == "&#40;" && s[5..] == rest;
    case ')' =>
      assert s[1] == '#' && s[2] == '4' && s[3] == '1' && s[..5] == "&#41;" && s[5..] == rest;
    case '<' =>
      assert s[1] == 'l' && s[..4] == "&lt;" && s[4..] == rest;
    case '>' =>
      assert s[1] == 'g' && s[..4] == "&gt;" && s[4..] == rest;
    case _ => DecodePlainHead(c, rest);
  }

  /**
   * With the entity `&quot;` the escaped title of a text without `&` reads
   * back as the title itself.
   */
  lemma {:induction false} TitleEntitiesRoundTrip(t: string)
    requires '&' !in t
    ensures DecodeEntities(EscapeTitleChain(t, QuoteEntity)) == t
    decreases |t|
  {
    QuoteReplacementsSafe();
    EscapeTitleChainPerChar(t, QuoteEntity);
    if t != [] {
      TitleEntitiesRoundTrip(t[1..]);
      EscapeTitleChainPerChar(t[1..], QuoteEntity);
      DecodeTitleChar(t[0], EscapeTitle(t[1..], QuoteEntity));
    }
  }

  /**
   * As written, a `"` in the title becomes the text `quot;`, which reads
   * back as those five letters and not as a quotation mark.
   */
  lemma TitleAsWrittenLosesQuote()
    ensures EscapeTitleChain("\"", QuoteAsWritten) == "quot;"
    ensures DecodeEntities(EscapeTitleChain("\"", QuoteAsWritten)) == "quot;"
    ensures DecodeEntities(EscapeTitleChain("\"", QuoteEntity)) == "\""
  {
    QuoteReplacementsSafe();
    TitleCharChain('"', QuoteAsWritten);
    TitleCharChain('"', QuoteEntity);
    DecodePlainText();
    DecodeTitleChar('"', "");
    assert TitleChar('"', QuoteEntity) + "" == TitleChar('"', QuoteEntity);
  }

  /** The letters `quot;` are no entity and read back as themselves. */
  lemma DecodePlainText()
    ensures DecodeEntities("quot;") == "quot;"
  {
    DecodePlainHead(';', "");
    assert ";" == [';'] + "";
    DecodePlainHead('t', ";");
    assert "t;" == ['t'] + ";";
    DecodePlainHead('o', "t;");
    assert "ot;" == ['o'] + "t;";
    DecodePlainHead('u', "ot;");
    assert "uot;" == ['u'] + "ot;";
    DecodePlainHead('q', "uot;");
    assert "quot;" == ['q'] + "uot;";
  }


  // ---------------------------------------------------------------------
  // properlyEncoded: splitting the line into URL and title
  // ---------------------------------------------------------------------

  /** No line terminator in `r[a..b]`. */
  predicate OneLine(r: string, a: nat, b: nat)
    requires a <= b <= |r|
  {
    forall k | a <= k < b :: !IsLineTerminator(r[k])
  }

  /**
   * `(?:\s+"(.+)")?\s*$` with the group taken at `l`, where `t` is where the
   * trailing white space starts: white space, a quote, a title without line
   * terminators, and the quote that ends the text before its white space.
   */
  predicate TitleGroupAt(r: string, l: nat, t: nat)
    requires l < t <= |r|
  {
    var g := RunEnd(r, l, Space);
    g + 2 < t && r[g] == '"' && r[t - 1] == '"' && OneLine(r, g + 1, t - 1)
  }

  /** The lazy `(.*?)`: the first end `l` of the URL before `hi` where the title group matches. */
  function TitleStart(r: string, l: nat, hi: nat, t: nat): (res: Option<nat>)
    requires hi <= t <= |r|
    ensures res.Some? ==> l <= res.value < hi && IsSpace(r[res.value]) && TitleGroupAt(r, res.value, t)
    ensures forall m | l <= m < hi && (res.None? || m < res.value) :: !(IsSpace(r[m]) && TitleGroupAt(r, m, t))
    decreases hi - l
  {
    if l >= hi then None
    else if IsSpace(r[l]) && TitleGroupAt(r, l, t) then Some(l)
    else TitleStart(r, l + 1, hi, t)
  }

  /** The URL and, when the title group took part, the title: the captures of `^\s*(.*?)(?:\s+"(.+)")?\s*$`. */
  datatype Parts = Parts(link: string, title: Option<string>)

  /**
   * The match of `^\s*(.*?)(?:\s+"(.+)")?\s*$` on the whole text, or `None`
   * when it fails. The URL cannot pass a line terminator, so it ends at the
   * first one `f` at the latest: the title group is tried at each end up to
   * `f`, and without it only white space may follow the URL.
   */
  function SplitLinkDef(s: string): Option<Parts> {
    var r := s[LeadingRun(s, Space)..];
    var f := LineStop(r, 0);
    var t := |r| - TrailingRun(r, Space);
    match TitleStart(r, 0, Min(f + 1, t), t)
    case Some(l) => Some(Parts(r[..l], Some(r[RunEnd(r, l, Space) + 1..t - 1])))
    case None => if t <= f then Some(Parts(r[..t], None)) else None
  }

  /**
   * `properlyEncoded(linkdef)`, with `encodeURI` as a parameter; a text the
   * pattern does not match is returned as it is. A `"` in the title becomes
   * `quot;`, as the editor writes it. A URL alone, without white space, comes
   * back encoded.
   */
  function ProperlyEncoded(s: string, encodeUri: string -> string): (r: string)
    ensures NoSpace(s) ==> r == EncodeLink(s, false, encodeUri)
  {
    SplitBareLink(s);
    match SplitLinkDef(s)
    case None => s
    case Some(parts) =>
      var link := EncodeLink(parts.link, false, encodeUri);
      var title := match parts.title case Some(t) => EscapeTitleChain(Strip(t, Space), QuoteAsWritten) case None => "";
      if title == "" then link else link + " \"" + title + "\""
  }

  /** No character of `s` is white space. */
  predicate NoSpace(s: string) {
    forall k | 0 <= k < |s| :: !IsSpace(s[k])
  }

  /** A URL without white space is all of the match, with no title. */
  lemma SplitBareLink(url: string)
    ensures NoSpace(url) ==> SplitLinkDef(url) == Some(Parts(url, None))
  {
    if !NoSpace(url) {
      return;
    }
    assert LeadingRun(url, Space) == 0;
    assert url[0..] == url;
    assert TrailingRun(url, Space) == 0;
    assert LineStop(url, 0) == |url|;
    assert Min(|url| + 1, |url|) == |url|;
    assert TitleStart(url, 0, |url|, |url|).None?;
    assert url[..|url|] == url;
  }

  /** A URL without white space, one space and a quoted title on one line split into that URL and title. */
  lemma SplitTitledLink(url: string, title: string)
    requires url != [] && NoSpace(url)
    requires title != [] && forall k | 0 <= k < |title| :: !IsLineTerminator(title[k])
    ensures SplitLinkDef(url + " \"" + title + "\"") == Some(Parts(url, Some(title)))
  {
    var s := url + " \"" + title + "\"";
    var u := |url|;
    TitledChars(url, title);
    assert s[0..] == s;
    assert LeadingRun(s, Space) == 0;
    assert TrailingRun(s, Space) == 0;
    assert LineStop(s, 0) == |s|;
    RunEndAt(s, u, u + 1, Space);
    assert TitleGroupAt(s, u, |s|);
    TitleStartFirst(s, u, |s|, |s|);
  }

  /** The characters of a URL, one space and a quoted title on one line. */
  lemma TitledChars(url: string, title: string)
    requires url != [] && NoSpace(url)
    requires title != [] && forall k | 0 <= k < |title| :: !IsLineTerminator(title[k])
    ensures var s := url + " \"" + title + "\"";
            var u := |url|;
            |s| == u + 3 + |title| && OneLine(s, 0, |s|) &&
            s[..u] == url && s[u + 2..|s| - 1] == title && s[u] == ' ' && s[u + 1] == '"' && s[|s| - 1] == '"' &&
            (forall m | 0 <= m < u :: !IsSpace(s[m]))
  {
    var s := url + " \"" + title + "\"";
    var u := |url|;
    forall k | 0 <= k < |s| ensures !IsLineTerminator(s[k]) {
      if k < u { assert s[k] == url[k]; }
      else if k >= u + 2 && k < |s| - 1 { assert s[k] == title[k - u - 2]; }
    }
    forall m | 0 <= m < u ensures !IsSpace(s[m]) {
      assert s[m] == url[m];
    }
    assert s[..u] == url;
    assert s[u + 2..|s| - 1] == title;
  }

  /** The lazy URL ends at the first white space where the title group matches. */
  lemma TitleStartFirst(r: string, u: nat, hi: nat, t: nat)
    requires u < hi <= t <= |r|
    requires forall m | 0 <= m < u :: !IsSpace(r[m])
    requires IsSpace(r[u]) && TitleGroupAt(r, u, t)
    ensures TitleStart(r, 0, hi, t) == Some(u)
  {
  }

  /** `properlyEncoded` on a URL with a title: the URL encoded, the trimmed title escaped, in quotes after one space. */
  lemma ProperlyEncodedTitled(url: string, title: string, encodeUri: string -> string)
    requires url != [] && NoSpace(url)
    requires title != [] && forall k | 0 <= k < |title| :: !IsLineTerminator(title[k])
    requires EscapeTitle(Strip(title, Space), QuoteAsWritten) != ""
    ensures ProperlyEncoded(url + " \"" + title + "\"", encodeUri) ==
            EncodeLink(url, false, encodeUri) + " \"" + EscapeTitle(Strip(title, Space), QuoteAsWritten) + "\""
  {
    SplitTitledLink(url, title);
    QuoteReplacementsSafe();
    EscapeTitleChainPerChar(Strip(title, Space), QuoteAsWritten);
  }

  // ---------------------------------------------------------------------
  // linkEnteredCallback
  // ---------------------------------------------------------------------

  /** The link starts with one of the protocols `linkEnteredCallback` accepts. */
  predicate HasScheme(s: string) {
    "http://" <= s || "https://" <= s || "ftp://" <= s
  }

  /** `http://` pasted in front of a link that already has its protocol. */
  predicate Doubled(link: string) {
    "http://" <= link && HasScheme(link[7..])
  }

  /**
   * The pasting fixes of `linkEnteredCallback`: `http://` in front of another
   * protocol is dropped, and `http://` is put in front of a link without one.
   */
  function FixProtocol(link: string): (r: string)
    ensures HasScheme(r)
    ensures HasScheme(link) && !Doubled(link) ==> r == link
    ensures !HasScheme(link) ==> r == "http://" + link
    ensures Doubled(link) ==> "http://" + r == link
  {
    var fixed := if Doubled(link) then link[7..] else link;
    if HasScheme(fixed) then fixed else "http://" + fixed
  }

  /** The first `[` at or after `i`, or `|s|`. */
  function FirstOpen(s: string, i: nat): (k: nat)
    requires i <= |s|
    ensures i <= k <= |s| && (k < |s| ==> s[k] == '[')
    ensures forall m | i <= m < k :: s[m] != '['
    decreases |s| - i
  {
    if i == |s| || s[i] == '[' then i else FirstOpen(s, i + 1)
  }

  /** `startTag.replace(/!?\[/, "")`: the first `[`, and a `!` just before it, are removed. */
  function DropLinkOpen(s: string): string {
    var k := FirstOpen(s, 0);
    if k == |s| then s
    else if k > 0 && s[k - 1] == '!' then s[..k - 1] + s[k + 1..]
    else s[..k] + s[k + 1..]
  }

  /** Removing the link from a start tag `findTags` matched leaves the white space in front of it. */
  lemma DropLinkOpenLeavesSpace(w: string, bang: bool)
    requires All(w, Space)
    ensures DropLinkOpen(w + (if bang then "![" else "[")) == w
  {
    var s := w + (if bang then "![" else "[");
    var k := |s| - 1;
    assert s[k] == '[';
    forall m | 0 <= m < k ensures s[m] != '[' {
      if m < |w| { assert s[m] == w[m] && In(w[m], Space); }
    }
    assert FirstOpen(s, 0) == k;
    assert s[..|w|] == w;
  }

  /** The texts `linkEnteredCallback` puts for an empty selection. */
  function DescriptionId(image: bool): string {
    if image then "imagedescription" else "linkdescription"
  }

  /** The definition the dialog's link becomes before `addLinkDef` renumbers it. */
  function DialogDef(link: string, encodeUri: string -> string): string {
    " [999]: " + ProperlyEncoded(FixProtocol(link), encodeUri)
  }

  /**
   * The chunk `linkEnteredCallback(link, which, chunk)` leaves: a non-empty
   * link is added as a definition and the selection is marked up as a
   * reference to it; an empty one removes the link; `None` (the dialog
   * cancelled) changes nothing.
   */
  function LinkEntered(x: Regions, link: Option<string>, image: bool, strings: map<string, string>,
                       encodeUri: string -> string): Regions {
    match link
    case None => x
    case Some(l) =>
      if l == "" then Unlinked(x)
      else Linked(x, DialogDef(l, encodeUri), image, strings)
  }

  /** The chunk once the link is removed: the start tag loses its `[`, the end tag goes. */
  function Unlinked(x: Regions): Regions {
    AddLinkDefSpec(Regions(x.before, DropLinkOpen(x.startTag), x.selection, "", x.after), None).0
  }

  /** The chunk once the definition `def` is added and the selection marked up as a reference to it. */
  function Linked(x: Regions, def: string, image: bool, strings: map<string, string>): Regions {
    ReferenceTo(AddLinkDefSpec(x.(selection := EscapeBrackets(x.selection)), Some(def)), image, strings)
  }

  /** The chunk `addLinkDef` left, marked up as a reference to the number it returned. */
  function ReferenceTo(added: (Regions, nat), image: bool, strings: map<string, string>): Regions {
    var z := added.0;
    Regions(z.before, if image then "![" else "[",
            if z.selection == "" then GetString(strings, DescriptionId(image)) else z.selection,
            "][" + NatToString(added.1) + "]", z.after)
  }

  /** The dialog's text is a definition label ` [999]:` followed by `" " + p`. */
  lemma DialogLabelAt(p: string)
    ensures LabelAt(" [999]: " + p, 0) == Some(Label("999", 7))
  {
    var d := " [999]: " + p;
    assert d[0] == ' ' && d[1] == '[' && d[5] == ']' && d[6] == ':';
    assert d[2..5] == "999";
    assert RunEnd(d, 0, Only(' ')) == 1 by {
      assert RunEnd(d, 1, Only(' ')) == 1;
    }
    RunEndDigits(d, 2, 3);
  }

  /** `Renumbered` replaces the dialog's label ` [999]:` by `  [n]:`. */
  lemma DialogLabel(p: string, n: nat)
    ensures LabelAt(" [999]: " + p, 0).Some?
    ensures Renumbered(" [999]: " + p, n) == NumberLabel(n) + " " + p
  {
    var d := " [999]: " + p;
    DialogLabelAt(p);
    assert d[7..] == " " + p;
    assert Renumbered(d, n) == "  [" + NatToString(n) + "]:" + d[7..];
  }

  /** The reference made from a finished `addLinkDef` whose returned number is the line `NumberLabel(refOut) + " " + p`. */
  lemma ReferenceLayout(y: Regions, st: Stages, p: string, image: bool, strings: map<string, string>)
    requires 1 <= st.refOut <= |st.defs| && st.defs[st.refOut - 1] == NumberLabel(st.refOut) + " " + p
    ensures var r := ReferenceTo(Finished(y, st), image, strings);
            r.startTag == (if image then "![" else "[") && r.endTag == "][" + NatToString(st.refOut) + "]" &&
            r.selection != "" &&
            r.after == DropTrailingNewlines(st.after) + "\n\n" + Render(st.defs[..st.refOut - 1]) + "\n" +
                       NumberLabel(st.refOut) + " " + p + Render(st.defs[st.refOut..])
  {
    FinishedAround(y, st);
    DescriptionNotEmpty(strings, image);
    var r := ReferenceTo(Finished(y, st), image, strings);
    var pre := DropTrailingNewlines(st.after) + "\n\n" + Render(st.defs[..st.refOut - 1]) + "\n";
    LineInPlace(pre, NumberLabel(st.refOut), p, Render(st.defs[st.refOut..]));
  }

  /** A definition line written out in place, between what comes before it and after it. */
  lemma LineInPlace(pre: string, head: string, p: string, post: string)
    ensures pre + (head + " " + p) + post == pre + head + " " + p + post
  {
  }

  /**
   * After a definition is added, the chunk is marked up as a reference whose
   * number is the one of the definition line, which holds what followed the
   * dialog's label; the link text is never left empty.
   */
  lemma LinkedReference(x: Regions, p: string, image: bool, strings: map<string, string>)
    ensures var r := Linked(x, " [999]: " + p, image, strings);
            var st := AddLinkDefStages(x.(selection := EscapeBrackets(x.selection)), Some(" [999]: " + p));
            1 <= st.refOut <= |st.defs| &&
            r.startTag == (if image then "![" else "[") && r.endTag == "][" + NatToString(st.refOut) + "]" &&
            r.selection != "" &&
            r.after == DropTrailingNewlines(st.after) + "\n\n" + Render(st.defs[..st.refOut - 1]) + "\n" +
                       NumberLabel(st.refOut) + " " + p + Render(st.defs[st.refOut..])
  {
    ReferenceToDialog(x.(selection := EscapeBrackets(x.selection)), p, image, strings);
  }

  /** `LinkedReference` for the chunk whose selection has already been escaped. */
  lemma ReferenceToDialog(y: Regions, p: string, image: bool, strings: map<string, string>)
    ensures var d := " [999]: " + p;
            var r := ReferenceTo(AddLinkDefSpec(y, Some(d)), image, strings);
            var st := AddLinkDefStages(y, Some(d));
            1 <= st.refOut <= |st.defs| &&
            r.startTag == (if image then "![" else "[") && r.endTag == "][" + NatToString(st.refOut) + "]" &&
            r.selection != "" &&
            r.after == DropTrailingNewlines(st.after) + "\n\n" + Render(st.defs[..st.refOut - 1]) + "\n" +
                       NumberLabel(st.refOut) + " " + p + Render(st.defs[st.refOut..])
  {
    var d := " [999]: " + p;
    var st := AddLinkDefStages(y, Some(d));
    DialogLabel(p, st.refOut);
    AddLinkDefNumbering(y, Some(d));
    ReferenceLayout(y, st, p, image, strings);
  }

  /** The link entered in the dialog ends up encoded on the definition line the new reference points to. */
  lemma LinkEnteredReference(x: Regions, link: string, image: bool, strings: map<string, string>,
                             encodeUri: string -> string)
    requires link != ""
    ensures var p := ProperlyEncoded(FixProtocol(link), encodeUri);
            var r := LinkEntered(x, Some(link), image, strings, encodeUri);
            var st := AddLinkDefStages(x.(selection := EscapeBrackets(x.selection)), Some(" [999]: " + p));
            1 <= st.refOut <= |st.defs| &&
            r.endTag == "][" + NatToString(st.refOut) + "]" &&
            r.after == DropTrailingNewlines(st.after) + "\n\n" + Render(st.defs[..st.refOut - 1]) + "\n" +
                       NumberLabel(st.refOut) + " " + p + Render(st.defs[st.refOut..])
  {
    LinkedReference(x, ProperlyEncoded(FixProtocol(link), encodeUri), image, strings);
  }

  /**
   * The link entered in the dialog is what `getLinkDef` reads back from the
   * reference it became: the new reference's number leads to the definition
   * line holding the encoded link, when that link is one non-blank line and
   * the label `[n]:` does not occur in the text before that line.
   */
  lemma LinkEnteredReadsBack(x: Regions, link: string, image: bool, strings: map<string, string>,
                             encodeUri: string -> string)
    requires link != ""
    requires var p := ProperlyEncoded(FixProtocol(link), encodeUri);
             p != "" && !IsSpace(p[0]) && forall k | 0 <= k < |p| :: !IsLineTerminator(p[k])
    requires var st := AddLinkDefStages(x.(selection := EscapeBrackets(x.selection)),
                                        Some(DialogDef(link, encodeUri)));
             1 <= st.refOut <= |st.defs| ==>
             !Contains(DropTrailingNewlines(st.after) + "\n\n" + Render(st.defs[..st.refOut - 1]) + "\n",
                       "[" + NatToString(st.refOut) + "]:")
    ensures GetLinkDef(LinkEntered(x, Some(link), image, strings, encodeUri)) ==
            ProperlyEncoded(FixProtocol(link), encodeUri)
  {
    var p := ProperlyEncoded(FixProtocol(link), encodeUri);
    assert DialogDef(link, encodeUri) == " [999]: " + p;
    var st := AddLinkDefStages(x.(selection := EscapeBrackets(x.selection)), Some(" [999]: " + p));
    LinkEnteredReference(x, link, image, strings, encodeUri);
    ReferenceReadsBack(LinkEntered(x, Some(link), image, strings, encodeUri), st, p);
  }

  /** A reference laid out as `addLinkDef` leaves it reads back the definition on its line. */
  lemma ReferenceReadsBack(r: Regions, st: Stages, p: string)
    requires p != "" && !IsSpace(p[0]) && forall k | 0 <= k < |p| :: !IsLineTerminator(p[k])
    requires 1 <= st.refOut <= |st.defs|
    requires !Contains(DropTrailingNewlines(st.after) + "\n\n" + Render(st.defs[..st.refOut - 1]) + "\n",
                       "[" + NatToString(st.refOut) + "]:")
    requires r.endTag == "][" + NatToString(st.refOut) + "]"
    requires r.after == DropTrailingNewlines(st.after) + "\n\n" + Render(st.defs[..st.refOut - 1]) + "\n" +
                        NumberLabel(st.refOut) + " " + p + Render(st.defs[st.refOut..])
    ensures GetLinkDef(r) == p
  {
    var pre := DropTrailingNewlines(st.after) + "\n\n" + Render(st.defs[..st.refOut - 1]) + "\n";
    GetLinkDefReadsBack(r, st.refOut, pre, p, Render(st.defs[st.refOut..]));
  }

  /** The description texts are never empty. */
  lemma DescriptionNotEmpty(strings: map<string, string>, image: bool)
    ensures GetString(strings, DescriptionId(image)) != ""
  {
  }

  /** `linkEnteredCallback(link, which, chunk)` followed by `finish(chunk)`. */
  method LinkEnteredCallback(state: TextareaState, chunk: Chunk, link: Option<string>, image: bool,
                             strings: map<string, string>, encodeUri: string -> string)
    modifies state, chunk
    ensures state.Value() == StateOf(LinkEntered(old(chunk.Value()), link, image, strings, encodeUri), old(chunk.scrollTop))
  {
    if link.Some? && link.value != "" {
      MakeReference(chunk, DialogDef(link.value, encodeUri), image, strings);
    } else if link.Some? {
      RemoveLink(chunk);
    }
    state.SetChunks(chunk);
  }

  /** The branch of `linkEnteredCallback` for a non-empty link: the definition added, the selection made a reference to it. */
  method MakeReference(chunk: Chunk, linkDef: string, image: bool, strings: map<string, string>)
    modifies chunk
    ensures chunk.Value() == Linked(old(chunk.Value()), linkDef, image, strings)
    ensures chunk.scrollTop == old(chunk.scrollTop)
  {
    chunk.selection := EscapeBrackets(chunk.selection);
    var num := AddLinkDef(chunk, Some(linkDef));
    MarkReference(chunk, num, image, strings);
  }

  /** The chunk `addLinkDef` left marked up as a reference to the number `num` it returned. */
  method MarkReference(chunk: Chunk, num: nat, image: bool, strings: map<string, string>)
    modifies chunk
    ensures chunk.Value() == ReferenceTo((old(chunk.Value()), num), image, strings)
    ensures chunk.scrollTop == old(chunk.scrollTop)
  {
    chunk.startTag := if image then "![" else "[";
    chunk.endTag := "][" + NatToString(num) + "]";
    if chunk.selection == "" {
      chunk.selection := GetString(strings, DescriptionId(image));
    }
  }

  /** The branch of `linkEnteredCallback` for an empty link: the link markup removed. */
  method RemoveLink(chunk: Chunk)
    modifies chunk
    ensures chunk.Value() == Unlinked(old(chunk.Value()))
    ensures chunk.scrollTop == old(chunk.scrollTop)
  {
    chunk.startTag := DropLinkOpen(chunk.startTag);
    chunk.endTag := "";
    var _ := AddLinkDef(chunk, None);
  }

  // ---------------------------------------------------------------------
  // linkOrImage
  // ---------------------------------------------------------------------

  /** The chunk `linkOrImage` works on: white space trimmed off the selection, then the link tags found. */
  function LinkChunk(st: State): Regions {
    FindTagsSpec(TrimWhitespaceSpec(RegionsOf(st), false), LinkOpen, LinkClose)
  }

  /** `findTags` found a link around the selection. */
  predicate Found(x: Regions) {
    |x.endTag| > 1 && |x.startTag| > 0
  }

  /** The tags `findTags` found, moved back into the selection. */
  function Folded(x: Regions): Regions {
    Regions(x.before, "", x.startTag + x.selection + x.endTag, "", x.after)
  }

  /**
   * `linkOrImage(which)` with the link the dialog returns as a parameter: the
   * new state, and the text the dialog is opened with (`None` when no dialog
   * is opened because the selection holds a blank line).
   */
  function LinkOrImageSpec(st: State, image: bool, strings: map<string, string>, encodeUri: string -> string,
                           link: Option<string>): (State, Option<string>) {
    LinkOrImageOn(LinkChunk(st), st, image, strings, encodeUri, link)
  }

  /** `linkOrImage` once the tags of the chunk `x` of the state `st` are found. */
  function LinkOrImageOn(x: Regions, st: State, image: bool, strings: map<string, string>, encodeUri: string -> string,
                         link: Option<string>): (State, Option<string>) {
    if Found(x) then
      (StateOf(LinkEntered(x, link, image, strings, encodeUri), st.scrollTop), Some(GetLinkDefAsWritten(x)))
    else if Contains(Folded(x).selection, "\n\n") then (st, None)
    else (StateOf(LinkEntered(Folded(x), link, image, strings, encodeUri), st.scrollTop), Some(""))
  }

  method LinkOrImage(state: TextareaState, image: bool, strings: map<string, string>, encodeUri: string -> string,
                     link: Option<string>) returns (prefill: Option<string>)
    modifies state
    ensures (state.Value(), prefill) == LinkOrImageSpec(old(state.Value()), image, strings, encodeUri, link)
  {
    var chunk := state.GetChunks();
    chunk.TrimWhitespace(false);
    chunk.FindTags(LinkOpen, LinkClose);
    prefill := Prompt(state, chunk, image, strings, encodeUri, link);
  }

  /** The part of `linkOrImage` after `findTags`: the dialog is opened, or the blank line stops it. */
  method Prompt(state: TextareaState, chunk: Chunk, image: bool, strings: map<string, string>, encodeUri: string -> string,
                link: Option<string>) returns (prefill: Option<string>)
    requires chunk.scrollTop == state.Value().scrollTop
    modifies state, chunk
    ensures (state.Value(), prefill) == LinkOrImageOn(old(chunk.Value()), old(state.Value()), image, strings, encodeUri, link)
  {
    if |chunk.endTag| > 1 && |chunk.startTag| > 0 {
      prefill := Some(GetLinkDefAsWritten(chunk.Value()));
      LinkEnteredCallback(state, chunk, link, image, strings, encodeUri);
    } else {
      FoldTags(chunk);
      if Contains(chunk.selection, "\n\n") {
        var _ := AddLinkDef(chunk, None);
        prefill := None;
        return;
      }
      prefill := Some("");
      LinkEnteredCallback(state, chunk, link, image, strings, encodeUri);
    }
  }

  /** The tags `findTags` found put back into the selection. */
  method FoldTags(chunk: Chunk)
    modifies chunk
    ensures chunk.Value() == Folded(old(chunk.Value()))
    ensures chunk.scrollTop == old(chunk.scrollTop)
  {
    chunk.selection := chunk.startTag + chunk.selection + chunk.endTag;
    chunk.startTag, chunk.endTag := "", "";
  }

  /**
   * Cancelling the dialog leaves the text as it was (the selection may
   * change), whenever `findTags` keeps the text of the chunk.
   */
  lemma LinkOrImageCancelKeepsText(st: State, image: bool, strings: map<string, string>, encodeUri: string -> string)
    requires '\r' !in st.text && 0 <= st.start <= st.end <= |st.text|
    requires var x := TrimWhitespaceSpec(RegionsOf(st), false);
             MatchAtStart(LinkClose, x.after) == 0 || MatchAtEnd(LinkClose, x.selection[MatchAtStart(LinkOpen, x.selection)..]) == 0
    ensures LinkOrImageSpec(st, image, strings, encodeUri, None).0.text == st.text
  {
    RegionsOfText(st);
    LinkChunkText(RegionsOf(st));
    CancelOn(LinkChunk(st), st, image, strings, encodeUri);
  }

  /** A state without carriage returns is cut into regions that make up its text. */
  lemma RegionsOfText(st: State)
    requires '\r' !in st.text && 0 <= st.start <= st.end <= |st.text|
    ensures RegionsOf(st).Text() == st.text
  {
    var x := RegionsOf(st);
    ThreeSlices(st.text, st.start, st.end);
    assert x.Text() == x.before + "" + x.selection + "" + x.after;
  }

  lemma ThreeSlices(t: string, a: nat, b: nat)
    requires a <= b <= |t|
    ensures t[..a] + "" + t[a..b] + "" + t[b..] == t
  {
    assert t == t[..a] + t[a..b] + t[b..];
  }

  /** Trimming and finding the link tags keep the text when `findTags` does not reorder it. */
  lemma LinkChunkText(x0: Regions)
    requires x0.startTag == [] && x0.endTag == []
    requires var x := TrimWhitespaceSpec(x0, false);
             MatchAtStart(LinkClose, x.after) == 0 || MatchAtEnd(LinkClose, x.selection[MatchAtStart(LinkOpen, x.selection)..]) == 0
    ensures FindTagsSpec(TrimWhitespaceSpec(x0, false), LinkOpen, LinkClose).Text() == x0.Text()
  {
    TrimWhitespaceKeepsText(x0);
    FindTagsKeepsText(TrimWhitespaceSpec(x0, false), LinkOpen, LinkClose);
  }

  /** Cancelling leaves the state alone or writes the text of the chunk back. */
  lemma CancelOn(x: Regions, st: State, image: bool, strings: map<string, string>, encodeUri: string -> string)
    ensures var r := LinkOrImageOn(x, st, image, strings, encodeUri, None).0;
            r == st || r.text == x.Text()
  {
    assert Folded(x).Text() == x.Text();
  }
}
