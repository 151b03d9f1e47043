/**
 * The string primitives the sharing code relies on, with the JavaScript
 * meaning they have in the source: `trim`, `toLowerCase`, the `\w` and `\s`
 * regular-expression classes, `split(/\s+/)` and decimal rendering of numbers.
 */
module Text {

  /** A non-empty run of white space, as `\s+` matches. */
  predicate IsSpaceRun(t: string) {
    t != [] && forall j :: 0 <= j < |t| ==> IsSpace(t[j])
  }

  /** JavaScript's white space and line terminators: what `\s` matches and `trim` removes. */
  predicate IsSpace(c: char) {
    c == ' ' || c == '\t' || c == '\n' || c == '\U{000B}' || c == '\U{000C}' || c == '\r'
    || c == '\U{00A0}' || c == '\U{1680}' || ('\U{2000}' <= c <= '\U{200A}')
    || c == '\U{2028}' || c == '\U{2029}' || c == '\U{202F}' || c == '\U{205F}'
    || c == '\U{3000}' || c == '\U{FEFF}'
  }

  /** The regular-expression class `\w`: ASCII letters, digits and underscore. */
  predicate IsWordChar(c: char) {
    ('a' <= c <= 'z') || ('A' <= c <= 'Z') || ('0' <= c <= '9') || c == '_'
  }

  predicate NoSpaceIn(s: string) {
    forall i :: 0 <= i < |s| ==> !IsSpace(s[i])
  }

  /** `s` without its leading white space. */
  function TrimStart(s: string): (r: string)
    ensures |r| <= |s|
    decreases |s|
  {
    if s != [] && IsSpace(s[0]) then TrimStart(s[1..]) else s
  }

  /**
   * TrimStart removes a prefix made only of white space and keeps a suffix
   * that does not begin with white space.
   */
  lemma {:induction false} TrimStartShape(s: string)
    ensures var r := TrimStart(s); r == s[|s| - |r|..] && (r == [] || !IsSpace(r[0]))
    ensures forall i :: 0 <= i < |s| - |TrimStart(s)| ==> IsSpace(s[i])
    ensures s != [] && IsSpace(s[0]) ==> |TrimStart(s)| < |s|
    decreases |s|
  {
    if s != [] && IsSpace(s[0]) {
      TrimStartShape(s[1..]);
      assert forall i :: 1 <= i < |s| ==> s[i] == s[1..][i - 1];
    }
  }

  /** `s` without its trailing white space. */
  function TrimEnd(s: string): (r: string)
    ensures |r| <= |s|
    decreases |s|
  {
    if s != [] && IsSpace(s[|s| - 1]) then TrimEnd(s[..|s| - 1]) else s
  }

  /**
   * TrimEnd removes a suffix made only of white space and keeps a prefix
   * that does not end with white space.
   */
  lemma {:induction false} TrimEndShape(s: string)
    ensures var r := TrimEnd(s); r == s[..|r|] && (r == [] || !IsSpace(r[|r| - 1]))
    ensures forall i :: |TrimEnd(s)| <= i < |s| ==> IsSpace(s[i])
    decreases |s|
  {
    if s != [] && IsSpace(s[|s| - 1]) {
      TrimEndShape(s[..|s| - 1]);
      assert forall i :: 0 <= i < |s| - 1 ==> s[i] == s[..|s| - 1][i];
    }
  }

  /** Leading white space makes no difference to TrimStart. */
  lemma {:induction false} TrimStartPadding(pad: string, s: string)
    requires forall i :: 0 <= i < |pad| ==> IsSpace(pad[i])
    ensures TrimStart(pad + s) == TrimStart(s)
    decreases |pad|
  {
    if pad != [] {
      assert (pad + s)[0] == pad[0];
      assert (pad + s)[1..] == pad[1..] + s;
      assert forall i :: 0 <= i < |pad| - 1 ==> pad[1..][i] == pad[i + 1];
      TrimStartPadding(pad[1..], s);
    } else {
      assert pad + s == s;
    }
  }

  /** Trailing white space makes no difference to TrimEnd. */
  lemma {:induction false} TrimEndPadding(s: string, pad: string)
    requires forall i :: 0 <= i < |pad| ==> IsSpace(pad[i])
    ensures TrimEnd(s + pad) == TrimEnd(s)
    decreases |pad|
  {
    if pad != [] {
      assert (s + pad)[|s + pad| - 1] == pad[|pad| - 1];
      assert (s + pad)[..|s + pad| - 1] == s + pad[..|pad| - 1];
      assert forall i :: 0 <= i < |pad| - 1 ==> pad[..|pad| - 1][i] == pad[i];
      TrimEndPadding(s, pad[..|pad| - 1]);
    } else {
      assert s + pad == s;
    }
  }

  /** `String.prototype.trim`. */
  function Trim(s: string): string {
    TrimEnd(TrimStart(s))
  }

  /** Trimming a string padded with white space on both sides gives back its text, when that text starts and ends with other characters. */
  lemma TrimPadded(left: string, text: string, right: string)
    requires forall i :: 0 <= i < |left| ==> IsSpace(left[i])
    requires forall i :: 0 <= i < |right| ==> IsSpace(right[i])
    requires text != [] && !IsSpace(text[0]) && !IsSpace(text[|text| - 1])
    ensures Trim(left + text + right) == text
  {
    assert left + text + right == left + (text + right);
    TrimStartPadding(left, text + right);
    assert TrimStart(text + right) == text + right;
    TrimEndPadding(text, right);
  }

  /** Trimming a trimmed string changes nothing. */
  lemma TrimIdempotent(s: string)
    ensures Trim(Trim(s)) == Trim(s)
  {
    var u := TrimStart(s);
    var t := TrimEnd(u);
    TrimStartShape(s);
    TrimEndShape(u);
    if t != [] {
      assert t[0] == u[0];
      assert TrimStart(t) == t;
      TrimEndShape(t);
    }
  }

  /** Trim removes only white space: it is empty exactly when the string is all white space. */
  lemma {:induction false} TrimEmptyIffAllSpace(s: string)
    ensures Trim(s) == [] <==> forall i :: 0 <= i < |s| ==> IsSpace(s[i])
    decreases |s|
  {
    if s != [] && IsSpace(s[0]) {
      TrimEmptyIffAllSpace(s[1..]);
      assert forall i :: 1 <= i < |s| ==> s[i] == s[1..][i - 1];
    } else if s != [] {
      assert TrimStart(s) == s;
      TrimEndKeepsNonSpaceHead(s);
    }
  }

  lemma {:induction false} TrimEndKeepsNonSpaceHead(s: string)
    requires s != [] && !IsSpace(s[0])
    ensures TrimEnd(s) != []
    decreases |s|
  {
    if IsSpace(s[|s| - 1]) {
      TrimEndKeepsNonSpaceHead(s[..|s| - 1]);
    }
  }

  /** `toLowerCase` on one character, for the ASCII letters. */
  function LowerChar(c: char): char {
    if 'A' <= c <= 'Z' then (c as int - 'A' as int + 'a' as int) as char else c
  }

  /**
   * `String.prototype.toLowerCase`, restricted to ASCII case mapping: the
   * result has no upper-case letter left, and every other character is kept
   * where it was.
   */
  function ToLower(s: string): (r: string)
    ensures |r| == |s| && forall i :: 0 <= i < |s| ==> r[i] == LowerChar(s[i])
    ensures forall i :: 0 <= i < |r| ==> !('A' <= r[i] <= 'Z')
    ensures forall i :: 0 <= i < |s| && !('A' <= s[i] <= 'Z') ==> r[i] == s[i]
  {
    seq(|s|, i requires 0 <= i < |s| => LowerChar(s[i]))
  }

  /** Lower-casing a lower-cased string changes nothing. */
  lemma ToLowerIdempotent(s: string)
    ensures ToLower(ToLower(s)) == ToLower(s)
  {
  }

  /** A character `s.replace(/[^\w\s]/g, '')` keeps. */
  predicate IsKept(c: char) {
    IsWordChar(c) || IsSpace(c)
  }

  /**
   * `s.replace(/[^\w\s]/g, '')`: keep only word characters and white space.
   * Only kept characters remain, a string of kept characters is unchanged, and
   * one without any becomes empty; with KeepWordAndSpaceAppend this fixes the
   * result: the kept characters of `s`, in order.
   */
  function KeepWordAndSpace(s: string): (r: string)
    ensures forall i :: 0 <= i < |r| ==> IsKept(r[i])
    ensures (forall i :: 0 <= i < |s| ==> IsKept(s[i])) ==> r == s
    ensures (forall i :: 0 <= i < |s| ==> !IsKept(s[i])) ==> r == []
    ensures |r| <= |s|
  {
    if s == [] then []
    else if IsKept(s[0]) then
      assert forall i :: 1 <= i < |s| ==> s[1..][i - 1] == s[i];
      [s[0]] + KeepWordAndSpace(s[1..])
    else
      assert forall i :: 1 <= i < |s| ==> s[1..][i - 1] == s[i];
      KeepWordAndSpace(s[1..])
  }

  /** Filtering a concatenation filters each part: characters keep their order. */
  lemma {:induction false} KeepWordAndSpaceAppend(a: string, b: string)
    ensures KeepWordAndSpace(a + b) == KeepWordAndSpace(a) + KeepWordAndSpace(b)
  {
    if a == [] {
      assert a + b == b;
    } else {
      assert (a + b)[1..] == a[1..] + b;
      KeepWordAndSpaceAppend(a[1..], b);
    }
  }

  /** Index of the first white-space character of `s`, or `|s|` when there is none. */
  function FirstSpace(s: string): (i: nat)
    ensures i <= |s|
    ensures forall j :: 0 <= j < i ==> !IsSpace(s[j])
    ensures i < |s| ==> IsSpace(s[i])
  {
    if s == [] || IsSpace(s[0]) then 0 else 1 + FirstSpace(s[1..])
  }

  /**
   * `s.split(/\s+/)`: the pieces between maximal runs of white space. A
   * leading or trailing run yields an empty first or last piece, and the
   * empty string yields one empty piece.
   */
  function SplitOnSpaces(s: string): (r: seq<string>)
    ensures |r| >= 1
    ensures forall k :: 0 <= k < |r| ==> NoSpaceIn(r[k])
    decreases |s|
  {
    var i := FirstSpace(s);
    if i == |s| then [s]
    else
      TrimStartShape(s[i..]);
      [s[..i]] + SplitOnSpaces(TrimStart(s[i..]))
  }

  /** The white-space runs SplitOnSpaces splits at, in order. */
  ghost function SpaceRuns(s: string): seq<string>
    decreases |s|
  {
    var i := FirstSpace(s);
    if i == |s| then []
    else
      TrimStartShape(s[i..]);
      var rest := TrimStart(s[i..]);
      [s[i..|s| - |rest|]] + SpaceRuns(rest)
  }

  /** Pieces joined with the separators between them: `pieces[0] + seps[0] + pieces[1] + …`. */
  ghost function Interleave(pieces: seq<string>, seps: seq<string>): string
    requires |pieces| == |seps| + 1
    decreases |seps|
  {
    if seps == [] then pieces[0] else pieces[0] + seps[0] + Interleave(pieces[1..], seps[1..])
  }

  /** SplitOnSpaces and SpaceRuns take one step together: a piece, a run, and the rest. */
  lemma SplitStep(s: string)
    requires FirstSpace(s) < |s|
    ensures var i := FirstSpace(s); var rest := TrimStart(s[i..]);
      |rest| < |s| - i
      && SplitOnSpaces(s) == [s[..i]] + SplitOnSpaces(rest)
      && SpaceRuns(s) == [s[i..|s| - |rest|]] + SpaceRuns(rest)
      && s == s[..i] + s[i..|s| - |rest|] + rest
      && (rest == [] || !IsSpace(rest[0]))
      && forall j :: i <= j < |s| - |rest| ==> IsSpace(s[j])
  {
    SplitStepPieces(s);
    SplitStepShape(s);
  }

  lemma SplitStepPieces(s: string)
    requires FirstSpace(s) < |s|
    ensures var i := FirstSpace(s); var rest := TrimStart(s[i..]);
      |rest| < |s| - i
      && SplitOnSpaces(s) == [s[..i]] + SplitOnSpaces(rest)
      && SpaceRuns(s) == [s[i..|s| - |rest|]] + SpaceRuns(rest)
  {
    TrimStartShape(s[FirstSpace(s)..]);
  }

  lemma SplitStepShape(s: string)
    requires FirstSpace(s) < |s|
    ensures var i := FirstSpace(s); var rest := TrimStart(s[i..]);
      |rest| < |s| - i
      && s == s[..i] + s[i..|s| - |rest|] + rest
      && (rest == [] || !IsSpace(rest[0]))
      && forall j :: i <= j < |s| - |rest| ==> IsSpace(s[j])
  {
    RunThenRest(s, FirstSpace(s));
  }

  /** After a white-space character at `i`, `s` is a prefix, a white-space run, and the trimmed rest. */
  lemma RunThenRest(s: string, i: nat)
    requires i < |s| && IsSpace(s[i])
    ensures var rest := TrimStart(s[i..]);
      |rest| < |s| - i
      && s == s[..i] + s[i..|s| - |rest|] + rest
      && (rest == [] || !IsSpace(rest[0]))
      && forall j :: i <= j < |s| - |rest| ==> IsSpace(s[j])
  {
    var tail := s[i..];
    TrimStartShape(tail);
    var rest := TrimStart(tail);
    var k := |s| - |rest|;
    assert rest == tail[|tail| - |rest|..] == s[k..];
    assert s == s[..i] + s[i..k] + s[k..];
    forall j | i <= j < k
      ensures IsSpace(s[j])
    {
      assert s[j] == tail[j - i];
    }
  }

  /** Joined with the runs between them, the pieces give the string back. */
  lemma {:induction false} SplitRejoins(s: string)
    ensures |SplitOnSpaces(s)| == |SpaceRuns(s)| + 1
    ensures Interleave(SplitOnSpaces(s), SpaceRuns(s)) == s
    decreases |s|
  {
    var i := FirstSpace(s);
    if i < |s| {
      SplitStep(s);
      var rest := TrimStart(s[i..]);
      SplitRejoins(rest);
      var r, seps := SplitOnSpaces(s), SpaceRuns(s);
      assert r[0] == s[..i] && r[1..] == SplitOnSpaces(rest);
      assert seps[0] == s[i..|s| - |rest|] && seps[1..] == SpaceRuns(rest);
    }
  }

  /** Every run split at is non-empty and all white space. */
  lemma {:induction false} SpaceRunsAreSpace(s: string)
    ensures forall k :: 0 <= k < |SpaceRuns(s)| ==>
      IsSpaceRun(SpaceRuns(s)[k])
    decreases |s|
  {
    var i := FirstSpace(s);
    if i < |s| {
      RunThenRest(s, i);
      var rest := TrimStart(s[i..]);
      SpaceRunsAreSpace(rest);
      var run := s[i..|s| - |rest|];
      var runs := SpaceRuns(s);
      assert runs == [run] + SpaceRuns(rest);
      assert IsSpaceRun(run) by {
        forall j | 0 <= j < |run|
          ensures IsSpace(run[j])
        {
          assert run[j] == s[i + j];
        }
      }
      forall k | 0 < k < |runs|
        ensures IsSpaceRun(runs[k])
      {
        assert runs[k] == SpaceRuns(rest)[k - 1];
      }
    }
  }

  /** Only the first and the last piece can be empty. */
  lemma {:induction false} InnerPiecesNonEmpty(s: string)
    ensures forall k :: 0 < k < |SplitOnSpaces(s)| - 1 ==> SplitOnSpaces(s)[k] != []
    ensures s != [] && !IsSpace(s[0]) ==> SplitOnSpaces(s)[0] != []
    decreases |s|
  {
    var i := FirstSpace(s);
    if i < |s| {
      SplitStep(s);
      var rest := TrimStart(s[i..]);
      InnerPiecesNonEmpty(rest);
      var r' := SplitOnSpaces(rest);
      if |r'| > 1 {
        assert rest != [];
      }
      assert forall k :: 0 < k < |SplitOnSpaces(s)| ==> SplitOnSpaces(s)[k] == r'[k - 1];
    }
  }

  /**
   * The pieces of `split(/\s+/)` are the maximal white-space-free runs of
   * `s`: joined with non-empty all-white-space separators they give `s` back,
   * and every piece but the first and the last is non-empty, so no separator
   * could be longer.
   */
  lemma SplitOnSpacesRebuilds(s: string)
    ensures var r, seps := SplitOnSpaces(s), SpaceRuns(s);
      |r| == |seps| + 1
      && Interleave(r, seps) == s
      && (forall k :: 0 <= k < |seps| ==> IsSpaceRun(seps[k]))
      && (forall k :: 0 < k < |r| - 1 ==> r[k] != [])
  {
    SplitRejoins(s);
    SpaceRunsAreSpace(s);
    InnerPiecesNonEmpty(s);
  }

  /**
   * JavaScript's `s.length`: the number of UTF-16 code units, where a
   * character outside the Basic Multilingual Plane (an emoji, say) takes two.
   */
  function Utf16Length(s: string): (n: nat)
    ensures |s| <= n <= 2 * |s|
    ensures (forall i :: 0 <= i < |s| ==> s[i] as int < 0x1_0000) ==> n == |s|
  {
    if s == [] then 0
    else (if s[0] as int < 0x1_0000 then 1 else 2) + Utf16Length(s[1..])
  }

  function DigitChar(d: nat): (c: char)
    requires d < 10
  {
    (d + '0' as int) as char
  }

  /** Decimal rendering of a natural number, as template literals and `String` give it. */
  function NatToString(n: nat): (r: string)
    ensures 1 <= |r|
    ensures forall i :: 0 <= i < |r| ==> '0' <= r[i] <= '9'
    decreases n
  {
    if n < 10 then [DigitChar(n)] else NatToString(n / 10) + [DigitChar(n % 10)]
  }

  /** Decimal rendering of an integer, with a leading '-' for negatives. */
  function IntToString(n: int): string {
    if n < 0 then "-" + NatToString(-n) else NatToString(n)
  }

  /** Different numbers have different decimal renderings. */
  lemma {:induction false} NatToStringInjective(m: nat, n: nat)
    requires NatToString(m) == NatToString(n)
    ensures m == n
    decreases m
  {
    var sm, sn := NatToString(m), NatToString(n);
    if m < 10 && n < 10 {
      assert sm[0] == DigitChar(m) && sn[0] == DigitChar(n);
    } else if m < 10 || n < 10 {
      // one rendering has a single digit, the other at least two
      assert false;
    } else {
      var k := |sm| - 1;
      assert sm[k] == DigitChar(m % 10) && sn[k] == DigitChar(n % 10);
      assert sm[..k] == NatToString(m / 10) && sn[..k] == NatToString(n / 10);
      NatToStringInjective(m / 10, n / 10);
    }
  }
}
