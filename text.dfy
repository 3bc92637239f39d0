/** The string operations the pages rely on: `toLowerCase`, `includes`,
    decimal rendering of an id, `join(',')`, `split(',')` and `trim`. */
module Text {

  predicate IsUpper(c: char) { 'A' <= c <= 'Z' }

  predicate IsDigit(c: char) { '0' <= c <= '9' }

  predicate AllDigits(s: string) { forall i :: 0 <= i < |s| ==> IsDigit(s[i]) }

  /** `toLowerCase` on one character, restricted to ASCII letters. */
  function LowerChar(c: char): (r: char)
    ensures !IsUpper(r)
    ensures IsUpper(c) ==> r as int == c as int + 32
    ensures !IsUpper(c) ==> r == c
  {
    if IsUpper(c) then (c as int + 32) as char else c
  }

  /** `toLowerCase` on a string, character by character. */
  function Lower(s: string): (r: string)
    ensures |r| == |s|
    ensures forall i :: 0 <= i < |s| ==> r[i] == LowerChar(s[i])
  {
    if s == [] then [] else [LowerChar(s[0])] + Lower(s[1..])
  }

  /** Lowering twice is lowering once. */
  lemma LowerIdempotent(s: string)
    ensures Lower(Lower(s)) == Lower(s)
  {
    var l := Lower(s);
    assert forall i :: 0 <= i < |l| ==> Lower(l)[i] == l[i];
  }

  predicate StartsWith(s: string, prefix: string)
  {
    |prefix| <= |s| && s[..|prefix|] == prefix
  }

  /** `sub` occurs in `s` starting at index `i`. */
  predicate OccursAt(s: string, sub: string, i: int)
  {
    0 <= i <= |s| - |sub| && s[i..i + |sub|] == sub
  }

  lemma SliceOfTail(s: string, i: int, n: nat)
    requires 1 <= i && i + n <= |s|
    ensures s[1..][i - 1..i - 1 + n] == s[i..i + n]
  {
    var shifted, direct := s[1..][i - 1..i - 1 + n], s[i..i + n];
    forall k | 0 <= k < n ensures shifted[k] == direct[k] {
      assert shifted[k] == s[i + k];
    }
  }

  /** `String.prototype.includes`: `sub` occurs in `s` at some position. */
  function Contains(s: string, sub: string): (b: bool)
    ensures b <==> exists i :: OccursAt(s, sub, i)
    decreases |s|
  {
    if StartsWith(s, sub) then
      assert OccursAt(s, sub, 0);
      true
    else if |s| <= |sub| then
      assert forall i :: OccursAt(s, sub, i) ==> i == 0;
      false
    else
      var b := Contains(s[1..], sub);
      assert forall i :: 1 <= i ==> (OccursAt(s, sub, i) <==> OccursAt(s[1..], sub, i - 1)) by {
        forall i | 1 <= i ensures OccursAt(s, sub, i) <==> OccursAt(s[1..], sub, i - 1) {
          if 1 <= i <= |s| - |sub| {
            SliceOfTail(s, i, |sub|);
          }
        }
      }
      assert b ==> exists i :: OccursAt(s, sub, i) by {
        if b {
          var j :| OccursAt(s[1..], sub, j);
          assert OccursAt(s, sub, j + 1);
        }
      }
      b
  }

  /** The empty string is a substring of every string. */
  lemma ContainsEmpty(s: string)
    ensures Contains(s, "")
  {
    assert OccursAt(s, "", 0);
  }

  // ---- decimal rendering of non-negative integers (`String(n)`) ----

  function DigitChar(d: nat): (c: char)
    requires d < 10
    ensures IsDigit(c)
  {
    ('0' as int + d) as char
  }

  function DigitValue(c: char): (d: nat)
    requires IsDigit(c)
    ensures d < 10
  {
    c as int - '0' as int
  }

  /** The shortest decimal numeral of `n`: digits only, and no leading zero. */
  function NatToString(n: nat): (s: string)
    ensures |s| >= 1 && AllDigits(s)
    ensures |s| > 1 ==> s[0] != '0'
    ensures n < 10 <==> |s| == 1
  {
    if n < 10 then [DigitChar(n)] else NatToString(n / 10) + [DigitChar(n % 10)]
  }

  /** The value of a decimal numeral (most significant digit first). */
  function DecimalValue(s: string): nat
    requires AllDigits(s)
  {
    if s == [] then 0 else DecimalValue(s[..|s| - 1]) * 10 + DigitValue(s[|s| - 1])
  }

  /** Reading back the rendered numeral gives the number. */
  lemma {:induction false} DecimalValueOfNatToString(n: nat)
    ensures DecimalValue(NatToString(n)) == n
  {
    if n >= 10 {
      DecimalValueOfNatToString(n / 10);
      var s := NatToString(n);
      assert s[..|s| - 1] == NatToString(n / 10);
    }
  }

  // ---- join and split on a separator character ----

  /** `Array.prototype.join(sep)` on strings. */
  function Join(parts: seq<string>, sep: char): (r: string)
    ensures parts == [] ==> r == []
    ensures |parts| == 1 ==> r == parts[0]
    ensures |parts| >= 2 ==> |r| > |parts[0]| && r[..|parts[0]|] == parts[0] && r[|parts[0]|] == sep
    ensures forall i :: 0 <= i < |r| ==> r[i] == sep || exists k :: 0 <= k < |parts| && r[i] in parts[k]
  {
    if parts == [] then ""
    else if |parts| == 1 then parts[0]
    else
      var rest := Join(parts[1..], sep);
      var r := parts[0] + [sep] + rest;
      assert forall i :: |parts[0]| < i < |r| ==> r[i] == rest[i - |parts[0]| - 1];
      assert forall k :: 0 <= k < |parts| - 1 ==> parts[1..][k] == parts[k + 1];
      r
  }

  /** `String.prototype.split(sep)`: the maximal pieces between separators. */
  function Split(s: string, sep: char): (r: seq<string>)
    ensures |r| >= 1
    ensures forall k :: 0 <= k < |r| ==> sep !in r[k]
  {
    if s == [] then [""]
    else
      var rest := Split(s[1..], sep);
      if s[0] == sep then [""] + rest
      else [[s[0]] + rest[0]] + rest[1..]
  }

  /** A piece without separators splits into itself, and a separator after it starts a new piece. */
  lemma {:induction false} SplitPiece(t: string, u: string, sep: char)
    requires sep !in t
    ensures Split(t, sep) == [t]
    ensures Split(t + [sep] + u, sep) == [t] + Split(u, sep)
  {
    if t != [] {
      SplitPiece(t[1..], u, sep);
      assert (t + [sep] + u)[1..] == t[1..] + [sep] + u;
      assert [t[0]] + t[1..] == t;
    } else {
      assert t + [sep] + u == [sep] + u;
      assert ([sep] + u)[1..] == u;
    }
  }

  /** Splitting a join of separator-free pieces gives the pieces back. */
  lemma {:induction false} SplitJoin(parts: seq<string>, sep: char)
    requires |parts| >= 1
    requires forall k :: 0 <= k < |parts| ==> sep !in parts[k]
    ensures Split(Join(parts, sep), sep) == parts
  {
    SplitPiece(parts[0], [], sep);
    if |parts| > 1 {
      SplitJoin(parts[1..], sep);
      SplitPiece(parts[0], Join(parts[1..], sep), sep);
    }
  }

  // ---- white space as `trim` removes it ----

  /** The characters ECMAScript's `trim` and `Number` strip: WhiteSpace and LineTerminator. */
  predicate IsJsWhiteSpace(c: char)
  {
    c == '\t' || c == '\n' || c == '\U{000B}' || c == '\U{000C}' || c == '\r' || c == ' ' ||
    c == '\U{00A0}' || c == '\U{1680}' || ('\U{2000}' <= c <= '\U{200A}') ||
    c == '\U{2028}' || c == '\U{2029}' || c == '\U{202F}' || c == '\U{205F}' ||
    c == '\U{3000}' || c == '\U{FEFF}'
  }

  /** The first index at or after `lo` whose character is not white space, or `|s|`. */
  function SkipWhiteSpace(s: string, lo: nat): (n: nat)
    requires lo <= |s|
    ensures lo <= n <= |s|
    ensures forall k :: lo <= k < n ==> IsJsWhiteSpace(s[k])
    ensures n < |s| ==> !IsJsWhiteSpace(s[n])
    decreases |s| - lo
  {
    if lo < |s| && IsJsWhiteSpace(s[lo]) then SkipWhiteSpace(s, lo + 1) else lo
  }

  /** The end of `s[lo..hi]` once its trailing white space is dropped. */
  function BackOverWhiteSpace(s: string, lo: nat, hi: nat): (n: nat)
    requires lo <= hi <= |s|
    ensures lo <= n <= hi
    ensures forall k :: n <= k < hi ==> IsJsWhiteSpace(s[k])
    ensures n > lo ==> !IsJsWhiteSpace(s[n - 1])
    decreases hi
  {
    if lo < hi && IsJsWhiteSpace(s[hi - 1]) then BackOverWhiteSpace(s, lo, hi - 1) else hi
  }

  /** Everything in `s` before `i` and from `j` on is white space. */
  predicate WhiteSpaceOutside(s: string, i: nat, j: nat)
    requires i <= j <= |s|
  {
    (forall k :: 0 <= k < i ==> IsJsWhiteSpace(s[k])) && (forall k :: j <= k < |s| ==> IsJsWhiteSpace(s[k]))
  }

  /** `String.prototype.trim`: the middle of `s` left once the white space at
      both ends is removed. */
  function Trim(s: string): (r: string)
    ensures exists i, j :: 0 <= i <= j <= |s| && r == s[i..j] && WhiteSpaceOutside(s, i, j)
    ensures r == [] || (!IsJsWhiteSpace(r[0]) && !IsJsWhiteSpace(r[|r| - 1]))
    ensures (forall i :: 0 <= i < |s| ==> !IsJsWhiteSpace(s[i])) ==> r == s
    ensures (forall i :: 0 <= i < |s| ==> IsJsWhiteSpace(s[i])) ==> r == []
  {
    var i := SkipWhiteSpace(s, 0);
    var j := BackOverWhiteSpace(s, i, |s|);
    assert WhiteSpaceOutside(s, i, j);
    s[i..j]
  }

  /** A slice with only white space outside it and none at its ends is the trimmed string. */
  lemma TrimUnique(s: string, i: nat, j: nat)
    requires i <= j <= |s| && WhiteSpaceOutside(s, i, j)
    requires i < j ==> !IsJsWhiteSpace(s[i]) && !IsJsWhiteSpace(s[j - 1])
    ensures Trim(s) == s[i..j]
  {
    if i < j {
      var i0 := SkipWhiteSpace(s, 0);
      assert i0 == i;
      var j0 := BackOverWhiteSpace(s, i0, |s|);
      assert j0 == j;
    } else {
      assert forall k :: 0 <= k < |s| ==> IsJsWhiteSpace(s[k]);
    }
  }

  /** White space added around a string keeps its white space outside the same slice. */
  lemma PaddedWhiteSpaceOutside(pre: string, s: string, post: string, i: nat, j: nat)
    requires i <= j <= |s| && WhiteSpaceOutside(s, i, j)
    requires forall k :: 0 <= k < |pre| ==> IsJsWhiteSpace(pre[k])
    requires forall k :: 0 <= k < |post| ==> IsJsWhiteSpace(post[k])
    ensures WhiteSpaceOutside(pre + s + post, |pre| + i, |pre| + j)
  {
    var u := pre + s + post;
    forall k | 0 <= k < |pre| + i ensures IsJsWhiteSpace(u[k]) {
      if k >= |pre| {
        assert u[k] == s[k - |pre|];
      } else {
        assert u[k] == pre[k];
      }
    }
    forall k | |pre| + j <= k < |u| ensures IsJsWhiteSpace(u[k]) {
      if k < |pre| + |s| {
        assert u[k] == s[k - |pre|];
      } else {
        assert u[k] == post[k - |pre| - |s|];
      }
    }
  }

  /** White space added around a string does not change what `trim` gives. */
  lemma TrimIgnoresPadding(pre: string, s: string, post: string)
    requires forall k :: 0 <= k < |pre| ==> IsJsWhiteSpace(pre[k])
    requires forall k :: 0 <= k < |post| ==> IsJsWhiteSpace(post[k])
    ensures Trim(pre + s + post) == Trim(s)
  {
    var i := SkipWhiteSpace(s, 0);
    var j := BackOverWhiteSpace(s, i, |s|);
    assert Trim(s) == s[i..j];
    assert WhiteSpaceOutside(s, i, j);
    var u := pre + s + post;
    var a, b := |pre| + i, |pre| + j;
    PaddedWhiteSpaceOutside(pre, s, post, i, j);
    assert u[a..b] == s[i..j];
    if i < j {
      assert u[a] == s[i] && u[b - 1] == s[j - 1];
    }
    TrimUnique(u, a, b);
  }
}
