/**
  The ECMAScript string built-ins the application relies on, over strings as
  `seq<char>`: `trim`, `toLowerCase`, `includes`, `split` and `join`.
*/
module JsString {

  /** The WhiteSpace and LineTerminator code points of ECMAScript: what `trim` strips. */
  predicate IsWhitespace(c: char) {
    || c == ' ' || c == '\t' || c == '\n' || c == '\r'
    || c == '\U{000B}' || c == '\U{000C}' || c == '\U{00A0}' || c == '\U{1680}'
    || ('\U{2000}' <= c <= '\U{200A}')
    || c == '\U{2028}' || c == '\U{2029}' || c == '\U{202F}' || c == '\U{205F}'
    || c == '\U{3000}' || c == '\U{FEFF}'
  }

  predicate AllWhitespace(s: string) {
    forall i | 0 <= i < |s| :: IsWhitespace(s[i])
  }

  /** A string with no whitespace at either end (the shape `trim` returns). */
  predicate Trimmed(s: string) {
    s == [] || (!IsWhitespace(s[0]) && !IsWhitespace(s[|s| - 1]))
  }

  function TrimStart(s: string): (r: string)
    ensures r == [] || !IsWhitespace(r[0])
    ensures |r| <= |s| && r == s[|s| - |r|..]
    ensures AllWhitespace(s[..|s| - |r|])
  {
    if s != [] && IsWhitespace(s[0]) then TrimStart(s[1..]) else s
  }

  function TrimEnd(s: string): (r: string)
    ensures r == [] || !IsWhitespace(r[|r| - 1])
    ensures |r| <= |s| && r == s[..|r|]
    ensures AllWhitespace(s[|r|..])
  {
    if s != [] && IsWhitespace(s[|s| - 1]) then TrimEnd(s[..|s| - 1]) else s
  }

  /** `String.prototype.trim`. */
  function Trim(s: string): (r: string)
    ensures |r| <= |s|
  {
    TrimEnd(TrimStart(s))
  }

  lemma TrimStartSplit(s: string) returns (pre: string)
    ensures s == pre + TrimStart(s) && AllWhitespace(pre)
  {
    var t := TrimStart(s);
    var k := |s| - |t|;
    pre := s[..k];
    assert t == s[k..];
    assert s == s[..k] + s[k..];
  }

  lemma TrimEndSplit(t: string) returns (post: string)
    ensures t == TrimEnd(t) + post && AllWhitespace(post)
  {
    var m := TrimEnd(t);
    post := t[|m|..];
    assert m == t[..|m|];
    assert t == t[..|m|] + t[|m|..];
  }

  /** `trim` cuts `s` into whitespace, a trimmed middle, and whitespace. */
  lemma TrimDecompose(s: string) returns (pre: string, post: string)
    ensures s == pre + Trim(s) + post
    ensures AllWhitespace(pre) && AllWhitespace(post) && Trimmed(Trim(s))
  {
    var t := TrimStart(s);
    var m := TrimEnd(t);
    assert Trim(s) == m;
    pre := TrimStartSplit(s);
    post := TrimEndSplit(t);
    Assoc(pre, m, post);
    assert Trimmed(m) by {
      if m != [] {
        assert t != [] && m[0] == t[0];
      }
    }
  }

  /** `trim` returns the empty string exactly for whitespace-only input, the empty string included. */
  lemma TrimEmptyIffBlank(s: string)
    ensures Trim(s) == [] <==> AllWhitespace(s)
  {
    var pre, post := TrimDecompose(s);
    if Trim(s) == [] {
      assert s == pre + post;
      forall i | 0 <= i < |s| ensures IsWhitespace(s[i]) {
        if i < |pre| {
          assert s[i] == pre[i];
        } else {
          assert s[i] == post[i - |pre|];
        }
      }
    } else {
      assert s[|pre|] == Trim(s)[0];
    }
  }

  lemma {:induction false} TrimStartPadded(pre: string, m: string)
    requires AllWhitespace(pre) && (m == [] || !IsWhitespace(m[0]))
    ensures TrimStart(pre + m) == m
    decreases |pre|
  {
    if pre != [] {
      assert (pre + m)[1..] == pre[1..] + m;
      TrimStartPadded(pre[1..], m);
    }
  }

  lemma {:induction false} TrimEndPadded(m: string, post: string)
    requires AllWhitespace(post) && (m == [] || !IsWhitespace(m[|m| - 1]))
    ensures TrimEnd(m + post) == m
    decreases |post|
  {
    if post != [] {
      assert (m + post)[..|m + post| - 1] == m + post[..|post| - 1];
      TrimEndPadded(m, post[..|post| - 1]);
    } else {
      assert m + post == m;
    }
  }

  /** Any whitespace padding around a trimmed string is exactly what `trim` removes. */
  lemma TrimOfPadded(pre: string, m: string, post: string)
    requires AllWhitespace(pre) && AllWhitespace(post) && Trimmed(m)
    ensures Trim(pre + m + post) == m
  {
    if m == [] {
      assert pre + m + post == pre + post;
      TrimStartPadded(pre + post, []);
      assert pre + post + [] == pre + post;
    } else {
      assert pre + m + post == pre + (m + post);
      TrimStartPadded(pre, m + post);
      TrimEndPadded(m, post);
    }
  }

  lemma Assoc(a: string, b: string, c: string)
    ensures a + b + c == a + (b + c)
  {
  }

  lemma Regroup(a: string, b: string, c: string, d: string, e: string)
    ensures a + (b + c + d) + e == (a + b) + c + (d + e)
  {
  }

  /** Adding whitespace on either side never changes what `trim` returns. */
  lemma TrimIgnoresPadding(pre: string, s: string, post: string)
    requires AllWhitespace(pre) && AllWhitespace(post)
    ensures Trim(pre + s + post) == Trim(s)
  {
    var p, q := TrimDecompose(s);
    var m := Trim(s);
    calc {
      pre + s + post;
      pre + (p + m + q) + post;
      { Regroup(pre, p, m, q, post); }
      (pre + p) + m + (q + post);
    }
    assert AllWhitespace(pre + p) && AllWhitespace(q + post);
    TrimOfPadded(pre + p, m, q + post);
  }

  /** `toLowerCase` on one code point, for the ASCII and Latin-1 capitals. */
  function LowerChar(c: char): char {
    if 'A' <= c <= 'Z' || ('\U{00C0}' <= c <= '\U{00DE}' && c != '\U{00D7}') then
      (c as int + 32) as char
    else
      c
  }

  /** `String.prototype.toLowerCase`, code point by code point. */
  function ToLower(s: string): (r: string)
    ensures |r| == |s|
    ensures forall i :: 0 <= i < |s| ==> r[i] == LowerChar(s[i])
  {
    seq(|s|, i requires 0 <= i < |s| => LowerChar(s[i]))
  }

  lemma ToLowerConcat(a: string, b: string)
    ensures ToLower(a + b) == ToLower(a) + ToLower(b)
  {
    var l, r := ToLower(a + b), ToLower(a) + ToLower(b);
    forall i | 0 <= i < |a + b| ensures l[i] == r[i] {
      if i >= |a| {
        assert (a + b)[i] == b[i - |a|];
      }
    }
  }

  /** Lower-casing twice is lower-casing once. */
  lemma ToLowerIdempotent(s: string)
    ensures ToLower(ToLower(s)) == ToLower(s)
  {
    assert forall i :: 0 <= i < |s| ==> ToLower(ToLower(s))[i] == ToLower(s)[i];
  }

  lemma LowerCharKeepsWhitespace(c: char)
    ensures IsWhitespace(LowerChar(c)) == IsWhitespace(c)
  {
  }

  lemma ToLowerKeepsWhitespace(s: string)
    ensures AllWhitespace(ToLower(s)) == AllWhitespace(s)
    ensures Trimmed(ToLower(s)) == Trimmed(s)
  {
    forall i | 0 <= i < |s| ensures IsWhitespace(ToLower(s)[i]) == IsWhitespace(s[i]) {
      LowerCharKeepsWhitespace(s[i]);
    }
  }

  /** Lower-casing and trimming commute: case never turns whitespace into text or back. */
  lemma TrimToLowerCommute(s: string)
    ensures Trim(ToLower(s)) == ToLower(Trim(s))
  {
    var pre, post := TrimDecompose(s);
    var m := Trim(s);
    ToLowerConcat(pre + m, post);
    ToLowerConcat(pre, m);
    ToLowerKeepsWhitespace(pre);
    ToLowerKeepsWhitespace(m);
    ToLowerKeepsWhitespace(post);
    TrimOfPadded(ToLower(pre), ToLower(m), ToLower(post));
  }

  /** A character absent from `s`, with every character that lower-cases to it, is absent from its lower-casing. */
  lemma LowerMissing(s: string, c: char, upper: char)
    requires c !in s && upper !in s
    requires forall x :: LowerChar(x) == c ==> x == c || x == upper
    ensures c !in ToLower(s)
  {
    forall i | 0 <= i < |s| ensures ToLower(s)[i] != c {
      assert s[i] in s;
    }
  }

  /** `needle` sits in `hay` starting at index `i`. */
  predicate OccursAt(hay: string, needle: string, i: int) {
    0 <= i && i + |needle| <= |hay| && hay[i..i + |needle|] == needle
  }

  /** `String.prototype.includes`: some position of `hay` starts a copy of `needle`. */
  function Includes(hay: string, needle: string): (b: bool)
    ensures b ==> |needle| <= |hay|
    ensures needle == [] ==> b
  {
    assert needle == [] ==> OccursAt(hay, needle, 0);
    exists i | 0 <= i <= |hay| - |needle| :: OccursAt(hay, needle, i)
  }

  lemma IncludesSelf(s: string)
    ensures Includes(s, s)
  {
    assert OccursAt(s, s, 0);
  }

  /** A needle longer than the haystack is never found. */
  lemma LongerNotIncluded(hay: string, needle: string)
    requires |needle| > |hay|
    ensures !Includes(hay, needle)
  {
  }

  /** A needle with a character the haystack lacks is never found. */
  lemma MissingCharNotIncluded(hay: string, needle: string, k: nat)
    requires k < |needle| && needle[k] !in hay
    ensures !Includes(hay, needle)
  {
    forall i | 0 <= i && i + |needle| <= |hay|
      ensures !OccursAt(hay, needle, i)
    {
      assert hay[i + k] in hay;
      assert hay[i..i + |needle|][k] == hay[i + k];
    }
  }

  /**
    When the last character of `needle` occurs in `hay` only as its last
    character, `needle` can only be found as a suffix of `hay`.
  */
  lemma AnchoredAtEnd(hay: string, needle: string)
    requires needle != [] && hay != []
    requires needle[|needle| - 1] !in hay[..|hay| - 1]
    requires Includes(hay, needle)
    ensures |needle| <= |hay| && hay[|hay| - |needle|..] == needle
  {
    var i :| 0 <= i <= |hay| - |needle| && OccursAt(hay, needle, i);
    var j := i + |needle| - 1;
    forall k | 0 <= k < |hay| - 1
      ensures hay[k] != needle[|needle| - 1]
    {
      assert hay[..|hay| - 1][k] == hay[k];
    }
    assert hay[i..i + |needle|][|needle| - 1] == hay[j];
    assert j == |hay| - 1;
    assert hay[|hay| - |needle|..] == hay[i..i + |needle|];
  }

  /** A string occurs inside any text that embeds it. */
  lemma IncludesInfix(pre: string, s: string, post: string)
    ensures Includes(pre + s + post, s)
  {
    assert (pre + s + post)[|pre|..|pre| + |s|] == s;
    assert OccursAt(pre + s + post, s, |pre|);
  }

  /** A needle starting and ending with non-whitespace that occurs in `pre + m + post` lies within `m`, when `pre` and `post` are whitespace. */
  lemma OccurrenceInMiddle(hay: string, pre: string, m: string, post: string, needle: string, i: int)
    requires hay == pre + m + post && AllWhitespace(pre) && AllWhitespace(post)
    requires needle != [] && Trimmed(needle) && OccursAt(hay, needle, i)
    ensures |pre| <= i && i + |needle| <= |pre| + |m|
  {
    var n := |needle|;
    assert hay[i..i + n][0] == hay[i];
    assert hay[i..i + n][n - 1] == hay[i + n - 1];
    assert forall j :: 0 <= j < |pre| ==> hay[j] == pre[j];
    assert forall j :: |pre| + |m| <= j < |hay| ==> hay[j] == post[j - |pre| - |m|];
  }

  /** An occurrence within the middle part of `pre + m + post` is an occurrence in `m`. */
  lemma OccurrenceShifts(hay: string, pre: string, m: string, post: string, needle: string, i: int)
    requires hay == pre + m + post && OccursAt(hay, needle, i)
    requires |pre| <= i && i + |needle| <= |pre| + |m|
    ensures OccursAt(m, needle, i - |pre|)
  {
    assert m == hay[|pre|..|pre| + |m|];
    assert m[i - |pre|..i - |pre| + |needle|] == hay[i..i + |needle|];
  }

  /**
    A non-empty needle without outer whitespace that occurs in `hay` occurs in
    `hay.trim()`: it can neither start in the leading whitespace nor end in
    the trailing whitespace.
  */
  lemma IncludesInTrim(hay: string, needle: string)
    requires needle != [] && Trimmed(needle) && Includes(hay, needle)
    ensures Includes(Trim(hay), needle)
  {
    var pre, post := TrimDecompose(hay);
    var i :| 0 <= i <= |hay| - |needle| && OccursAt(hay, needle, i);
    OccurrenceInMiddle(hay, pre, Trim(hay), post, needle, i);
    OccurrenceShifts(hay, pre, Trim(hay), post, needle, i);
  }

  /** `String.prototype.split` with a one-character separator. */
  function Split(s: string, sep: char): (parts: seq<string>)
    ensures |parts| >= 1
    ensures sep !in parts[0] && parts[0] <= s
    ensures |parts[0]| == |s| || s[|parts[0]|] == sep
    ensures forall k :: 0 <= k < |parts| ==> sep !in parts[k]
  {
    if s == [] then
      [[]]
    else
      var rest := Split(s[1..], sep);
      if s[0] == sep then [[]] + rest else [[s[0]] + rest[0]] + rest[1..]
  }

  /** The first piece of a split is the text before the first separator. */
  lemma SplitHeadIs(s: string, sep: char, k: nat)
    requires k <= |s| && sep !in s[..k] && (k == |s| || s[k] == sep)
    ensures Split(s, sep)[0] == s[..k]
  {
  }

  /** `Array.prototype.join`. */
  function Join(parts: seq<string>, sep: string): (r: string)
    ensures |parts| == 0 ==> r == []
    ensures |parts| > 0 ==> parts[0] <= r
    ensures |parts| > 1 ==> parts[0] + sep <= r
  {
    if |parts| == 0 then []
    else if |parts| == 1 then parts[0]
    else
      var r := parts[0] + sep + Join(parts[1..], sep);
      assert r[..|parts[0] + sep|] == parts[0] + sep;
      r
  }

  /** Joining the pieces of a split with the separator gives back the original. */
  lemma {:induction false} JoinSplit(s: string, sep: char)
    ensures Join(Split(s, sep), [sep]) == s
  {
    if s != [] {
      var rest := Split(s[1..], sep);
      JoinSplit(s[1..], sep);
      if s[0] == sep {
        assert Split(s, sep) == [[]] + rest;
      } else if |rest| == 1 {
        assert Split(s, sep) == [[s[0]] + rest[0]];
      } else {
        assert Split(s, sep) == [[s[0]] + rest[0]] + rest[1..];
        assert Join(rest, [sep]) == rest[0] + [sep] + Join(rest[1..], [sep]);
      }
    }
  }
}
