/** The pieces of Python's `str` the services rely on: `isspace`, `strip`,
    `upper` and the ordering `sorted` uses. A Dafny `string` is a sequence
    of Unicode scalar values, which is a Python string without lone
    surrogates, so `len` is `|s|`. */
module Text {

  /** Python's `str.isspace()` on a single code point. */
  predicate IsSpace(c: char) {
    || '\t' <= c <= '\r'
    || '\U{1C}' <= c <= '\U{1F}'
    || c == ' '
    || c == '\U{85}'
    || c == '\U{A0}'
    || c == '\U{1680}'
    || '\U{2000}' <= c <= '\U{200A}'
    || c == '\U{2028}'
    || c == '\U{2029}'
    || c == '\U{202F}'
    || c == '\U{205F}'
    || c == '\U{3000}'
  }

  /** Every code point of `s[lo..hi]` is whitespace. */
  ghost predicate SpacesIn(s: string, lo: int, hi: int)
    requires 0 <= lo <= hi <= |s|
  {
    forall k :: lo <= k < hi ==> IsSpace(s[k])
  }

  /** The number of whitespace code points at the front of `s`. */
  function LeadingSpaces(s: string): (n: nat)
    ensures n <= |s|
    ensures SpacesIn(s, 0, n)
    ensures n < |s| ==> !IsSpace(s[n])
  {
    if |s| == 0 || !IsSpace(s[0]) then 0
    else
      var n := 1 + LeadingSpaces(s[1..]);
      assert forall k :: 1 <= k < n ==> s[k] == s[1..][k - 1];
      n
  }

  /** The number of whitespace code points at the back of `s`. */
  function TrailingSpaces(s: string): (n: nat)
    ensures n <= |s|
    ensures SpacesIn(s, |s| - n, |s|)
    ensures n < |s| ==> !IsSpace(s[|s| - 1 - n])
  {
    if |s| == 0 || !IsSpace(s[|s| - 1]) then 0
    else
      var n := 1 + TrailingSpaces(s[..|s| - 1]);
      assert forall k :: |s| - n <= k < |s| - 1 ==> s[k] == s[..|s| - 1][k];
      n
  }

  /** `r` is `s` with whitespace removed at both ends and none left there:
      what `str.strip()` must produce. */
  ghost predicate IsStripOf(r: string, s: string) {
    exists i :: 0 <= i <= |s| - |r| && Peels(r, s, i)
  }

  /** `r` sits at offset `i` of `s` with only whitespace around it, and
      starts and ends with a non-space unless it is empty. */
  ghost predicate Peels(r: string, s: string, i: int)
    requires 0 <= i <= |s| - |r|
  {
    && r == s[i..i + |r|]
    && SpacesIn(s, 0, i)
    && SpacesIn(s, i + |r|, |s|)
    && (r != [] ==> !IsSpace(r[0]) && !IsSpace(r[|r| - 1]))
  }

  /** Python's `str.strip()` with no argument. */
  function Strip(s: string): (r: string)
    ensures IsStripOf(r, s)
    ensures r == [] <==> SpacesIn(s, 0, |s|)
  {
    var i := LeadingSpaces(s);
    if i == |s| then
      assert Peels([], s, i);
      []
    else
      var t := TrailingSpaces(s);
      var r := s[i..|s| - t];
      assert Peels(r, s, i);
      r
  }

  /** Python's `not s or not s.strip()`: the string is empty or all
      whitespace. */
  predicate IsBlank(s: string) {
    Strip(s) == []
  }

  /** Only one string is a strip of `s`: any way of peeling whitespace from
      both ends until a non-space shows yields `Strip(s)`. */
  lemma StripUnique(r: string, s: string)
    requires IsStripOf(r, s)
    ensures r == Strip(s)
  {
    var i :| 0 <= i <= |s| - |r| && Peels(r, s, i);
    if r != [] {
      var lead := LeadingSpaces(s);
      assert s[i] == r[0];
      assert lead == i;
      var trail := TrailingSpaces(s);
      assert s[i + |r| - 1] == r[|r| - 1];
      assert trail == |s| - i - |r|;
    }
  }

  /** Whitespace around a string does not change what `strip` returns. */
  lemma StripIgnoresPadding(front: string, s: string, back: string)
    requires SpacesIn(front, 0, |front|) && SpacesIn(back, 0, |back|)
    ensures Strip(front + s + back) == Strip(s)
  {
    var r := Strip(s);
    var i :| 0 <= i <= |s| - |r| && Peels(r, s, i);
    PeelsPadded(r, front, s, back, i);
    StripUnique(r, front + s + back);
  }

  lemma PeelsPadded(r: string, front: string, s: string, back: string, i: int)
    requires SpacesIn(front, 0, |front|) && SpacesIn(back, 0, |back|)
    requires 0 <= i <= |s| - |r| && Peels(r, s, i)
    ensures IsStripOf(r, front + s + back)
  {
    var whole := front + s + back;
    var i' := |front| + i;
    assert whole == front + (s + back);
    assert whole[i'..i' + |r|] == s[i..i + |r|] by {
      forall k | i' <= k < i' + |r|
        ensures whole[k] == s[k - |front|]
      {
      }
    }
    assert SpacesIn(whole, 0, i') by {
      forall k | 0 <= k < i'
        ensures IsSpace(whole[k])
      {
        if k >= |front| {
          assert whole[k] == s[k - |front|];
        }
      }
    }
    assert SpacesIn(whole, i' + |r|, |whole|) by {
      forall k | i' + |r| <= k < |whole|
        ensures IsSpace(whole[k])
      {
        if k < |front| + |s| {
          assert whole[k] == s[k - |front|];
        } else {
          assert whole[k] == back[k - |front| - |s|];
        }
      }
    }
    assert Peels(r, whole, i');
  }

  /** Python's `str.upper()` on one code point, for the ASCII letters. */
  function UpperChar(c: char): char {
    if 'a' <= c <= 'z' then (c as int - 32) as char else c
  }

  /** Python's `str.upper()`: every ASCII lower-case letter becomes its
      capital, every other code point is kept. */
  function Upper(s: string): (r: string)
    ensures |r| == |s|
    ensures forall k :: 0 <= k < |r| ==> !('a' <= r[k] <= 'z')
    ensures forall k :: 0 <= k < |s| && !('a' <= s[k] <= 'z') ==> r[k] == s[k]
    ensures forall k :: 0 <= k < |s| && 'a' <= s[k] <= 'z' ==> r[k] as int == s[k] as int - 32
  {
    if s == [] then [] else [UpperChar(s[0])] + Upper(s[1..])
  }

  /** Python's `a <= b` on strings: lexicographic by code point, a proper
      prefix coming first. */
  predicate Below(a: string, b: string) {
    if |a| == 0 then true
    else if |b| == 0 then false
    else if a[0] != b[0] then a[0] < b[0]
    else Below(a[1..], b[1..])
  }

  lemma {:induction false} BelowReflexive(a: string)
    ensures Below(a, a)
  {
    if |a| > 0 {
      BelowReflexive(a[1..]);
    }
  }

  lemma {:induction false} BelowAntisymmetric(a: string, b: string)
    requires Below(a, b) && Below(b, a)
    ensures a == b
  {
    if |a| > 0 && |b| > 0 {
      BelowAntisymmetric(a[1..], b[1..]);
      assert a == [a[0]] + a[1..];
      assert b == [b[0]] + b[1..];
    }
  }

  lemma {:induction false} BelowTransitive(a: string, b: string, c: string)
    requires Below(a, b) && Below(b, c)
    ensures Below(a, c)
  {
    if |a| > 0 && |b| > 0 && |c| > 0 && a[0] == b[0] == c[0] {
      BelowTransitive(a[1..], b[1..], c[1..]);
    }
  }

  lemma {:induction false} BelowTotal(a: string, b: string)
    ensures Below(a, b) || Below(b, a)
  {
    if |a| > 0 && |b| > 0 && a[0] == b[0] {
      BelowTotal(a[1..], b[1..]);
    }
  }
}
