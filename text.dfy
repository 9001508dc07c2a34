/** Character classes and string helpers shared by the JavaScript, Python and C++ code:
    ASCII case mapping, whitespace sets, stripping, substring search, UTF-16 length and
    JavaScript's string ordering. */
module Text {

  /** `::toupper` in the C locale; also the part of Python's `str.upper` and
      JavaScript's `toUpperCase` that can matter for blood-group codes. */
  function UpperChar(c: char): char {
    if 'a' <= c <= 'z' then (c as int - 32) as char else c
  }

  function LowerChar(c: char): char {
    if 'A' <= c <= 'Z' then (c as int + 32) as char else c
  }

  function Upper(s: string): (r: string)
    ensures |r| == |s| && forall i :: 0 <= i < |s| ==> r[i] == UpperChar(s[i])
  {
    seq(|s|, i requires 0 <= i < |s| => UpperChar(s[i]))
  }

  function Lower(s: string): (r: string)
    ensures |r| == |s| && forall i :: 0 <= i < |s| ==> r[i] == LowerChar(s[i])
  {
    seq(|s|, i requires 0 <= i < |s| => LowerChar(s[i]))
  }

  lemma UpperIdempotent(s: string)
    ensures Upper(Upper(s)) == Upper(s)
  {
    assert forall i :: 0 <= i < |s| ==> UpperChar(UpperChar(s[i])) == UpperChar(s[i]);
  }

  /** The characters Python's `str.isspace` accepts, which `str.strip()` removes. */
  predicate IsPySpace(c: char) {
    c == ' ' || '\t' <= c <= '\r' || '\U{1C}' <= c <= '\U{1F}' || c == '\U{85}' ||
    c == '\U{A0}' || c == '\U{1680}' || '\U{2000}' <= c <= '\U{200A}' ||
    c == '\U{2028}' || c == '\U{2029}' || c == '\U{202F}' || c == '\U{205F}' || c == '\U{3000}'
  }

  /** The characters of the `\s` class of a JavaScript regular expression. */
  predicate IsJsSpace(c: char) {
    c == ' ' || '\t' <= c <= '\r' || c == '\U{A0}' || c == '\U{1680}' ||
    '\U{2000}' <= c <= '\U{200A}' || c == '\U{2028}' || c == '\U{2029}' || c == '\U{202F}' ||
    c == '\U{205F}' || c == '\U{3000}' || c == '\U{FEFF}'
  }

  /** Python's `s.lstrip()`. */
  function LStrip(s: string): (r: string)
    ensures |r| <= |s|
    ensures r == [] || !IsPySpace(r[0])
    ensures forall i :: 0 <= i < |s| - |r| ==> IsPySpace(s[i])
  {
    if s != [] && IsPySpace(s[0]) then LStrip(s[1..]) else s
  }

  /** Python's `s.rstrip()`. */
  function RStrip(s: string): (r: string)
    ensures |r| <= |s|
    ensures r == [] || !IsPySpace(r[|r| - 1])
    ensures forall i :: |r| <= i < |s| ==> IsPySpace(s[i])
  {
    if s != [] && IsPySpace(s[|s| - 1]) then RStrip(s[..|s| - 1]) else s
  }

  /** What `lstrip` leaves is a suffix of its argument. */
  lemma {:induction false} LStripIsSuffix(s: string)
    ensures LStrip(s) == s[|s| - |LStrip(s)|..]
  {
    if s != [] && IsPySpace(s[0]) {
      LStripIsSuffix(s[1..]);
    }
  }

  /** What `rstrip` leaves is a prefix of its argument. */
  lemma {:induction false} RStripIsPrefix(s: string)
    ensures RStrip(s) == s[..|RStrip(s)|]
  {
    if s != [] && IsPySpace(s[|s| - 1]) {
      RStripIsPrefix(s[..|s| - 1]);
    }
  }

  /** Python's `s.strip()`. */
  function Strip(s: string): string {
    LStrip(RStrip(s))
  }

  /** Right-stripping stops at the last non-space character of a non-empty prefix. */
  lemma {:induction false} RStripConcat(u: string, m: string)
    requires u != [] && !IsPySpace(u[|u| - 1])
    ensures RStrip(u + m) == u + RStrip(m)
  {
    if m != [] && IsPySpace(m[|m| - 1]) {
      assert (u + m)[..|u + m| - 1] == u + m[..|m| - 1];
      RStripConcat(u, m[..|m| - 1]);
    } else if m == [] {
      assert u + m == u;
    }
  }

  lemma RStripDropSpace(s: string, c: char)
    requires IsPySpace(c)
    ensures RStrip(s + [c]) == RStrip(s)
  {
    assert (s + [c])[..|s|] == s;
  }

  /** The first occurrence is the one with no earlier occurrence. */
  lemma FirstIndexOfIs(s: string, c: char, i: nat)
    requires i < |s| && s[i] == c && c !in s[..i]
    ensures FirstIndexOf(s, c) == i
  {
    assert s[i] in s;
    var k := FirstIndexOf(s, c);
    assert forall j | 0 <= j < i :: s[..i][j] == s[j];
    assert forall j | 0 <= j < k :: s[..k][j] == s[j];
  }

  /** A string that starts and ends with a non-space character is left as it is. */
  lemma StripUnchanged(s: string)
    requires s != [] && !IsPySpace(s[0]) && !IsPySpace(s[|s| - 1])
    ensures Strip(s) == s
  {
  }

  /** Index of the first occurrence of `c` in `s`, if there is one. */
  function FirstIndexOf(s: string, c: char): (r: int)
    ensures -1 <= r < |s|
    ensures r >= 0 ==> s[r] == c && c !in s[..r]
    ensures r == -1 <==> c !in s
  {
    if s == [] then -1
    else if s[0] == c then 0
    else
      var k := FirstIndexOf(s[1..], c);
      assert s == [s[0]] + s[1..];
      if k < 0 then -1
      else
        assert s[..k + 1] == [s[0]] + s[1..][..k];
        k + 1
  }

  /** Stripping only the right end of a string first does not change what `strip` gives. */
  lemma {:induction false} StripAfterRStrip(s: string)
    ensures Strip(RStrip(s)) == Strip(s)
  {
    RStripIdempotent(s);
  }

  lemma {:induction false} RStripIdempotent(s: string)
    ensures RStrip(RStrip(s)) == RStrip(s)
  {
    if s != [] && IsPySpace(s[|s| - 1]) {
      RStripIdempotent(s[..|s| - 1]);
    }
  }

  /** `needle` occurs in `hay` at some position (JavaScript's `includes`). */
  predicate Contains(hay: string, needle: string) {
    exists k :: 0 <= k <= |hay| - |needle| && OccursAt(hay, needle, k)
  }

  predicate OccursAt(hay: string, needle: string, k: int)
    requires 0 <= k <= |hay| - |needle|
  {
    hay[k..k + |needle|] == needle
  }

  /** JavaScript's `hay.includes(needle)`, by scanning the start positions in order. */
  function Includes(hay: string, needle: string): (r: bool)
    ensures r <==> Contains(hay, needle)
    decreases |hay|
  {
    if |hay| < |needle| then false
    else if hay[..|needle|] == needle then assert OccursAt(hay, needle, 0); true
    else
      var r := Includes(hay[1..], needle);
      assert r ==> Contains(hay, needle) by {
        if r {
          var k :| 0 <= k <= |hay| - 1 - |needle| && OccursAt(hay[1..], needle, k);
          assert hay[k + 1..k + 1 + |needle|] == needle;
          assert OccursAt(hay, needle, k + 1);
        }
      }
      assert Contains(hay, needle) ==> r by {
        if Contains(hay, needle) {
          var k :| 0 <= k <= |hay| - |needle| && OccursAt(hay, needle, k);
          assert k != 0;
          assert hay[1..][k - 1..k - 1 + |needle|] == needle;
          assert OccursAt(hay[1..], needle, k - 1);
        }
      }
      r
  }

  /** The `length` of a JavaScript string: UTF-16 code units, two for a character
      outside the Basic Multilingual Plane. */
  function Utf16Length(s: string): (n: nat)
    ensures |s| <= n <= 2 * |s|
  {
    if s == [] then 0 else (if s[0] as int > 0xFFFF then 2 else 1) + Utf16Length(s[1..])
  }

  /** JavaScript's `a < b` on strings: a proper prefix is smaller, otherwise the first
      differing character decides. All strings compared this way in the model are ASCII,
      where characters and UTF-16 code units coincide. */
  predicate JsLess(a: string, b: string) {
    if b == [] then false
    else if a == [] then true
    else a[0] < b[0] || (a[0] == b[0] && JsLess(a[1..], b[1..]))
  }

  /** Comparing two concatenations whose first parts have the same length: the first
      parts decide unless they are equal. */
  lemma {:induction false} JsLessConcat(u1: string, v1: string, u2: string, v2: string)
    requires |u1| == |u2|
    ensures JsLess(u1 + v1, u2 + v2) <==> JsLess(u1, u2) || (u1 == u2 && JsLess(v1, v2))
  {
    if u1 == [] {
      assert u1 + v1 == v1 && u2 + v2 == v2;
    } else {
      assert (u1 + v1)[0] == u1[0] && (u2 + v2)[0] == u2[0];
      assert (u1 + v1)[1..] == u1[1..] + v1 && (u2 + v2)[1..] == u2[1..] + v2;
      JsLessConcat(u1[1..], v1, u2[1..], v2);
      assert u1 == u2 <==> u1[0] == u2[0] && u1[1..] == u2[1..] by {
        if u1[0] == u2[0] && u1[1..] == u2[1..] {
          assert u1 == [u1[0]] + u1[1..] && u2 == [u2[0]] + u2[1..];
        }
      }
    }
  }

  lemma {:induction false} JsLessIrreflexive(a: string)
    ensures !JsLess(a, a)
  {
    if a != [] {
      JsLessIrreflexive(a[1..]);
    }
  }
}
