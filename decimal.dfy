/** Decimal digit strings: their value, fixed-width zero-padded formatting, and the
    fact that such strings of one width sort like the numbers they write. */
module Decimal {
  import opened Text

  predicate IsDigit(c: char) {
    '0' <= c <= '9'
  }

  predicate AllDigits(s: string) {
    forall i :: 0 <= i < |s| ==> IsDigit(s[i])
  }

  /** Python's `str.isdigit()` on ASCII text: non-empty and only digits. */
  predicate IsDigits(s: string) {
    s != [] && AllDigits(s)
  }

  function DigitValue(c: char): (n: nat)
    requires IsDigit(c)
    ensures n < 10
  {
    c as int - '0' as int
  }

  function DigitChar(n: nat): (c: char)
    requires n < 10
    ensures IsDigit(c) && DigitValue(c) == n
  {
    ('0' as int + n) as char
  }

  /** The number a digit string writes (`int(s)` in Python). */
  function Value(s: string): nat
    requires AllDigits(s)
  {
    if s == [] then 0 else Value(s[..|s| - 1]) * 10 + DigitValue(s[|s| - 1])
  }

  function Pow10(w: nat): (p: nat)
    ensures p >= 1
  {
    if w == 0 then 1 else 10 * Pow10(w - 1)
  }

  /** `n` written with exactly `w` digits, zero-padded on the left. */
  function Pad(n: nat, w: nat): (s: string)
    ensures |s| == w && AllDigits(s)
  {
    if w == 0 then [] else Pad(n / 10, w - 1) + [DigitChar(n % 10)]
  }

  /** Reading back a padded number gives the number. */
  lemma {:induction false} ValueOfPad(n: nat, w: nat)
    requires n < Pow10(w)
    ensures Value(Pad(n, w)) == n
  {
    if w > 0 {
      var q, r := n / 10, n % 10;
      assert n == 10 * q + r && 0 <= r < 10;
      assert Pow10(w) == 10 * Pow10(w - 1);
      assert q < Pow10(w - 1);
      var s := Pad(n, w);
      assert s == Pad(q, w - 1) + [DigitChar(r)];
      assert s[..w - 1] == Pad(q, w - 1) && s[w - 1] == DigitChar(r);
      ValueOfPad(q, w - 1);
      assert Value(s) == Value(s[..w - 1]) * 10 + DigitValue(s[w - 1]);
    }
  }

  /** A digit string is the padding of its own value to its own width. */
  lemma {:induction false} PadOfValue(s: string)
    requires AllDigits(s)
    ensures Value(s) < Pow10(|s|) && Pad(Value(s), |s|) == s
  {
    if s != [] {
      var p := s[..|s| - 1];
      PadOfValue(p);
      var v := Value(s);
      assert v / 10 == Value(p) && v % 10 == DigitValue(s[|s| - 1]);
      assert s == p + [s[|s| - 1]];
    }
  }

  lemma PadInjective(x: nat, y: nat, w: nat)
    requires x < Pow10(w) && y < Pow10(w)
    ensures Pad(x, w) == Pad(y, w) <==> x == y
  {
    ValueOfPad(x, w);
    ValueOfPad(y, w);
  }

  /** Zero-padded numbers of one width compare as strings exactly as they compare as
      numbers. */
  lemma {:induction false} PadOrder(x: nat, y: nat, w: nat)
    requires x < Pow10(w) && y < Pow10(w)
    ensures JsLess(Pad(x, w), Pad(y, w)) <==> x < y
  {
    if w == 0 {
    } else {
      var hx, hy := Pad(x / 10, w - 1), Pad(y / 10, w - 1);
      PadOrder(x / 10, y / 10, w - 1);
      PadInjective(x / 10, y / 10, w - 1);
      JsLessConcat(hx, [DigitChar(x % 10)], hy, [DigitChar(y % 10)]);
      assert JsLess([DigitChar(x % 10)], [DigitChar(y % 10)]) <==> x % 10 < y % 10 by {
        assert [DigitChar(x % 10)][1..] == [];
        assert DigitChar(x % 10) < DigitChar(y % 10) <==> x % 10 < y % 10;
      }
      assert x == 10 * (x / 10) + x % 10 && y == 10 * (y / 10) + y % 10;
    }
  }
}
