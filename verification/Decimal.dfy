/** Decimal digit strings: what `to_string` prints and `parse` reads. */
module Decimal {

  predicate IsDigit(c: char) { '0' <= c <= '9' }

  predicate AllDigits(s: string) { forall k :: 0 <= k < |s| ==> IsDigit(s[k]) }

  function DigitValue(c: char): (d: nat)
    requires IsDigit(c)
    ensures d < 10
  {
    c as int - '0' as int
  }

  function DigitChar(d: nat): (c: char)
    requires d < 10
    ensures IsDigit(c) && DigitValue(c) == d
  {
    '0' + d as char
  }

  function Value(s: string): nat
    requires AllDigits(s)
  {
    if s == [] then 0 else 10 * Value(s[..|s| - 1]) + DigitValue(s[|s| - 1])
  }

  function Print(n: nat): (s: string)
    ensures AllDigits(s) && |s| > 0
  {
    if n < 10 then [DigitChar(n)] else Print(n / 10) + [DigitChar(n % 10)]
  }

  /** No leading zero, unless the number is zero. */
  predicate Canonical(s: string) { |s| > 0 && AllDigits(s) && (|s| == 1 || s[0] != '0') }

  lemma {:induction false} PrintThenRead(n: nat)
    ensures Canonical(Print(n)) && Value(Print(n)) == n
    ensures n > 0 ==> Print(n)[0] != '0'
  {
    if n >= 10 {
      PrintThenRead(n / 10);
      assert Print(n)[..|Print(n)| - 1] == Print(n / 10);
    }
  }

  lemma {:induction false} ReadThenPrint(s: string)
    requires Canonical(s)
    ensures Print(Value(s)) == s
    ensures |s| > 1 ==> Value(s) >= 10
  {
    if |s| > 1 {
      var t := s[..|s| - 1];
      ReadThenPrint(t);
      assert s == t + [s[|s| - 1]];
      if |t| == 1 {
        assert Value(t) == DigitValue(t[0]) by { assert t[..0] == []; }
        assert t[0] != '0';
      }
    } else {
      assert s[..0] == [];
      assert s == [s[0]];
    }
  }

  function Pow10(n: nat): (p: nat)
    ensures p > 0
  {
    if n == 0 then 1 else 10 * Pow10(n - 1)
  }

  lemma TimesTen(d: nat, p: nat)
    ensures 10 * (d * p) == d * (10 * p)
  {}

  lemma {:induction false} LeadingDigit(s: string)
    requires AllDigits(s) && |s| > 0
    ensures Value(s) == DigitValue(s[0]) * Pow10(|s| - 1) + Value(s[1..])
    ensures Value(s[1..]) < Pow10(|s| - 1)
  {
    if |s| == 1 {
      assert s[..0] == [];
    } else {
      var t := s[..|s| - 1];
      LeadingDigit(t);
      assert s[1..][..|s| - 2] == t[1..];
      assert t[0] == s[0];
      TimesTen(DigitValue(s[0]), Pow10(|s| - 2));
    }
  }

  /** Byte-wise string order, as `Ord for String` compares. */
  predicate Less(s: string, t: string) {
    t != [] && (s == [] || s[0] < t[0] || (s[0] == t[0] && Less(s[1..], t[1..])))
  }

  lemma {:induction false} LessTotal(a: string, b: string)
    ensures Less(a, b) || Less(b, a) || a == b
    ensures !(Less(a, b) && Less(b, a))
  {
    if a != [] && b != [] {
      LessTotal(a[1..], b[1..]);
      if a[0] == b[0] && a[1..] == b[1..] { assert a == [a[0]] + a[1..] && b == [b[0]] + b[1..]; }
    }
  }

  lemma {:induction false} LessTransitive(a: string, b: string, c: string)
    requires Less(a, b) && Less(b, c)
    ensures Less(a, c)
  {
    if a != [] && a[0] == b[0] == c[0] { LessTransitive(a[1..], b[1..], c[1..]); }
  }

  lemma HigherDigitWins(a: nat, b: nat, p: nat, u: nat, v: nat)
    requires a < b && u < p
    ensures a * p + u < b * p + v
  {
    assert (a + 1) * p <= b * p;
  }

  /** On digit strings of one length the string order is the numeric order. */
  lemma {:induction false} LessIsNumeric(s: string, t: string)
    requires AllDigits(s) && AllDigits(t) && |s| == |t|
    ensures Less(s, t) <==> Value(s) < Value(t)
    ensures Value(s) == Value(t) ==> s == t
  {
    if s != [] {
      LeadingDigit(s);
      LeadingDigit(t);
      LessIsNumeric(s[1..], t[1..]);
      var p := Pow10(|s| - 1);
      var a, b := DigitValue(s[0]), DigitValue(t[0]);
      if a < b {
        HigherDigitWins(a, b, p, Value(s[1..]), Value(t[1..]));
      } else if b < a {
        HigherDigitWins(b, a, p, Value(t[1..]), Value(s[1..]));
      } else {
        assert s == [s[0]] + s[1..] && t == [t[0]] + t[1..];
      }
    }
  }
}
