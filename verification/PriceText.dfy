/** The integers and rates that the exchange prints: `1234`, `1,234`, `-56`, `+1.25`. */
module PriceText {
  import opened Wrappers
  import opened Decimal

  datatype Error = Inconsistent

  function Split(s: string, sep: char): (r: seq<string>)
    ensures |r| > 0
  {
    if s == [] then [[]]
    else
      var r := Split(s[..|s| - 1], sep);
      var c := s[|s| - 1];
      if c == sep then r + [[]] else r[..|r| - 1] + [r[|r| - 1] + [c]]
  }

  /** `replace(sep, "")`. */
  function Without(s: string, sep: char): string {
    if s == [] then []
    else Without(s[..|s| - 1], sep) + (if s[|s| - 1] == sep then [] else [s[|s| - 1]])
  }

  predicate IsGroup(g: string) { |g| == 3 && AllDigits(g) }

  predicate IsFirstGroup(g: string) { 1 <= |g| <= 3 && g[0] != '0' && AllDigits(g) }

  predicate AreGroups(g: seq<string>) {
    |g| > 0 && IsFirstGroup(g[0]) && forall k :: 1 <= k < |g| ==> IsGroup(g[k])
  }

  predicate CanonicalDigits(v: string) {
    if v == "0" then true
    else if v == [] || v[0] == '0' then false
    else if ',' !in v then AllDigits(v)
    else AreGroups(Split(v, ','))
  }

  /** Canonical digits, read without their commas. */
  function Magnitude(m: string): Result<nat, Error> {
    if !CanonicalDigits(m) then Failure(Inconsistent)
    else
      var digits := Without(m, ',');
      if digits == [] || !AllDigits(digits) then Failure(Inconsistent) else Success(Value(digits))
  }

  function ExactInteger(value: Option<string>, allowNegative: bool): Result<int, Error> {
    match value
    case None => Failure(Inconsistent)
    case Some(v) =>
      if |v| > 0 && v[0] == '-' then
        if !allowNegative then Failure(Inconsistent)
        else match Magnitude(v[1..])
             case Success(n) => (var m: int := n; Success(-m))
             case Failure(e) => Failure(e)
      else match Magnitude(v)
           case Success(n) => (var m: int := n; Success(m))
           case Failure(e) => Failure(e)
  }

  function ExactNonnegative(value: Option<string>): Result<nat, Error> {
    match ExactInteger(value, false)
    case Success(n) => if n < 0 then Failure(Inconsistent) else Success(n as nat)
    case Failure(e) => Failure(e)
  }

  // ---------------------------------------------------------------- printing with commas

  function Pad3(n: nat): (s: string)
    requires n < 1000
    ensures IsGroup(s)
  {
    [DigitChar(n / 100), DigitChar(n / 10 % 10), DigitChar(n % 10)]
  }

  function Grouped(n: nat): string {
    if n < 1000 then Print(n) else Grouped(n / 1000) + "," + Pad3(n % 1000)
  }

  lemma Value3(s: string)
    requires IsGroup(s)
    ensures Value(s) == 100 * DigitValue(s[0]) + 10 * DigitValue(s[1]) + DigitValue(s[2])
    ensures Value(s) < 1000
  {
    assert s[..2][..1][..0] == [] && s[..2][..1] == s[..1];
    assert Value(s[..2]) == 10 * Value(s[..1]) + DigitValue(s[1]);
  }

  lemma Pad3Value(n: nat)
    requires n < 1000
    ensures Value(Pad3(n)) == n
  {
    Value3(Pad3(n));
    var a := n / 10;
    assert n == 10 * a + n % 10 && a == 10 * (a / 10) + a % 10 && a / 10 == n / 100;
    hide Value;
  }

  lemma Value3Pad(s: string)
    requires IsGroup(s)
    ensures Value(s) < 1000 && Pad3(Value(s)) == s
  {
    Value3(s);
    ThreeDigits(DigitValue(s[0]), DigitValue(s[1]), DigitValue(s[2]));
    hide Value;
    assert s == [s[0], s[1], s[2]];
  }

  lemma ThreeDigits(a: nat, b: nat, c: nat)
    requires a < 10 && b < 10 && c < 10
    ensures var n := 100 * a + 10 * b + c; n / 100 == a && n / 10 % 10 == b && n % 10 == c
  {
    assert (100 * a + 10 * b + c) / 10 == 10 * a + b;
  }

  lemma {:induction false} ValueOfGroups(s: string, g: string)
    requires AllDigits(s) && IsGroup(g)
    ensures AllDigits(s + g) && Value(s + g) == 1000 * Value(s) + Value(g)
  {
    Value3(g);
    var x, y, z := s + g[..1], s + g[..2], s + g;
    assert x[..|x| - 1] == s && y[..|y| - 1] == x && z[..|z| - 1] == y;
    assert Value(x) == 10 * Value(s) + DigitValue(g[0]);
    assert Value(y) == 10 * Value(x) + DigitValue(g[1]);
  }

  // ---------------------------------------------------------------- splitting

  lemma {:induction false} SplitAppend(h: string, t: string, sep: char)
    requires sep !in t
    ensures Split(h + [sep] + t, sep) == Split(h, sep) + [t]
    ensures Without(h + [sep] + t, sep) == Without(h, sep) + t
  {
    var s := h + [sep] + t;
    if t == [] {
      assert s[..|s| - 1] == h;
    } else {
      var u := t[..|t| - 1];
      assert s[..|s| - 1] == h + [sep] + u;
      SplitAppend(h, u, sep);
      assert t == u + [t[|t| - 1]];
      var r := Split(h, sep) + [u];
      assert r[..|r| - 1] == Split(h, sep);
      assert t[|t| - 1] in t;
    }
  }

  lemma {:induction false} SplitAlone(s: string, sep: char)
    requires sep !in s
    ensures Split(s, sep) == [s] && Without(s, sep) == s
  {
    if s != [] {
      SplitAlone(s[..|s| - 1], sep);
      assert s == s[..|s| - 1] + [s[|s| - 1]];
      assert s[|s| - 1] in s;
    }
  }

  /** The part after the last separator. */
  lemma {:induction false} SplitPeel(s: string, sep: char) returns (h: string, t: string)
    requires sep in s
    ensures s == h + [sep] + t && sep !in t && |h| < |s|
  {
    var u, c := s[..|s| - 1], s[|s| - 1];
    if c == sep {
      h, t := u, [];
    } else {
      assert s == u + [c];
      h, t := SplitPeel(u, sep);
      t := t + [c];
    }
  }

  function Join(parts: seq<string>, sep: char): string
    requires parts != []
  {
    if |parts| == 1 then parts[0] else Join(parts[..|parts| - 1], sep) + [sep] + parts[|parts| - 1]
  }

  lemma {:induction false} JoinSplit(s: string, sep: char)
    ensures Join(Split(s, sep), sep) == s
  {
    if s != [] {
      var u, c := s[..|s| - 1], s[|s| - 1];
      JoinSplit(u, sep);
      var r := Split(u, sep);
      assert s == u + [c];
      JoinNext(r, c, sep);
      hide Join;
    }
  }

  lemma JoinNext(r: seq<string>, c: char, sep: char)
    requires r != []
    ensures Join(r + [[]], sep) == Join(r, sep) + [sep]
    ensures Join(r[..|r| - 1] + [r[|r| - 1] + [c]], sep) == Join(r, sep) + [c]
  {
    var n := |r| - 1;
    assert (r + [[]])[..|r|] == r;
    var t := r[..n] + [r[n] + [c]];
    assert t[..n] == r[..n];
    if n > 0 {
      var front := Join(r[..n], sep) + [sep];
      assert Join(t, sep) == front + (r[n] + [c]);
      assert front + (r[n] + [c]) == (front + r[n]) + [c];
    }
  }

  // ---------------------------------------------------------------- what is accepted

  lemma {:induction false} GroupedShape(n: nat)
    requires n > 0
    ensures AreGroups(Split(Grouped(n), ',')) && AllDigits(Without(Grouped(n), ',')) && Without(Grouped(n), ',') != []
    ensures Value(Without(Grouped(n), ',')) == n
    ensures ',' in Grouped(n) <==> n >= 1000
    ensures Grouped(n) != [] && IsDigit(Grouped(n)[0]) && Grouped(n)[0] != '0'
  {
    hide Split, Without, Value, Print;
    if n < 1000 {
      PrintThenRead(n);
      SmallPrint(n);
      assert ',' !in Print(n);
      SplitAlone(Print(n), ',');
    } else {
      GroupedShape(n / 1000);
      SplitAppend(Grouped(n / 1000), Pad3(n % 1000), ',');
      Pad3Value(n % 1000);
      ValueOfGroups(Without(Grouped(n / 1000), ','), Pad3(n % 1000));
      assert Grouped(n)[|Grouped(n / 1000)|] == ',';
      assert Grouped(n)[0] == Grouped(n / 1000)[0];
    }
  }

  lemma SmallPrint(n: nat)
    requires n < 1000
    ensures |Print(n)| <= 3
  {
    if n >= 10 {
      var m := n / 10;
      assert |Print(m)| <= 2 by {
        if m >= 10 { assert m / 10 < 10 && |Print(m / 10)| == 1; }
      }
    }
  }

  lemma {:induction false} GroupsRead(s: string)
    requires AreGroups(Split(s, ','))
    ensures AllDigits(Without(s, ',')) && Without(s, ',') != []
    ensures Value(Without(s, ',')) > 0 && s == Grouped(Value(Without(s, ',')))
    decreases |s|
  {
    if ',' in s {
      var h, t := SplitPeel(s, ',');
      SplitAppend(h, t, ',');
      var g := Split(s, ',');
      assert t == g[|g| - 1];
      assert Split(h, ',') == g[..|g| - 1];
      GroupsRead(h);
      ValueOfGroups(Without(h, ','), t);
      Value3Pad(t);
      var m := Value(Without(h, ','));
      assert (1000 * m + Value(t)) / 1000 == m && (1000 * m + Value(t)) % 1000 == Value(t);
    } else {
      SplitAlone(s, ',');
      ReadThenPrint(s);
      ShortValue(s);
    }
  }

  lemma {:induction false} ShortValue(s: string)
    requires IsFirstGroup(s)
    ensures 0 < Value(s) < 1000
  {
    LeadingDigit(s);
    assert Pow10(0) == 1 && Pow10(1) == 10 && Pow10(2) == 100;
    assert DigitValue(s[0]) > 0;
  }

  predicate Prints(v: string, n: nat) { v == Print(n) || v == Grouped(n) }

  lemma PrintedIsRead(v: string, n: nat)
    requires Prints(v, n)
    ensures Magnitude(v) == Success(n) && v != [] && v[0] != '-'
  {
    PrintThenRead(n);
    if n == 0 || v == Print(n) || n < 1000 {
      SplitAlone(v, ',');
    } else {
      GroupedShape(n);
    }
  }

  lemma ReadIsPrinted(v: string, n: nat)
    requires Magnitude(v) == Success(n)
    ensures Prints(v, n) && v != [] && v[0] != '-'
  {
    if v == "0" {
      SplitAlone(v, ',');
      assert v[..0] == [];
    } else if ',' !in v {
      SplitAlone(v, ',');
      ReadThenPrint(v);
    } else {
      GroupsRead(v);
      GroupedShape(n);
    }
  }

  /** A price is read exactly when it is the plain or the comma-grouped print of a
      number, and the number read is that number. */
  lemma ReadsWhatIsPrinted(v: string, n: nat)
    ensures ExactNonnegative(Some(v)) == Success(n) <==> Prints(v, n)
  {
    if Prints(v, n) { PrintedIsRead(v, n); }
    if Magnitude(v) == Success(n) { ReadIsPrinted(v, n); }
    hide Magnitude, Prints;
  }

  /** The same with a sign: a leading minus is read as negation, also before zero. */
  lemma ReadsSigned(v: string, n: int)
    ensures ExactInteger(Some(v), true) == Success(n) <==>
              || (n >= 0 && Prints(v, n))
              || (n <= 0 && |v| > 0 && v[0] == '-' && Prints(v[1..], -n))
  {
    var negative := |v| > 0 && v[0] == '-';
    var m := if negative then v[1..] else v;
    var k := if negative then -n else n;
    if n >= 0 && Prints(v, n) { PrintedIsRead(v, n); }
    if k >= 0 && Prints(m, k) { PrintedIsRead(m, k); }
    if k >= 0 && Magnitude(m) == Success(k) { ReadIsPrinted(m, k); }
    hide Magnitude, Prints;
  }

  // ---------------------------------------------------------------- rates

  /** Digits, a point, two digits; `split_once` would leave further points in the
      fraction, where they are refused. */
  function Hundredths(unsigned: string): Result<nat, Error> {
    var parts := Split(unsigned, '.');
    if |parts| != 2 || parts[0] == [] || !AllDigits(parts[0]) || |parts[1]| != 2 || !AllDigits(parts[1]) then
      Failure(Inconsistent)
    else Success(Value(parts[0] + parts[1]))
  }

  /** `parse_rate_hundredths`. */
  function RateHundredths(v: string): Result<int, Error> {
    var signed := |v| > 0 && (v[0] == '+' || v[0] == '-');
    match Hundredths(if signed then v[1..] else v)
    case Success(n) => (var m: int := n; Success(if signed && v[0] == '-' then -m else m))
    case Failure(e) => Failure(e)
  }

  /** `v` is an optional sign, digits, a point and two digits, which make `n` hundredths. */
  predicate IsRate(v: string, sign: string, whole: string, fraction: string, n: int) {
    && v == sign + whole + ['.'] + fraction
    && (sign == "" || sign == "+" || sign == "-")
    && whole != [] && AllDigits(whole) && |fraction| == 2 && AllDigits(fraction)
    && n == (if sign == "-" then -1 else 1) * (100 * Value(whole) + Value(fraction))
  }

  lemma RateIsRead(v: string, sign: string, whole: string, fraction: string, n: int)
    requires IsRate(v, sign, whole, fraction, n)
    ensures RateHundredths(v) == Success(n)
  {
    var u := whole + ['.'] + fraction;
    UnsignedRate(whole, fraction, u);
    hide Hundredths, Value, Split;
    if sign == "" {
      assert v == u && v[0] == whole[0];
    } else {
      assert v[0] == sign[0] && v[1..] == u;
    }
  }

  lemma CutRate(u: string, n: nat) returns (whole: string, fraction: string)
    requires Hundredths(u) == Success(n)
    ensures u == whole + ['.'] + fraction
    ensures whole != [] && AllDigits(whole) && |fraction| == 2 && AllDigits(fraction)
    ensures n == 100 * Value(whole) + Value(fraction)
  {
    var parts := Split(u, '.');
    whole, fraction := parts[0], parts[1];
    JoinSplit(u, '.');
    assert parts[..1] == [whole] && Join(parts, '.') == Join(parts[..1], '.') + ['.'] + fraction;
    hide Split, Join;
    ValueOfCents(whole, fraction);
    hide Value;
  }

  lemma ReadIsRate(v: string, n: int) returns (sign: string, whole: string, fraction: string)
    requires RateHundredths(v) == Success(n)
    ensures IsRate(v, sign, whole, fraction, n)
  {
    hide Hundredths, Value;
    sign := if |v| > 0 && (v[0] == '+' || v[0] == '-') then [v[0]] else "";
    var u := v[|sign|..];
    whole, fraction := CutRate(u, Hundredths(u).value);
    assert v == sign + u;
    assert sign + (whole + ['.'] + fraction) == sign + whole + ['.'] + fraction;
  }

  /** A rate is accepted exactly if it is digits, a point and two digits after an optional
      sign, and it is read in hundredths. */
  lemma RateIsHundredths(v: string, n: int)
    ensures RateHundredths(v) == Success(n) <==> exists sign, whole, fraction :: IsRate(v, sign, whole, fraction, n)
  {
    hide RateHundredths, IsRate;
    if RateHundredths(v) == Success(n) {
      var sign, whole, fraction := ReadIsRate(v, n);
    }
    forall sign, whole, fraction | IsRate(v, sign, whole, fraction, n) ensures RateHundredths(v) == Success(n) {
      RateIsRead(v, sign, whole, fraction, n);
    }
  }

  lemma UnsignedRate(whole: string, fraction: string, u: string)
    requires AllDigits(whole) && whole != [] && AllDigits(fraction) && |fraction| == 2
    requires u == whole + ['.'] + fraction
    ensures Hundredths(u) == Success(100 * Value(whole) + Value(fraction))
    ensures u[0] == whole[0]
  {
    SplitsOnce(whole, fraction, u);
    ValueOfCents(whole, fraction);
    hide Split, Value;
  }

  lemma SplitsOnce(whole: string, fraction: string, u: string)
    requires AllDigits(whole) && AllDigits(fraction) && u == whole + ['.'] + fraction
    ensures Split(u, '.') == [whole, fraction]
  {
    SplitAppend(whole, fraction, '.');
    SplitAlone(whole, '.');
  }

  lemma ValueOfCents(whole: string, fraction: string)
    requires AllDigits(whole) && AllDigits(fraction) && |fraction| == 2
    ensures Value(whole + fraction) == 100 * Value(whole) + Value(fraction)
  {
    var w := whole + fraction;
    var x := whole + fraction[..1];
    assert w[..|w| - 1] == x && x[..|x| - 1] == whole;
    assert fraction[..1][..0] == [] && Value(fraction[..1]) == DigitValue(fraction[0]);
    assert Value(fraction) == 10 * Value(fraction[..1]) + DigitValue(fraction[1]);
    assert Value(x) == 10 * Value(whole) + DigitValue(fraction[0]);
  }
}
