/** Decimal numerals: their value, their order, and printing. */
module Decimal {

  predicate Digit(c: char) {
    '0' <= c <= '9'
  }

  predicate Digits(s: string) {
    forall i :: 0 <= i < |s| ==> Digit(s[i])
  }

  // No leading zero, except for zero itself.
  predicate Canonical(s: string) {
    s != "" && Digits(s) && (s[0] == '0' ==> s == "0")
  }

  function Val(c: char): nat
    requires Digit(c)
  {
    c as int - '0' as int
  }

  function Char(d: nat): (c: char)
    requires d < 10
    ensures Digit(c) && Val(c) == d
  {
    (d + '0' as int) as char
  }

  function Num(s: string): nat
    requires Digits(s)
  {
    if s == "" then 0 else 10 * Num(s[..|s| - 1]) + Val(s[|s| - 1])
  }

  function Pow10(n: nat): (p: nat)
    ensures p >= 1
  {
    if n == 0 then 1 else 10 * Pow10(n - 1)
  }

  // The numeral of n.
  function Print(n: nat): (s: string)
    ensures s != "" && Digits(s)
  {
    if n < 10 then [Char(n)] else Print(n / 10) + [Char(n % 10)]
  }

  lemma NumNext(s: string, c: char)
    requires Digits(s) && Digit(c)
    ensures Digits(s + [c]) && Num(s + [c]) == 10 * Num(s) + Val(c)
  {
    assert (s + [c])[..|s|] == s;
  }

  lemma {:induction false} NumBelow(s: string)
    requires Digits(s)
    ensures Num(s) < Pow10(|s|)
    decreases |s|
  {
    if s != "" {
      NumBelow(s[..|s| - 1]);
    }
  }

  lemma {:induction false} NumAtLeast(s: string)
    requires Canonical(s) && s != "0"
    ensures Num(s) >= Pow10(|s| - 1)
    decreases |s|
  {
    if |s| > 1 {
      NumAtLeast(s[..|s| - 1]);
    } else {
      assert s[..0] == "";
    }
  }

  lemma {:induction false} PowGrows(m: nat, n: nat)
    requires m <= n
    ensures Pow10(m) <= Pow10(n)
    decreases n
  {
    if m < n {
      PowGrows(m, n - 1);
    }
  }

  lemma Scale(x: nat, p: nat)
    ensures 10 * (x * p) == x * (10 * p)
  {
  }

  // Appending digits.
  lemma {:induction false} NumJoin(a: string, b: string)
    requires Digits(a) && Digits(b)
    ensures Digits(a + b) && Num(a + b) == Num(a) * Pow10(|b|) + Num(b)
    decreases |b|
  {
    if b == "" {
      assert a + b == a;
    } else {
      var b', c := b[..|b| - 1], b[|b| - 1];
      NumJoin(a, b');
      NumNext(a + b', c);
      Scale(Num(a), Pow10(|b'|));
      hide Num;
      assert a + b == a + b' + [c] && b == b' + [c];
      NumNext(b', c);
    }
  }

  lemma OneDigit(c: char)
    requires Digit(c)
    ensures Num([c]) == Val(c)
  {
    assert [c][..0] == "";
  }

  function Zeros(n: nat): (z: string)
    ensures |z| == n && forall i :: 0 <= i < n ==> z[i] == '0'
  {
    if n == 0 then "" else Zeros(n - 1) + ['0']
  }

  lemma {:induction false} NumZeros(n: nat)
    ensures Digits(Zeros(n)) && Num(Zeros(n)) == 0
  {
    if n > 0 {
      NumZeros(n - 1);
      assert Zeros(n)[..n - 1] == Zeros(n - 1);
    }
  }

  // ---------- the order ----------

  // memcmp(a, b) < 0 for the same length.
  predicate LexLess(a: string, b: string)
    requires |a| == |b|
  {
    a != "" && (a[0] < b[0] || (a[0] == b[0] && LexLess(a[1..], b[1..])))
  }

  lemma Above(x: nat, y: nat, p: nat)
    requires x < y
    ensures x * p + p <= y * p
  {
    assert (x + 1) * p <= y * p;
  }

  lemma FirstDigit(s: string)
    requires s != "" && Digits(s)
    ensures Digits(s[1..]) && Num(s) == Val(s[0]) * Pow10(|s| - 1) + Num(s[1..])
  {
    OneDigit(s[0]);
    NumJoin([s[0]], s[1..]);
    hide Num, Pow10;
    assert [s[0]] + s[1..] == s;
  }

  lemma {:induction false} LexIsNumeric(a: string, b: string)
    requires |a| == |b| && Digits(a) && Digits(b)
    ensures LexLess(a, b) <==> Num(a) < Num(b)
    decreases |a|
  {
    if a != "" {
      LexIsNumeric(a[1..], b[1..]);
      FirstDigit(a);
      FirstDigit(b);
      NumBelow(a[1..]);
      NumBelow(b[1..]);
      var p := Pow10(|a| - 1);
      if a[0] < b[0] {
        Above(Val(a[0]), Val(b[0]), p);
      } else if b[0] < a[0] {
        Above(Val(b[0]), Val(a[0]), p);
      }
    }
  }

  // Fewer digits, smaller number.
  lemma ShorterIsLess(a: string, b: string)
    requires Canonical(a) && Canonical(b) && |a| < |b|
    ensures Num(a) < Num(b)
  {
    NumBelow(a);
    NumAtLeast(b);
    PowGrows(|a|, |b| - 1);
  }

  lemma {:induction false} SameNumber(a: string, b: string)
    requires Digits(a) && Digits(b) && |a| == |b| && Num(a) == Num(b)
    ensures a == b
    decreases |a|
  {
    if a != "" {
      SameNumber(a[..|a| - 1], b[..|b| - 1]);
      assert a == a[..|a| - 1] + [a[|a| - 1]] && b == b[..|b| - 1] + [b[|b| - 1]];
    }
  }

  // A number has one canonical numeral.
  lemma Unique(a: string, b: string)
    requires Canonical(a) && Canonical(b) && Num(a) == Num(b)
    ensures a == b
  {
    if |a| < |b| {
      ShorterIsLess(a, b);
    } else if |b| < |a| {
      ShorterIsLess(b, a);
    } else {
      SameNumber(a, b);
    }
  }

  lemma {:induction false} PrintsBack(n: nat)
    ensures Canonical(Print(n)) && Num(Print(n)) == n
    decreases n
  {
    if n < 10 {
      assert Print(n)[..0] == "";
    } else {
      PrintsBack(n / 10);
      NumNext(Print(n / 10), Char(n % 10));
      assert Print(n)[0] == Print(n / 10)[0];
    }
  }

  // Printing the value of a canonical numeral gives it back.
  lemma PrintInverts(s: string)
    requires Canonical(s)
    ensures Print(Num(s)) == s
  {
    PrintsBack(Num(s));
    Unique(s, Print(Num(s)));
  }
}
