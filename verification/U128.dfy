/**
 128-bit numbers for hosts with and without an integer type that wide: without it
 the number is kept as its decimal text.
 */
module U128 {
  import opened Decimal

  const RAW_MAX_LEN := 40
  const TWO_128 := 0x1_0000_0000_0000_0000_0000_0000_0000_0000

  type uint128 = x: nat | x < 0x1_0000_0000_0000_0000_0000_0000_0000_0000

  const NUL := '\0'

  // A character array up to its first NUL.
  function CString(a: seq<char>): (s: string)
    ensures |s| <= |a| && forall i :: 0 <= i < |s| ==> s[i] != NUL
    ensures s == a[..|s|] && (|s| < |a| ==> a[|s|] == NUL)
  {
    if a == [] || a[0] == NUL then [] else [a[0]] + CString(a[1..])
  }

  // What the text build keeps.
  function Padded(s: string): (a: seq<char>)
    requires |s| < RAW_MAX_LEN
    ensures |a| == RAW_MAX_LEN
  {
    s + seq(RAW_MAX_LEN - |s|, _ => NUL)
  }

  lemma {:induction false} CStringOf(s: string, a: seq<char>)
    requires |s| < |a| && s == a[..|s|] && a[|s|] == NUL && NUL !in s
    ensures CString(a) == s
    decreases |s|
  {
    if s != "" {
      assert a[0] == s[0] && s[0] in s;
      assert a[1..][..|s| - 1] == s[1..];
      CStringOf(s[1..], a[1..]);
    }
  }

  lemma CStringPadded(s: string)
    requires |s| < RAW_MAX_LEN && Digits(s)
    ensures CString(Padded(s)) == s
  {
    CStringOf(s, Padded(s));
  }

  // ---------- the text build ----------

  predicate Stored(str: string) {
    |str| < RAW_MAX_LEN && Digits(str)
  }

  // str2u128: what is no number, or too long for the array, becomes zero.
  method Str2Text(str: string, raw: array<char>)
    requires raw.Length == RAW_MAX_LEN
    modifies raw
    ensures raw[..] == Padded(if Stored(str) then str else "0")
  {
    forall i | 0 <= i < raw.Length {
      raw[i] := NUL;
    }
    if |str| > RAW_MAX_LEN - 1 {
      raw[0] := '0';
      assert raw[..] == Padded("0");
      return;
    }
    var k := 0;
    while k < |str|
      invariant k <= |str| && raw[..] == Padded(str[..k]) && Digits(str[..k])
    {
      if '0' <= str[k] <= '9' {
        raw[k] := str[k];
        assert str[..k + 1] == str[..k] + [str[k]];
      } else {
        forall i | 0 <= i < raw.Length {
          raw[i] := NUL;
        }
        raw[0] := '0';
        assert raw[..] == Padded("0");
        return;
      }
      k := k + 1;
    }
    assert str[..k] == str;
  }

  predicate TextLess(a: seq<char>, b: seq<char>) {
    var s, t := CString(a), CString(b);
    |s| < |t| || (|s| == |t| && LexLess(s, t))
  }

  // strlen.
  method StrLen(a: seq<char>) returns (n: nat)
    ensures n == |CString(a)|
  {
    n := 0;
    while n < |a| && a[n] != NUL
      invariant n <= |a| && |CString(a)| == n + |CString(a[n..])|
    {
      assert a[n..][1..] == a[n + 1..];
      n := n + 1;
    }
  }

  // u128_is_less.
  method IsLessText(a: seq<char>, b: seq<char>) returns (less: bool)
    ensures less == TextLess(a, b)
  {
    var aLen := StrLen(a);
    var bLen := StrLen(b);
    if aLen < bLen {
      return true;
    } else if bLen < aLen {
      return false;
    }
    less := LexLess(a[..aLen], b[..aLen]);
  }

  // u1282str: no text when the buffer is too short.
  method Text2Str(raw: seq<char>, str: array<char>, max: nat) returns (ok: bool)
    requires max <= str.Length && |CString(raw)| < |raw|
    modifies str
    ensures ok <==> max >= |CString(raw)| + 1
    ensures ok ==> str[..|CString(raw)| + 1] == CString(raw) + [NUL]
  {
    var n := StrLen(raw);
    if max < n + 1 {
      return false;
    }
    forall i | 0 <= i < n {
      str[i] := raw[i];
    }
    str[n] := NUL;
    ok := true;
  }

  // ---------- the integer build ----------

  lemma {:induction false} Multiple(y: nat, k: nat)
    ensures (y + TWO_128 * k) % TWO_128 == y % TWO_128
  {
    if k > 0 {
      Multiple(y, k - 1);
    }
  }

  lemma WrapOnce(x: nat, d: nat)
    ensures (x % TWO_128 * 10 + d) % TWO_128 == (10 * x + d) % TWO_128
  {
    var q := x / TWO_128;
    Multiple(x % TWO_128 * 10 + d, 10 * q);
    assert 10 * x + d == (x % TWO_128 * 10 + d) + TWO_128 * (10 * q);
  }

  // str2u128, with the multiplication wrapping around.
  method Str2Int(str: string) returns (n: uint128)
    ensures n == if Digits(str) then Num(str) % TWO_128 else 0
  {
    n := 0;
    var k := 0;
    while k < |str|
      invariant k <= |str| && Digits(str[..k]) && n == Num(str[..k]) % TWO_128
    {
      if '0' <= str[k] <= '9' {
        assert str[..k + 1] == str[..k] + [str[k]];
        NumNext(str[..k], str[k]);
        WrapOnce(Num(str[..k]), Val(str[k]));
        n := (n * 10 + (str[k] as int - '0' as int)) % TWO_128;
      } else {
        return 0;
      }
      k := k + 1;
    }
    assert str[..k] == str;
  }

  function Reversed(s: string): (r: string)
    ensures |r| == |s|
  {
    if s == "" then "" else Reversed(s[1..]) + [s[0]]
  }

  lemma {:induction false} ReversedAt(s: string, k: nat)
    requires k < |s|
    ensures Reversed(s)[k] == s[|s| - 1 - k]
  {
    if k < |s| - 1 {
      ReversedAt(s[1..], k);
    }
  }

  lemma {:induction false} ReversedNext(s: string, c: char)
    ensures Reversed(s + [c]) == [c] + Reversed(s)
    decreases |s|
  {
    if s == "" {
      assert s + [c] == [c] && [c][1..] == "";
    } else {
      ReversedNext(s[1..], c);
      assert (s + [c])[1..] == s[1..] + [c] && (s + [c])[0] == s[0];
    }
  }

  // The digits of n still to come, before those already written.
  function Left(n: nat): (s: string)
    ensures s == "" <==> n == 0
  {
    if n == 0 then "" else Print(n)
  }

  lemma OneMoreDigit(n: nat, done: string)
    requires n > 0
    ensures Left(n) + Reversed(done) == Left(n / 10) + Reversed(done + [Char(n % 10)])
  {
    ReversedNext(done, Char(n % 10));
    assert Left(n) == Left(n / 10) + [Char(n % 10)];
    hide Left, Reversed;
    assert Left(n / 10) + [Char(n % 10)] + Reversed(done) == Left(n / 10) + ([Char(n % 10)] + Reversed(done));
  }

  lemma NothingWritten(n: nat)
    ensures Left(n) + Reversed("") == Left(n) && (n > 0 ==> Left(n) == Print(n))
  {
  }

  // The loop of u1282str that writes the digits, last one first.
  method WriteDigits(num: uint128, str: array<char>, max: nat) returns (ok: bool, end: nat)
    requires 2 <= max <= str.Length && num > 0
    modifies str
    ensures ok <==> max >= |Print(num)| + 1
    ensures ok ==> end == |Print(num)| && Reversed(str[..end]) == Print(num)
  {
    hide Left, Print, Reversed;
    var n: nat := num;
    end := 0;
    NothingWritten(n);
    assert str[..0] == "";
    while n != 0
      invariant end < max && Print(num) == Left(n) + Reversed(str[..end])
    {
      if end >= max - 1 {
        return false, end;
      }
      ghost var done := str[..end];
      OneMoreDigit(n, done);
      var remaining := n % 10;
      str[end] := Char(remaining);
      n := n / 10;
      end := end + 1;
      assert str[..end] == done + [Char(remaining)];
    }
    ok := true;
  }

  // The loop of u1282str that turns them round.
  method TurnRound(str: array<char>, len: nat)
    requires len <= str.Length
    modifies str
    ensures str[..len] == Reversed(old(str[..len])) && str[len..] == old(str[len..])
  {
    ghost var was := str[..len];
    var start, end := 0, len;
    while start < end - 1
      invariant start + end == len && start <= end + 1
      invariant forall k :: 0 <= k < start ==> str[k] == was[len - 1 - k]
      invariant forall k :: start <= k < end ==> str[k] == was[k]
      invariant forall k :: 0 <= k && end <= k < len ==> str[k] == was[len - 1 - k]
      invariant str[len..] == old(str[len..])
      decreases end - start
    {
      end := end - 1;
      str[start], str[end] := str[end], str[start];
      start := start + 1;
    }
    forall k | 0 <= k < len ensures str[k] == Reversed(was)[k] {
      ReversedAt(was, k);
    }
  }

  // u1282str.
  method Int2Str(num: uint128, str: array<char>, max: nat) returns (ok: bool)
    requires 2 <= max <= str.Length
    modifies str
    ensures ok <==> max >= |Print(num)| + 1
    ensures ok ==> str[..|Print(num)| + 1] == Print(num) + [NUL]
  {
    if num == 0 {
      str[0], str[1] := '0', NUL;
      return true;
    }
    var end;
    ok, end := WriteDigits(num, str, max);
    if ok {
      str[end] := NUL;
      ghost var rest := str[end..];
      TurnRound(str, end);
      assert str[end..][0] == rest[0];
    }
  }

  // ---------- the two builds agree ----------

  lemma {:induction false} PowJoin(m: nat, n: nat)
    ensures Pow10(m + n) == Pow10(m) * Pow10(n)
    decreases n
  {
    if n > 0 {
      PowJoin(m, n - 1);
      Scale(Pow10(m), Pow10(n - 1));
    }
  }

  lemma SmallPowers()
    ensures Pow10(1) == 10 && Pow10(3) == 1000
  {
    assert Pow10(2) == 100;
  }

  lemma Pow39()
    ensures Pow10(39) > TWO_128
  {
    hide Pow10;
    SmallPowers();
    PowJoin(3, 3);
    PowJoin(6, 6);
    PowJoin(12, 1);
    PowJoin(13, 13);
    PowJoin(26, 13);
  }

  // A canonical numeral below 2^128 fits the array.
  lemma Fits(s: string)
    requires Canonical(s) && Num(s) < TWO_128
    ensures |s| < RAW_MAX_LEN
  {
    if |s| >= RAW_MAX_LEN {
      NumAtLeast(s);
      PowGrows(39, |s| - 1);
      Pow39();
    }
  }

  // Length first and then character by character is the numeric order.
  lemma OrderIsNumeric(a: string, b: string)
    requires Canonical(a) && Canonical(b)
    ensures |a| < |b| || (|a| == |b| && LexLess(a, b)) <==> Num(a) < Num(b)
  {
    if |a| < |b| {
      ShorterIsLess(a, b);
    } else if |b| < |a| {
      ShorterIsLess(b, a);
    } else {
      LexIsNumeric(a, b);
    }
  }

  lemma PrintsItsInput(s: string)
    requires Canonical(s) && Num(s) < TWO_128
    ensures Stored(s) && CString(Padded(s)) == s
    ensures Num(s) % TWO_128 == Num(s) && Print(Num(s)) == s
  {
    Fits(s);
    CStringPadded(s);
    PrintInverts(s);
  }

  // On canonical numerals below 2^128 both builds compare as numbers do, and both
  // print the text they were given.
  lemma BuildsAgree(a: string, b: string)
    requires Canonical(a) && Canonical(b) && Num(a) < TWO_128 && Num(b) < TWO_128
    ensures Stored(a) && Stored(b)
    ensures TextLess(Padded(a), Padded(b)) <==> Num(a) < Num(b)
    ensures Padded(a) == Padded(b) <==> Num(a) == Num(b)
    ensures CString(Padded(a)) == a == Print(Num(a) % TWO_128)
  {
    PrintsItsInput(a);
    PrintsItsInput(b);
    OrderIsNumeric(a, b);
    hide Num, CString, Print, Padded, LexLess, Canonical;
    if Num(a) == Num(b) {
      Unique(a, b);
    }
  }
}
