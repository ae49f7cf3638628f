/**
 utils_rau2iotx: the decimal text of an amount in rau divided by 10^18.
 */
module Rau {
  import opened Decimal
  import opened U128

  const FACTOR := 18

  // ---------- what is written ----------

  function TrimZeros(s: string): (r: string)
    ensures |r| <= |s| && r == s[..|r|] && (r == "" || r[|r| - 1] != '0')
  {
    if s != "" && s[|s| - 1] == '0' then TrimZeros(s[..|s| - 1]) else s
  }

  // Useless zeros go, and a point left at the end.
  function Trim(s: string): (r: string)
    ensures |r| <= |s|
  {
    var t := TrimZeros(s);
    if t != "" && t[|t| - 1] == '.' then t[..|t| - 1] else t
  }

  // Before that: a point 18 digits from the end, where there is a digit before it;
  // behind "0." where there are fewer digits; and none at all for exactly 18.
  function Pointed(rau: string): (s: string)
    ensures |s| <= if |rau| >= FACTOR then |rau| + 1 else FACTOR + 2
  {
    if |rau| > FACTOR then rau[..|rau| - FACTOR] + "." + rau[|rau| - FACTOR..]
    else if |rau| == FACTOR then rau
    else "0." + Zeros(FACTOR - |rau|) + rau
  }

  // The text itself; for the empty string nothing is cut.
  function Iotx(rau: string): string {
    if rau == "" then Pointed(rau)
    else if rau[0] == '0' then "0"
    else Trim(Pointed(rau))
  }

  // A character of the string or the NUL behind it.
  function At(rau: string, r: nat): char
    requires r <= |rau|
  {
    if r < |rau| then rau[r] else NUL
  }

  // The loop that copies the digits and sets the point.
  method CopyWithPoint(rau: string, iotx: array<char>) returns (w: nat)
    requires FACTOR <= |rau| && |rau| + 3 <= iotx.Length
    modifies iotx
    ensures w == |Pointed(rau)| <= |rau| + 1 && iotx[..w] == Pointed(rau)
  {
    var pointPos := |rau| - FACTOR;
    var r: nat := 0;
    w := 0;
    while r < |rau|
      invariant r <= |rau| && w == r + (if 0 < pointPos <= r then 1 else 0)
      invariant iotx[..w] == if 0 < pointPos <= r then rau[..pointPos] + "." + rau[pointPos..r] else rau[..r]
    {
      ghost var done := iotx[..w];
      iotx[w] := rau[r];
      assert iotx[..w + 1] == done + [rau[r]];
      w, r := w + 1, r + 1;
      if r == pointPos {
        iotx[w] := '.';
        w := w + 1;
      }
    }
    assert rau[..r] == rau && rau[pointPos..r] == rau[pointPos..];
  }

  lemma TrimNotEmpty(s: string)
    requires TrimZeros(s) != ""
    ensures s != "" && s[..|s|] == s
  {
  }

  lemma ShorterTrim(s: string, w: nat)
    requires w < |s| && s[w] == '0' && TrimZeros(s[..w + 1]) == TrimZeros(s) && TrimZeros(s) != ""
    ensures w > 0 && TrimZeros(s[..w]) == TrimZeros(s)
  {
    assert s[..w + 1][..w] == s[..w];
  }

  lemma {:induction false} TrimKeeps(s: string, i: nat)
    requires i < |s| && s[i] != '0'
    ensures |TrimZeros(s)| > i
    decreases |s|
  {
    if s[|s| - 1] == '0' {
      TrimKeeps(s[..|s| - 1], i);
    }
  }

  // Behind a NUL nothing is cut.
  lemma NulStays(s: string)
    requires s != "" && s[|s| - 1] == NUL
    ensures TrimZeros(s) == s && Trim(s) == s
  {
  }

  lemma SomethingStays(rau: string)
    requires rau != "" && rau[0] != '0'
    ensures TrimZeros(Pointed(rau)) != ""
  {
    var s := Pointed(rau);
    var i := if |rau| >= FACTOR then 0 else FACTOR + 2 - |rau|;
    assert s[i] == rau[0];
    TrimKeeps(s, i);
  }

  // The two loops that put "0." and zeros before the digits.  The last one also runs
  // once for the empty string, and copies its NUL.
  method CopyBehindPoint(rau: string, iotx: array<char>) returns (w: nat)
    requires |rau| < FACTOR && FACTOR + 3 <= iotx.Length
    modifies iotx
    ensures var s := if rau == "" then Pointed(rau) + [NUL] else Pointed(rau);
            w == |s| <= FACTOR + 3 && iotx[..w] == s
  {
    iotx[0], iotx[1] := '0', '.';
    w := 2;
    var padZero := FACTOR - |rau|;
    assert iotx[..2] == "0." + Zeros(0);
    while w < padZero + 2
      invariant 2 <= w <= padZero + 2 && iotx[..w] == "0." + Zeros(w - 2)
    {
      ghost var done := iotx[..w];
      iotx[w] := '0';
      assert iotx[..w + 1] == done + ['0'];
      w := w + 1;
    }
    ghost var before := iotx[..w];
    iotx[w] := At(rau, 0);
    assert iotx[..w + 1] == before + [At(rau, 0)];
    var r := 1;
    w := w + 1;
    if rau == "" {
      assert before == Pointed(rau);
      return;
    }
    while r < |rau|
      invariant r <= |rau| && w == padZero + 2 + r && iotx[..w] == before + rau[..r]
    {
      ghost var done := iotx[..w];
      iotx[w] := rau[r];
      assert iotx[..w + 1] == done + [rau[r]];
      w, r := w + 1, r + 1;
    }
    assert rau[..r] == rau;
  }

  // The ending: useless zeros and a useless point go.
  method CutEnd(iotx: array<char>, len: nat)
    requires len < iotx.Length && TrimZeros(iotx[..len]) != ""
    modifies iotx
    ensures var t := Trim(old(iotx[..len]));
            |t| < iotx.Length && iotx[..|t| + 1] == t + [NUL]
  {
    ghost var s := iotx[..len];
    TrimNotEmpty(s);
    var w: int := len - 1;
    while iotx[w] == '0'
      invariant 0 <= w < len && iotx[..len] == s && TrimZeros(s[..w + 1]) == TrimZeros(s)
      decreases w
    {
      ShorterTrim(s, w);
      w := w - 1;
    }
    assert TrimZeros(s) == s[..w + 1];
    hide TrimZeros;
    if iotx[w] == '.' {
      w := w - 1;
    }
    iotx[w + 1] := NUL;
    assert Trim(s) == s[..w + 1] == iotx[..w + 1];
  }

  // utils_rau2iotx; no text when the buffer is too short.  For the empty string the
  // shortest buffer accepted is one character short of what is written.
  method Rau2Iotx(rau: string, iotx: array<char>, max: nat) returns (ok: bool)
    requires max <= iotx.Length && (rau == "" ==> iotx.Length >= FACTOR + 4)
    modifies iotx
    ensures ok <==> max >= |rau| + 3 && max >= 21
    ensures ok ==> |Iotx(rau)| < max && iotx[..|Iotx(rau)| + 1] == Iotx(rau) + [NUL]
  {
    hide Trim, Pointed;
    if max < |rau| + 3 || max < FACTOR + 3 {
      return false;
    }
    ok := true;
    if At(rau, 0) == '0' {
      iotx[0], iotx[1] := '0', NUL;
      return;
    }
    if rau == "" {
      NulStays(Pointed(rau) + [NUL]);
    } else {
      SomethingStays(rau);
    }
    var w;
    if |rau| >= FACTOR {
      w := CopyWithPoint(rau, iotx);
    } else {
      w := CopyBehindPoint(rau, iotx);
    }
    CutEnd(iotx, w);
    if rau == "" {
      assert iotx[..w + 1][..w] == iotx[..w];
    }
  }

  // ---------- what it is worth ----------

  // Where the point is, or the length when there is none.
  function PointAt(s: string): (p: nat)
    ensures p <= |s| && (p < |s| ==> s[p] == '.') && forall i :: 0 <= i < p ==> s[i] != '.'
  {
    if s == "" || s[0] == '.' then 0 else 1 + PointAt(s[1..])
  }

  function Whole(s: string): string {
    s[..PointAt(s)]
  }

  function Fraction(s: string): string {
    if PointAt(s) < |s| then s[PointAt(s) + 1..] else ""
  }

  // A decimal text with at most 18 digits behind the point.
  predicate IsAmount(s: string) {
    Digits(Whole(s)) && Digits(Fraction(s)) && |Fraction(s)| <= 18
  }

  // Its value, times 10^18.
  function Scaled(s: string): int
    requires IsAmount(s)
  {
    Num(Whole(s)) * Pow10(18) + Num(Fraction(s)) * Pow10(18 - |Fraction(s)|)
  }

  // A digit before the point; no point, or no zero at the end behind it.
  predicate Tidy(s: string) {
    Whole(s) != "" && (PointAt(s) < |s| ==> Fraction(s) != "" && s[|s| - 1] != '0')
  }

  // A whole part and a fraction written out, without zeros at the end.
  function Shown(whole: string, fraction: string): string {
    var f := TrimZeros(fraction);
    if f == "" then whole else whole + "." + f
  }

  lemma PointAfter(whole: string, fraction: string)
    requires Digits(whole)
    ensures Whole(whole + "." + fraction) == whole && Fraction(whole + "." + fraction) == fraction
    ensures Whole(whole) == whole && Fraction(whole) == ""
    ensures PointAt(whole) == |whole|
  {
    var s := whole + "." + fraction;
    assert s[|whole|] == '.';
    assert forall i :: 0 <= i < |whole| ==> s[i] == whole[i] && Digit(whole[i]);
    assert PointAt(s) == |whole| && PointAt(whole) == |whole|;
  }

  lemma {:induction false} TrimZerosValue(s: string)
    requires Digits(s)
    ensures var t := TrimZeros(s);
            Digits(t) && Num(s) == Num(t) * Pow10(|s| - |t|)
    decreases |s|
  {
    if s != "" && s[|s| - 1] == '0' {
      var s', t := s[..|s| - 1], TrimZeros(s);
      TrimZerosValue(s');
      Scale(Num(t), Pow10(|s'| - |t|));
    }
  }

  lemma NoDigits()
    ensures Num("") == 0
  {
  }

  // Its value is that of the digits.
  lemma ShownValue(whole: string, fraction: string)
    requires whole != "" && Digits(whole) && Digits(fraction) && |fraction| == FACTOR
    ensures var s := Shown(whole, fraction);
            IsAmount(s) && Tidy(s) && Scaled(s) == Num(whole) * Pow10(FACTOR) + Num(fraction)
  {
    hide Pow10, Num, PointAt;
    var f := TrimZeros(fraction);
    TrimZerosValue(fraction);
    PointAfter(whole, f);
    NoDigits();
    if f != "" {
      var s := whole + "." + f;
      assert s[|s| - 1] == f[|f| - 1];
    }
  }

  lemma TrimShorter(s: string)
    requires s != "" && s[|s| - 1] == '0'
    ensures TrimZeros(s) == TrimZeros(s[..|s| - 1])
  {
  }

  // Cutting the end of a text with a point cuts its fraction.
  lemma {:induction false} TrimPointed(whole: string, fraction: string)
    requires Digits(fraction) && whole != "" && Digits(whole)
    ensures Trim(whole + "." + fraction) == Shown(whole, fraction)
    decreases |fraction|
  {
    hide PointAt;
    var s := whole + "." + fraction;
    assert fraction != "" ==> s[|s| - 1] == fraction[|fraction| - 1];
    if fraction == "" {
      assert s[|s| - 1] == '.' && s[..|s| - 1] == whole;
    } else if fraction[|fraction| - 1] == '0' {
      var f := fraction[..|fraction| - 1];
      TrimPointed(whole, f);
      assert s[..|s| - 1] == whole + "." + f;
      TrimShorter(s);
      TrimShorter(fraction);
    } else {
      assert TrimZeros(s) == s && TrimZeros(fraction) == fraction;
    }
  }

  lemma NoneOf(x: nat, p: nat)
    ensures x == 0 ==> x * p == 0
  {
  }

  lemma Nought()
    ensures Digits(['0']) && Num(['0']) == 0
  {
    OneDigit('0');
  }

  lemma ShownSmall(fraction: string)
    requires Digits(fraction) && |fraction| == FACTOR
    ensures var s := Shown(['0'], fraction);
            IsAmount(s) && Tidy(s) && Scaled(s) == Num(fraction)
  {
    var zero := ['0'];
    Nought();
    hide Num, Shown, IsAmount, Tidy, Scaled, Pow10;
    ShownValue(zero, fraction);
    NoneOf(Num(zero), Pow10(FACTOR));
  }

  lemma PaddedValue(rau: string, n: nat)
    requires Digits(rau)
    ensures Digits(Zeros(n) + rau) && Num(Zeros(n) + rau) == Num(rau)
  {
    NumZeros(n);
    NumJoin(Zeros(n), rau);
  }

  lemma SmallPointed(rau: string, zeros: string)
    ensures "0." + zeros + rau == ['0'] + "." + (zeros + rau)
  {
    assert ['0'] + "." == "0.";
  }

  lemma SmallText(rau: string)
    requires rau != [] && Digits(rau) && rau[0] != '0' && |rau| < FACTOR
    ensures Iotx(rau) == Shown(['0'], Zeros(FACTOR - |rau|) + rau)
  {
    var zeros := Zeros(FACTOR - |rau|);
    assert Iotx(rau) == Trim("0." + zeros + rau);
    PaddedValue(rau, FACTOR - |rau|);
    Nought();
    SmallPointed(rau, zeros);
    hide Iotx, Trim, Zeros, Num, Digits, Shown;
    TrimPointed(['0'], zeros + rau);
  }

  lemma SmallAmount(rau: string)
    requires rau != [] && Digits(rau) && rau[0] != '0' && |rau| < FACTOR
    ensures var s := Iotx(rau);
            IsAmount(s) && Tidy(s) && Scaled(s) == Num(rau)
  {
    var fraction := Zeros(FACTOR - |rau|) + rau;
    PaddedValue(rau, FACTOR - |rau|);
    SmallText(rau);
    hide Num, Zeros, Shown, Iotx, IsAmount, Tidy, Scaled;
    ShownSmall(fraction);
  }

  lemma TooLarge(x: nat, p: nat)
    requires x >= 1
    ensures x * p >= p
  {
  }

  lemma NoPoint(rau: string)
    requires Canonical(rau) && rau != "0" && |rau| == FACTOR
    ensures var s := Iotx(rau);
            IsAmount(s) && Scaled(s) != Num(rau)
  {
    var t := TrimZeros(rau);
    TrimZerosValue(rau);
    TrimKeeps(rau, 0);
    assert t[0] == rau[0];
    assert Digit(t[|t| - 1]);
    assert Iotx(rau) == t;
    PointAfter(t, "");
    NumBelow(rau);
    assert Canonical(t) && t != "0";
    NumAtLeast(t);
    assert Whole(t) == t && Fraction(t) == "";
    hide TrimZeros, Trim;
    TooLarge(Num(t), Pow10(FACTOR));
    assert Num("") == 0;
  }

  // Digits that begin with a zero are printed as "0", whatever they are worth.
  lemma LeadingZero(rau: string)
    requires Digits(rau) && rau != [] && rau[0] == '0'
    ensures var s := Iotx(rau);
            IsAmount(s) && Tidy(s) && Scaled(s) == 0 && (Scaled(s) == Num(rau) <==> Num(rau) == 0)
  {
    hide Num, Pow10, TrimZeros, Trim;
    Nought();
    PointAfter(['0'], "");
    NoDigits();
    assert Iotx(rau) == ['0'];
    NoneOf(0, Pow10(FACTOR));
  }

  // An amount is printed with its exact value, unless it has 18 digits: then the point
  // is missing.
  lemma ValueIsExact(rau: string)
    requires Canonical(rau)
    ensures var s := Iotx(rau);
            IsAmount(s) && (Scaled(s) == Num(rau) <==> |rau| != 18)
    ensures |rau| != 18 ==> Tidy(Iotx(rau))
  {
    hide Num, Pow10, TrimZeros, Trim, IsAmount, Tidy, Scaled, Shown;
    if rau[0] == '0' {
      assert rau == ['0'];
      LeadingZero(rau);
      Nought();
    } else if |rau| > FACTOR {
      var whole, fraction := rau[..|rau| - FACTOR], rau[|rau| - FACTOR..];
      assert whole + fraction == rau;
      NumJoin(whole, fraction);
      TrimPointed(whole, fraction);
      ShownValue(whole, fraction);
    } else if |rau| < FACTOR {
      SmallAmount(rau);
    } else {
      NoPoint(rau);
    }
  }
}
