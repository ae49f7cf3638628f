/**
 The other direction: which texts the tokens of a run can have, and which strings are
 refused.
 */
module JsmnSound {
  import opened Jsmn
  import opened JsmnRoundTrip

  // ---------- strings ----------

  // Between the quotes: any characters but '"' and NUL, where a backslash starts one of
  // the escapes of section 7 of RFC 8259.
  predicate Escapes(s: string) {
    if s == [] then true
    else if s[0] == '\\' then
      |s| >= 2
      && if Escapable(s[1]) then Escapes(s[2..])
         else && s[1] == 'u' && |s| >= 6
              && HexDigit(s[2]) && HexDigit(s[3]) && HexDigit(s[4]) && HexDigit(s[5]) && Escapes(s[6..])
    else s[0] != '"' && s[0] != '\0' && Escapes(s[1..])
  }

  lemma {:induction false} BodyEscapes(s: string)
    requires StringBody(s)
    ensures Escapes(s)
    decreases |s|
  {
    if s != [] {
      if s[0] == '\\' {
        BodyEscapes(if Escapable(s[1]) then s[2..] else s[6..]);
      } else {
        BodyEscapes(s[1..]);
      }
    }
  }

  // How many hexadecimal digits there are from i on, up to n.
  function HexRun(js: string, i: nat, n: nat): (k: nat)
    ensures k <= n && (i <= |js| ==> i + k <= |js|)
    decreases n
  {
    if n == 0 || i >= |js| || !HexDigit(js[i]) then 0 else 1 + HexRun(js, i + 1, n - 1)
  }

  lemma {:induction false} HexExactly(js: string, i: nat, n: nat)
    ensures ScanHex(js, i, n) == var k := HexRun(js, i, n); if k == n || Ended(js, i + k) then At(i + k) else Bad
    decreases n
  {
    if n > 0 && i < |js| {
      HexExactly(js, i + 1, n - 1);
    }
  }

  lemma FourDigits(js: string, i: nat)
    ensures HexRun(js, i, 4) == 4 <==>
            i + 4 <= |js| && HexDigit(js[i]) && HexDigit(js[i + 1]) && HexDigit(js[i + 2]) && HexDigit(js[i + 3])
  {
    if i < |js| {
      assert HexRun(js, i, 4) == if HexDigit(js[i]) then 1 + HexRun(js, i + 1, 3) else 0;
      assert HexRun(js, i + 1, 3) <= 3 && HexRun(js, i + 2, 2) <= 2 && HexRun(js, i + 3, 1) <= 1;
    }
  }

  // The escape at j is none of them.
  predicate BadEscape(js: string, j: nat) {
    && j + 1 < |js| && js[j] == '\\' && !Escapable(js[j + 1])
    && (js[j + 1] == 'u' ==>
          var k := HexRun(js, j + 2, 4);
          k < 4 && j + 2 + k < |js| && js[j + 2 + k] != '\0')
  }

  // The scan passes over what may stand in a string.
  lemma {:induction false} ScanOver(js: string, i: nat, e: nat)
    requires i <= e <= |js| && Escapes(js[i..e])
    ensures ScanString(js, i) == ScanString(js, e)
    decreases e - i
  {
    var s := js[i..e];
    if s != [] {
      if s[0] == '\\' {
        if Escapable(s[1]) {
          assert s[2..] == js[i + 2..e];
          ScanOver(js, i + 2, e);
        } else {
          assert s[6..] == js[i + 6..e];
          FourDigits(js, i + 2);
          HexExactly(js, i + 2, 4);
          ScanOver(js, i + 6, e);
        }
      } else {
        assert s[1..] == js[i + 1..e];
        ScanOver(js, i + 1, e);
      }
    }
  }

  lemma {:induction false} ScanSound(js: string, i: nat)
    requires ScanString(js, i).At?
    ensures var e := ScanString(js, i).index; i <= e < |js| && js[e] == '"' && Escapes(js[i..e])
    decreases |js| - i
  {
    var e := ScanString(js, i).index;
    if js[i] == '"' {
      assert js[i..e] == [];
    } else if js[i] == '\\' && i + 1 < |js| {
      if Escapable(js[i + 1]) {
        ScanSound(js, i + 2);
        assert js[i..e][2..] == js[i + 2..e];
      } else {
        HexExactly(js, i + 2, 4);
        FourDigits(js, i + 2);
        ScanSound(js, i + 6);
        assert js[i..e][6..] == js[i + 6..e];
      }
    } else {
      ScanSound(js, i + 1);
      assert js[i..e][1..] == js[i + 1..e];
    }
  }

  // A string ends exactly at a quote with nothing but such escapes before it.
  lemma StringExactly(js: string, i: nat, e: nat)
    ensures ScanString(js, i) == At(e) <==> i <= e < |js| && js[e] == '"' && Escapes(js[i..e])
  {
    if ScanString(js, i) == At(e) {
      ScanSound(js, i);
    }
    if i <= e < |js| && js[e] == '"' && Escapes(js[i..e]) {
      ScanOver(js, i, e);
    }
  }

  lemma {:induction false} ScanBad(js: string, i: nat) returns (j: nat)
    requires ScanString(js, i).Bad?
    ensures i <= j < |js| && Escapes(js[i..j]) && BadEscape(js, j)
    decreases |js| - i
  {
    if BadEscape(js, i) {
      j := i;
      assert js[i..j] == [];
    } else if js[i] == '\\' && i + 1 < |js| {
      if Escapable(js[i + 1]) {
        j := ScanBad(js, i + 2);
        assert js[i..j][2..] == js[i + 2..j];
      } else {
        HexExactly(js, i + 2, 4);
        FourDigits(js, i + 2);
        j := ScanBad(js, i + 6);
        assert js[i..j][6..] == js[i + 6..j];
      }
    } else {
      j := ScanBad(js, i + 1);
      assert js[i..j][1..] == js[i + 1..j];
    }
  }

  // And it is refused exactly for an escape that is none of them.
  lemma RefusedExactly(js: string, i: nat)
    ensures ScanString(js, i).Bad? <==> exists j :: i <= j < |js| && Escapes(js[i..j]) && BadEscape(js, j)
  {
    if ScanString(js, i).Bad? {
      var j := ScanBad(js, i);
    }
    forall j | i <= j < |js| && Escapes(js[i..j]) && BadEscape(js, j)
      ensures ScanString(js, i).Bad?
    {
      ScanOver(js, i, j);
      HexExactly(js, j + 2, 4);
    }
  }

  // So a string with such an escape ends the call, wherever it begins.
  lemma BadStringIsInvalid(js: string, cap: nat, st: State, j: nat)
    requires st.Valid() && st.pos < j < |js| && js[st.pos] == '"' && Escapes(js[st.pos + 1..j]) && BadEscape(js, j)
    ensures Run(js, cap, st).outcome == Inval
  {
    hide ScanString, Escapes, BadEscape;
    RefusedExactly(js, st.pos + 1);
  }

  // ---------- primitives ----------

  // What ends a primitive.
  predicate EndsPrimitive(js: string, e: nat) {
    e >= |js| || js[e] == '\0' || WhiteSpace(js[e]) || js[e] == ',' || js[e] == ':' || js[e] == ']' || js[e] == '}'
  }

  lemma {:induction false} PrimitiveExactly(js: string, i: nat, e: nat)
    requires i <= |js|
    ensures ScanPrimitive(js, i) == At(e) <==> i <= e <= |js| && AllPrimitive(js[i..e]) && EndsPrimitive(js, e)
    decreases |js| - i
  {
    if i < e <= |js| {
      assert js[i..e] == [js[i]] + js[i + 1..e];
    }
    if !EndsPrimitive(js, i) && PrimitiveChar(js[i]) {
      PrimitiveExactly(js, i + 1, e);
    }
  }

  // ---------- tokens ----------

  // What a token of a run that has come to `pos` can stand for.
  predicate Real(js: string, pos: nat, t: Token) {
    && 0 <= t.start < pos <= |js|
    && match t.kind
       case String =>
         && 0 < t.start <= t.end < pos && js[t.start - 1] == '"' && js[t.end] == '"'
         && Escapes(js[t.start..t.end])
       case Primitive =>
         t.start < t.end <= pos && PrimitiveText(js[t.start..t.end]) && EndsPrimitive(js, t.end)
       case Object =>
         js[t.start] == '{' && (t.end != -1 ==> t.start < t.end <= pos && js[t.end - 1] == '}')
       case Array =>
         js[t.start] == '[' && (t.end != -1 ==> t.start < t.end <= pos && js[t.end - 1] == ']')
       case Undefined => false
  }

  ghost predicate AllReal(js: string, st: State) {
    forall t :: t in st.toks ==> Real(js, st.pos, t)
  }

  lemma RealOn(js: string, pos: nat, t: Token, pos': nat, size: nat)
    requires Real(js, pos, t) && pos <= pos' <= |js|
    ensures Real(js, pos', t.(size := size))
  {
  }

  lemma AllRealOn(js: string, st: State, super: int, pos: nat)
    requires AllReal(js, st) && st.pos <= pos <= |js| && -1 <= super < |st.toks|
    ensures forall t :: t in Bump(st.toks, super) ==> Real(js, pos, t)
  {
    hide Real;
    forall t | t in Bump(st.toks, super)
      ensures Real(js, pos, t)
    {
      if t in st.toks {
        RealOn(js, st.pos, t, pos, t.size);
      } else {
        RealOn(js, st.pos, st.toks[super], pos, t.size);
      }
    }
  }

  lemma OneMore(js: string, ts: seq<Token>, pos: nat, t: Token)
    requires (forall u :: u in ts ==> Real(js, pos, u)) && Real(js, pos, t)
    ensures forall u :: u in ts + [t] ==> Real(js, pos, u)
  {
    hide Real;
  }

  lemma MovingIsReal(js: string, cap: nat, st: State)
    requires st.Valid() && AllReal(js, st) && st.pos < |js| && Quiet(js[st.pos]) && Step(js, cap, st).Next?
    ensures AllReal(js, Step(js, cap, st).state)
  {
    hide Real, ScanString, ScanPrimitive, LastOpen, LastOpenContainer;
    AllRealOn(js, st, -1, st.pos + 1);
  }

  lemma ClosingIsReal(js: string, cap: nat, st: State)
    requires st.Valid() && AllReal(js, st) && st.pos < |js| && CloseBracket(js[st.pos]) && Step(js, cap, st).Next?
    ensures AllReal(js, Step(js, cap, st).state)
  {
    hide Escapes, ScanString, ScanPrimitive, LastOpen, LastOpenContainer;
    AllRealOn(js, st, -1, st.pos + 1);
    var i := LastOpen(st.toks);
    assert st.toks[i] in st.toks && Real(js, st.pos, st.toks[i]);
    var closed := st.toks[i].(end := st.pos + 1);
    assert Real(js, st.pos + 1, closed);
    hide Real;
    assert Step(js, cap, st).state.toks == st.toks[i := closed];
  }

  lemma StringIsReal(js: string, pos: nat, e: nat)
    requires pos < |js| && js[pos] == '"' && ScanString(js, pos + 1) == At(e)
    ensures e + 1 <= |js| && Real(js, e + 1, Token(String, pos + 1, e, 0))
  {
    hide ScanString, Escapes;
    StringExactly(js, pos + 1, e);
  }

  lemma PrimitiveIsReal(js: string, pos: nat, e: nat)
    requires pos < |js| && !Stopper(js[pos]) && !OpenBracket(js[pos]) && js[pos] != '"' && js[pos] != '\0'
    requires ScanPrimitive(js, pos) == At(e)
    ensures e <= |js| && Real(js, e, Token(Primitive, pos, e, 0))
  {
    PrimitiveExactly(js, pos, e);
    assert ScanPrimitive(js, pos) == At(e) ==> e > pos;
    hide ScanPrimitive, Escapes;
    assert js[pos..e][0] == js[pos];
  }

  lemma AllRealIs(js: string, s: State)
    ensures AllReal(js, s) <==> forall t :: t in s.toks ==> Real(js, s.pos, t)
  {
  }

  lemma BracketIsReal(js: string, pos: nat)
    requires pos < |js| && OpenBracket(js[pos])
    ensures Real(js, pos + 1, Token(if js[pos] == '{' then Object else Array, pos, -1, 0))
  {
  }

  lemma AddingIsReal(js: string, cap: nat, st: State)
    requires st.Valid() && AllReal(js, st) && !Ended(js, st.pos) && !Stopper(js[st.pos]) && Step(js, cap, st).Next?
    ensures AllReal(js, Step(js, cap, st).state)
  {
    hide Real, ScanString, ScanPrimitive, LastOpen, LastOpenContainer, Bump, AllReal, Escapes;
    var s, c := Step(js, cap, st).state, js[st.pos];
    AllRealOn(js, st, st.super, s.pos);
    if OpenBracket(c) {
      BracketIsReal(js, st.pos);
    } else if c == '"' {
      StringIsReal(js, st.pos, ScanString(js, st.pos + 1).index);
    } else {
      PrimitiveIsReal(js, st.pos, ScanPrimitive(js, st.pos).index);
    }
    OneMore(js, Bump(st.toks, st.super), s.pos, s.toks[|s.toks| - 1]);
    AllRealIs(js, s);
  }

  lemma StepIsReal(js: string, cap: nat, st: State)
    requires st.Valid() && AllReal(js, st) && !Ended(js, st.pos) && Step(js, cap, st).Next?
    ensures AllReal(js, Step(js, cap, st).state)
  {
    hide Escapes, AllReal, ScanString, ScanPrimitive, LastOpen, LastOpenContainer, Bump, Real;
    var s, c := Step(js, cap, st).state, js[st.pos];
    if CloseBracket(c) {
      ClosingIsReal(js, cap, st);
    } else if OpenBracket(c) || c == '"' || !Quiet(c) {
      AddingIsReal(js, cap, st);
    } else {
      MovingIsReal(js, cap, st);
    }
  }

  lemma {:induction false} RunIsReal(js: string, cap: nat, st: State)
    requires st.Valid() && AllReal(js, st)
    ensures AllReal(js, Run(js, cap, st).final)
    decreases |js| - st.pos
  {
    hide Step, AllReal;
    if !Ended(js, st.pos) && Step(js, cap, st).Next? {
      StepIsReal(js, cap, st);
      RunIsReal(js, cap, Step(js, cap, st).state);
    }
  }

  lemma FailIsNotDone(js: string, cap: nat, st: State)
    requires st.Valid() && !Ended(js, st.pos)
    ensures Step(js, cap, st).Fail? ==> !Step(js, cap, st).outcome.Done?
  {
  }

  lemma {:induction false} DoneIsClosed(js: string, cap: nat, st: State)
    requires st.Valid()
    ensures var r := Run(js, cap, st); r.outcome.Done? ==> LastOpen(r.final.toks) == -1
    decreases |js| - st.pos
  {
    hide Step, LastOpen;
    if !Ended(js, st.pos) {
      FailIsNotDone(js, cap, st);
      if Step(js, cap, st).Next? {
        DoneIsClosed(js, cap, Step(js, cap, st).state);
      }
    }
  }

  // After any call, whatever its outcome, every token stands for what its kind says;
  // and after a success every container is closed.
  lemma TokensAreReal(js: string, cap: nat)
    ensures var r := Run(js, cap, INIT);
            && (forall t :: t in r.final.toks ==> Real(js, r.final.pos, t))
            && (r.outcome.Done? ==> forall t :: t in r.final.toks ==> t.end != -1)
  {
    RunIsReal(js, cap, INIT);
    DoneIsClosed(js, cap, INIT);
  }

  // ---------- outcomes ----------

  // A string begun before i is neither closed nor refused.
  ghost predicate Unclosed(js: string, i: nat) {
    && (forall e :: i <= e < |js| && js[e] == '"' ==> !Escapes(js[i..e]))
    && (forall j :: i <= j < |js| && Escapes(js[i..j]) ==> !BadEscape(js, j))
  }

  ghost predicate BadString(js: string, i: nat) {
    exists j :: i <= j < |js| && Escapes(js[i..j]) && BadEscape(js, j)
  }

  // A primitive runs into a character that neither belongs to it nor ends it.
  ghost predicate BadPrimitive(js: string, i: nat) {
    exists e :: i <= e < |js| && AllPrimitive(js[i..e]) && !PrimitiveChar(js[e]) && !EndsPrimitive(js, e)
  }

  lemma UnclosedExactly(js: string, i: nat)
    ensures ScanString(js, i).Unfinished? <==> Unclosed(js, i)
  {
    hide Escapes, BadEscape;
    RefusedExactly(js, i);
    if ScanString(js, i).At? {
      StringExactly(js, i, ScanString(js, i).index);
    }
    forall e | i <= e < |js| && js[e] == '"' && Escapes(js[i..e])
      ensures ScanString(js, i).At?
    {
      StringExactly(js, i, e);
    }
  }

  lemma Heads(js: string, i: nat)
    requires i < |js|
    ensures forall e :: i < e <= |js| ==> js[i..e][0] == js[i] && js[i..e] == [js[i]] + js[i + 1..e]
  {
  }

  lemma GoodPrimitive(js: string, i: nat)
    requires EndsPrimitive(js, i)
    ensures !BadPrimitive(js, i)
  {
    if i < |js| {
      Heads(js, i);
    }
  }

  lemma BadPrimitiveOn(js: string, i: nat)
    requires i < |js| && PrimitiveChar(js[i])
    ensures BadPrimitive(js, i) <==> BadPrimitive(js, i + 1)
  {
    Heads(js, i);
  }

  lemma BadAtOnce(js: string, i: nat)
    requires i < |js| && !PrimitiveChar(js[i]) && !EndsPrimitive(js, i)
    ensures BadPrimitive(js, i)
  {
    assert AllPrimitive(js[i..i]);
  }

  lemma {:induction false} BadPrimitiveExactly(js: string, i: nat)
    requires i <= |js|
    ensures ScanPrimitive(js, i).Bad? <==> BadPrimitive(js, i)
    decreases |js| - i
  {
    hide BadPrimitive;
    if EndsPrimitive(js, i) {
      GoodPrimitive(js, i);
    } else if PrimitiveChar(js[i]) {
      BadPrimitiveExactly(js, i + 1);
      BadPrimitiveOn(js, i);
    } else {
      BadAtOnce(js, i);
    }
  }

  // Where a run stops.
  lemma {:induction false} StopsThere(js: string, cap: nat, st: State)
    requires st.Valid()
    ensures var r := Run(js, cap, st);
            if Ended(js, r.final.pos)
            then r.outcome == if LastOpen(r.final.toks) >= 0 then Part else Done(|r.final.toks|)
            else Step(js, cap, r.final) == Fail(r.outcome)
    decreases |js| - st.pos
  {
    hide Step, LastOpen;
    if !Ended(js, st.pos) && Step(js, cap, st).Next? {
      StopsThere(js, cap, Step(js, cap, st).state);
    }
  }

  // Nothing there closes the last open token.
  predicate Mismatched(c: char, toks: seq<Token>) {
    var i := LastOpen(toks);
    i == -1 || (c == '}' && toks[i].kind != Object) || (c == ']' && toks[i].kind != Array)
  }

  // Why a call stopped before the character c at p.
  ghost predicate Because(js: string, cap: nat, p: nat, toks: seq<Token>, o: Outcome)
    requires p < |js|
  {
    var c := js[p];
    match o
    case Done(_) => false
    case Part => c == '"' && Unclosed(js, p + 1)
    case Inval =>
      || ((c == '}' || c == ']') && Mismatched(c, toks))
      || (c == '"' && BadString(js, p + 1))
      || (c != '{' && c != '[' && c != '"' && BadPrimitive(js, p))
    case NoMem =>
      && |toks| >= cap && c != '}' && c != ']'
      && (c == '"' ==> !Unclosed(js, p + 1) && !BadString(js, p + 1))
      && (c != '{' && c != '[' && c != '"' ==> !BadPrimitive(js, p))
  }

  lemma FailIs(js: string, cap: nat, st: State, o: Outcome)
    requires st.Valid() && !Ended(js, st.pos) && Step(js, cap, st) == Fail(o)
    ensures Because(js, cap, st.pos, st.toks, o)
  {
    hide ScanString, ScanPrimitive, LastOpen, LastOpenContainer, Bump, Unclosed, BadPrimitive;
    UnclosedExactly(js, st.pos + 1);
    RefusedExactly(js, st.pos + 1);
    BadPrimitiveExactly(js, st.pos);
  }

  // At the end of the text (or a NUL) a call is done, with every container closed, or
  // asks for more; before it, it stops for an unfinished string, for one of three
  // faults, or because the token array is full, and says which.
  lemma OutcomeExactly(js: string, cap: nat)
    ensures var r := Run(js, cap, INIT);
            var p, toks := r.final.pos, r.final.toks;
            if p >= |js| || js[p] == '\0'
            then r.outcome == if LastOpen(toks) == -1 then Done(|toks|) else Part
            else Because(js, cap, p, toks, r.outcome)
  {
    hide Step, LastOpen;
    StopsThere(js, cap, INIT);
    var r := Run(js, cap, INIT);
    if !Ended(js, r.final.pos) {
      FailIs(js, cap, r.final, r.outcome);
    }
  }
}
