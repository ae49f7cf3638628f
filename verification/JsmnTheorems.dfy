/**
 What the tokenizer keeps over every run: resumption after running out of
 tokens or out of text, the count-only mode, nesting of the token intervals,
 and conservation of the size fields.
 */
module JsmnTheorems {
  import opened Jsmn

  // ---------- resumption with a larger token array ----------

  // Calling again and again, each time with the next capacity, while NOMEM is returned.
  function RunMany(js: string, caps: seq<nat>, st: State): (r: RunResult)
    requires st.Valid() && caps != []
    ensures r.final.Valid()
    decreases |caps|
  {
    var r := Run(js, caps[0], st);
    if r.outcome == NoMem && |caps| > 1 then RunMany(js, caps[1..], r.final) else r
  }

  // A larger array continues exactly where the smaller one gave up, and
  // changes nothing if the smaller one did not give up.
  lemma {:induction false} ResumeOnce(js: string, cap: nat, big: nat, st: State)
    requires st.Valid() && cap <= big
    ensures var r := Run(js, cap, st);
            Run(js, big, st) == if r.outcome == NoMem then Run(js, big, r.final) else r
    decreases |js| - st.pos
  {
    if !Ended(js, st.pos) {
      match Step(js, cap, st)
      case Fail(o) =>
      case Next(s) => ResumeOnce(js, cap, big, s);
    }
  }

  lemma {:induction false} Resumption(js: string, caps: seq<nat>, big: nat, st: State)
    requires st.Valid() && caps != []
    requires forall i :: 0 <= i < |caps| ==> caps[i] <= big
    ensures var r := RunMany(js, caps, st);
            Run(js, big, st) == if r.outcome == NoMem then Run(js, big, r.final) else r
    decreases |caps|
  {
    ResumeOnce(js, caps[0], big, st);
    if Run(js, caps[0], st).outcome == NoMem && |caps| > 1 {
      Resumption(js, caps[1..], big, Run(js, caps[0], st).final);
    }
  }

  // ---------- resumption with more text ----------

  // The text so far ends inside a primitive: its last byte was taken as the end
  // of the token, but the longer text carries on without a separator.
  predicate CutPrimitive(js: string, longer: string, st: State) {
    st.toks != [] && st.toks[|st.toks| - 1].kind == Primitive && st.toks[|st.toks| - 1].end == |js|
    && st.pos == |js| && !Ended(longer, |js|) && !Stopper(longer[|js|])
  }

  lemma {:induction false} ScanHexGrows(js: string, longer: string, i: nat, n: nat)
    requires js <= longer
    ensures var h := ScanHex(js, i, n);
            (h.Bad? || (h.At? && h.index < |js|)) ==> ScanHex(longer, i, n) == h
    decreases n
  {
    if n > 0 && !Ended(js, i) && Hex(js[i]) {
      ScanHexGrows(js, longer, i + 1, n - 1);
    }
  }

  lemma {:induction false} ScanStringGrows(js: string, longer: string, i: nat)
    requires js <= longer && !ScanString(js, i).Unfinished?
    ensures ScanString(longer, i) == ScanString(js, i)
    decreases |js| - i
  {
    if !Ended(js, i) && js[i] != '"' {
      if js[i] == '\\' && i + 1 < |js| {
        if SimpleEscape(js[i + 1]) {
          ScanStringGrows(js, longer, i + 2);
        } else if js[i + 1] == 'u' {
          ScanHexGrows(js, longer, i + 2, 4);
          var h := ScanHex(js, i + 2, 4);
          if h.At? {
            ScanStringGrows(js, longer, h.index);
          }
        }
      } else {
        ScanStringGrows(js, longer, i + 1);
      }
    }
  }

  lemma {:induction false} ScanPrimitiveGrows(js: string, longer: string, i: nat)
    requires js <= longer && i <= |js|
    ensures var e := ScanPrimitive(js, i);
            e.Bad? || e.index < |js| || Ended(longer, |js|) || Stopper(longer[|js|]) ==> ScanPrimitive(longer, i) == e
    ensures var e := ScanPrimitive(js, i);
            e == At(|js|) && !Ended(longer, |js|) && !Stopper(longer[|js|]) ==>
              var f := ScanPrimitive(longer, i); f.Bad? || f.index > |js|
    decreases |js| - i
  {
    if !Ended(js, i) && !Stopper(js[i]) && Printable(js[i]) {
      ScanPrimitiveGrows(js, longer, i + 1);
    }
  }

  // Tokens are never given back, and a finished token keeps its place and extent.
  lemma {:induction false} FinishedTokensStay(js: string, cap: nat, st: State, i: nat)
    requires st.Valid() && i < |st.toks| && !st.toks[i].Open()
    ensures var f := Run(js, cap, st).final;
            i < |f.toks| && f.toks[i].start == st.toks[i].start && f.toks[i].end == st.toks[i].end
    decreases |js| - st.pos
  {
    if !Ended(js, st.pos) {
      match Step(js, cap, st)
      case Fail(o) =>
      case Next(s) => FinishedTokensStay(js, cap, s, i);
    }
  }

  predicate Behind(st: State) {
    st.Valid() && forall i :: 0 <= i < |st.toks| ==> st.toks[i].end <= st.pos
  }

  // A step that did not cut a primitive reads the same on the longer text.
  lemma StepGrows(js: string, longer: string, cap: nat, st: State, s: State)
    requires js <= longer && Behind(st) && !Ended(js, st.pos) && Step(js, cap, st) == Next(s)
    ensures Behind(s)
    ensures !CutPrimitive(js, longer, s) ==> Step(longer, cap, st) == Next(s)
  {
    var c := js[st.pos];
    if c == '"' {
      ScanStringGrows(js, longer, st.pos + 1);
    } else if !OpenBracket(c) && !Stopper(c) {
      ScanPrimitiveGrows(js, longer, st.pos);
    }
  }

  // Only reading a primitive leaves, as the last token, a primitive that ends where the step ends.
  lemma PrimitiveLast(js: string, cap: nat, st: State, s: State)
    requires Behind(st) && !Ended(js, st.pos) && Step(js, cap, st) == Next(s)
    requires s.toks != [] && s.toks[|s.toks| - 1].kind == Primitive && s.toks[|s.toks| - 1].end == s.pos
    ensures js[st.pos] != '"' && !OpenBracket(js[st.pos]) && !Stopper(js[st.pos])
    ensures PrimitiveStep(js, cap, st) == Next(s)
  {
    var c := js[st.pos];
    assert Quiet(c) ==> s.toks == st.toks;
  }

  lemma CutTokensDiffer(js: string, longer: string, cap: nat, st: State, s: State)
    requires js <= longer && Behind(st) && !Ended(js, st.pos)
    requires Step(js, cap, st) == Next(s) && CutPrimitive(js, longer, s)
    ensures Run(js, cap, s).final == s
    ensures Run(longer, cap, s) != Run(longer, cap, st)
  {
    PrimitiveLast(js, cap, st, s);
    ScanPrimitiveGrows(js, longer, st.pos);
    assert Step(longer, cap, st) == PrimitiveStep(longer, cap, st);
    var last := |s.toks| - 1;
    FinishedTokensStay(longer, cap, s, last);
    match PrimitiveStep(longer, cap, st)
    case Fail(o) =>
    case Next(t) => FinishedTokensStay(longer, cap, t, last);
  }

  // PART asks for more text.  Supplying it gives what one call on the longer
  // text gives, if and only if the first text was not cut inside a primitive.
  lemma {:induction false} MoreText(js: string, longer: string, cap: nat, st: State)
    requires Behind(st) && js <= longer
    requires Run(js, cap, st).outcome == Part
    requires !CutPrimitive(js, longer, st)
    ensures var f := Run(js, cap, st).final;
            Run(longer, cap, f) == Run(longer, cap, st) <==> !CutPrimitive(js, longer, f)
    decreases |js| - st.pos
  {
    if !Ended(js, st.pos) && Step(js, cap, st).Next? {
      var s := Step(js, cap, st).state;
      StepGrows(js, longer, cap, st, s);
      if CutPrimitive(js, longer, s) {
        CutTokensDiffer(js, longer, cap, st, s);
      } else {
        MoreText(js, longer, cap, s);
      }
    }
  }

  lemma CutTail(cut: State)
    requires cut == State(3, 0, [Token(Array, 0, -1, 1), Token(Primitive, 1, 3, 0)])
    ensures Run("[123]", 9, cut).outcome == Done(3)
  {
    var two := State(4, 0, [Token(Array, 0, -1, 2), Token(Primitive, 1, 3, 0), Token(Primitive, 3, 4, 0)]);
    assert ScanPrimitive("[123]", 4) == At(4);
    assert Step("[123]", 9, cut) == Next(two);
    assert LastOpen(two.toks[..2]) == LastOpen(two.toks[..2][..1]) == 0;
    var closed := Step("[123]", 9, two).state;
    assert |closed.toks| == 3 && LastOpen(closed.toks) == -1;
    assert Run("[123]", 9, closed).outcome == Done(3);
  }

  lemma WholeTail(entered: State)
    requires entered == State(1, 0, [Token(Array, 0, -1, 0)])
    ensures Run("[123]", 9, entered).outcome == Done(2)
  {
    var one := State(4, 0, [Token(Array, 0, -1, 1), Token(Primitive, 1, 4, 0)]);
    assert ScanPrimitive("[123]", 3) == At(4);
    assert Step("[123]", 9, entered) == Next(one);
    assert LastOpen(one.toks[..1]) == 0;
    var closed := Step("[123]", 9, one).state;
    assert |closed.toks| == 2 && LastOpen(closed.toks) == -1;
    assert Run("[123]", 9, closed).outcome == Done(2);
  }

  // A cut that does change the outcome: "[12" and then "[123]".
  lemma CutExample()
    ensures var first := Run("[12", 9, INIT);
            first.outcome == Part
            && Run("[123]", 9, first.final).outcome == Done(3)
            && Run("[123]", 9, INIT).outcome == Done(2)
  {
    var entered := State(1, 0, [Token(Array, 0, -1, 0)]);
    var cut := State(3, 0, [Token(Array, 0, -1, 1), Token(Primitive, 1, 3, 0)]);
    assert Step("[12", 9, INIT) == Step("[123]", 9, INIT) == Next(entered);
    assert ScanPrimitive("[12", 2) == At(3);
    assert Step("[12", 9, entered) == Next(cut);
    assert LastOpen(cut.toks[..1]) == 0;
    assert Run("[12", 9, cut) == RunResult(cut, Part);
    CutTail(cut);
    WholeTail(entered);
  }

  // ---------- counting ----------

  lemma {:induction false} CountGrows(js: string, pos: nat, count: nat)
    ensures var n := CountRun(js, pos, count); n.Done? ==> count <= n.count
    decreases |js| - pos
  {
    if !Ended(js, pos) {
      var c := js[pos];
      if OpenBracket(c) {
        CountGrows(js, pos + 1, count + 1);
      } else if c == '"' {
        if ScanString(js, pos + 1).At? {
          CountGrows(js, ScanString(js, pos + 1).index + 1, count + 1);
        }
      } else if Stopper(c) {
        CountGrows(js, pos + 1, count);
      } else if ScanPrimitive(js, pos).At? {
        CountGrows(js, ScanPrimitive(js, pos).index, count + 1);
      }
    }
  }

  lemma CountStep(js: string, cap: nat, st: State, s: State)
    requires st.Valid() && !Ended(js, st.pos) && Step(js, cap, st) == Next(s)
    ensures CountRun(js, st.pos, |st.toks|) == CountRun(js, s.pos, |s.toks|)
    ensures |s.toks| <= cap || |s.toks| == |st.toks|
  {
  }

  lemma CountPastFailure(js: string, cap: nat, st: State)
    requires st.Valid() && !Ended(js, st.pos) && Step(js, cap, st).Fail?
    ensures var n := CountRun(js, st.pos, |st.toks|);
            var o := Step(js, cap, st).outcome;
            && (n.Done? && o == NoMem ==> cap < n.count)
            && (n.Done? ==> o == NoMem || o == Inval)
  {
    var c := js[st.pos];
    if OpenBracket(c) {
      CountGrows(js, st.pos + 1, |st.toks| + 1);
    } else if c == '"' {
      if ScanString(js, st.pos + 1).At? {
        CountGrows(js, ScanString(js, st.pos + 1).index + 1, |st.toks| + 1);
      }
    } else if ScanPrimitive(js, st.pos).At? {
      CountGrows(js, ScanPrimitive(js, st.pos).index, |st.toks| + 1);
    }
  }

  // Where the token run succeeds, the count-only run returns the same number;
  // and with the counted number of tokens the token run never lacks memory.
  lemma {:induction false} CountAgrees(js: string, cap: nat, st: State)
    requires st.Valid()
    ensures var o := Run(js, cap, st).outcome;
            var n := CountRun(js, st.pos, |st.toks|);
            && (o.Done? ==> n == o)
            && (n.Done? ==> (o == NoMem || o == Inval || cap >= n.count || |st.toks| > cap))
            && (n.Done? && o == NoMem ==> cap < n.count)
    decreases |js| - st.pos
  {
    if !Ended(js, st.pos) {
      match Step(js, cap, st)
      case Fail(o) => CountPastFailure(js, cap, st);
      case Next(s) =>
        CountStep(js, cap, st, s);
        CountAgrees(js, cap, s);
    }
  }

  // ---------- nesting ----------

  // Where token t lies in the text that has been read, and what stands there.
  predicate Placed(js: string, t: Token, pos: nat) {
    0 <= t.start <= |js|
    && (t.Open() ==> t.Container() && t.start < pos)
    && (!t.Open() ==> t.start <= t.end <= pos && t.end <= |js|)
    && match t.kind
       case Object => t.start < |js| && js[t.start] == '{' && (t.Open() || (t.start < t.end && js[t.end - 1] == '}'))
       case Array => t.start < |js| && js[t.start] == '[' && (t.Open() || (t.start < t.end && js[t.end - 1] == ']'))
       case String => 0 < t.start && js[t.start - 1] == '"' && 0 <= t.end < |js| && t.end < pos && js[t.end] == '"'
       case Primitive => t.start < t.end
       case Undefined => false
  }

  // a before b: a ends before b starts, or b lies inside a.
  predicate Nested(a: Token, b: Token) {
    a.start < b.start && (a.Open() || a.end <= b.start || (!b.Open() && b.end <= a.end))
  }

  predicate Laminar(js: string, st: State) {
    st.Valid() && st.pos <= |js|
    && (forall i :: 0 <= i < |st.toks| ==> Placed(js, st.toks[i], st.pos))
    && (forall i, j :: 0 <= i < j < |st.toks| ==> Nested(st.toks[i], st.toks[j]))
  }

  lemma PushLaminar(js: string, st: State, s: State, t: Token)
    requires Laminar(js, st) && s.Valid() && st.pos < s.pos <= |js|
    requires s.toks == Bump(st.toks, st.super) + [t]
    requires Placed(js, t, s.pos) && st.pos <= t.start
    ensures Laminar(js, s)
  {
    forall i | 0 <= i < |st.toks|
      ensures Placed(js, s.toks[i], s.pos) && Nested(s.toks[i], t)
    {
      assert Placed(js, st.toks[i], st.pos);
    }
    forall i, j | 0 <= i < j < |st.toks|
      ensures Nested(s.toks[i], s.toks[j])
    {
      assert Nested(st.toks[i], st.toks[j]);
    }
  }

  lemma CloseLaminar(js: string, c: char, st: State, s: State)
    requires Laminar(js, st) && st.pos < |js| && c == js[st.pos] && CloseBracket(c)
    requires CloseStep(c, st) == Next(s)
    ensures Laminar(js, s)
  {
    var o := LastOpen(st.toks);
    forall i | 0 <= i < |st.toks|
      ensures Placed(js, s.toks[i], s.pos)
    {
      assert Placed(js, st.toks[i], st.pos);
    }
    forall i, j | 0 <= i < j < |st.toks|
      ensures Nested(s.toks[i], s.toks[j])
    {
      assert Nested(st.toks[i], st.toks[j]);
      assert Placed(js, st.toks[j], st.pos);
    }
  }

  lemma StepLaminar(js: string, cap: nat, st: State)
    requires Laminar(js, st) && !Ended(js, st.pos) && Step(js, cap, st).Next?
    ensures Laminar(js, Step(js, cap, st).state)
  {
    var c, s := js[st.pos], Step(js, cap, st).state;
    if CloseBracket(c) {
      CloseLaminar(js, c, st, s);
    } else if Quiet(c) {
      forall i | 0 <= i < |st.toks|
        ensures Placed(js, s.toks[i], s.pos)
      {
        assert Placed(js, st.toks[i], st.pos);
      }
    } else {
      PushLaminar(js, st, s, s.toks[|s.toks| - 1]);
    }
  }

  // In every state a run reaches, tokens start in strictly increasing order and
  // are pairwise nested or disjoint; on success every container is closed too.
  lemma {:induction false} RunLaminar(js: string, cap: nat, st: State)
    requires Laminar(js, st)
    ensures var r := Run(js, cap, st);
            Laminar(js, r.final)
            && (r.outcome.Done? ==>
                  r.outcome.count == |r.final.toks|
                  && forall i :: 0 <= i < |r.final.toks| ==> !r.final.toks[i].Open())
    decreases |js| - st.pos
  {
    if !Ended(js, st.pos) {
      match Step(js, cap, st)
      case Fail(o) =>
      case Next(s) =>
        StepLaminar(js, cap, st);
        RunLaminar(js, cap, s);
    }
  }

  // ---------- conservation of sizes ----------

  function SumSizes(toks: seq<Token>): nat {
    if toks == [] then 0 else SumSizes(toks[..|toks| - 1]) + toks[|toks| - 1].size
  }

  // How many tokens a run creates while no token is superior.
  function Orphans(js: string, cap: nat, st: State): nat
    requires st.Valid()
    decreases |js| - st.pos
  {
    if Ended(js, st.pos) then 0
    else match Step(js, cap, st)
      case Fail(_) => 0
      case Next(s) =>
        (if |s.toks| > |st.toks| && st.super == -1 then 1 else 0) + Orphans(js, cap, s)
  }

  lemma {:induction false} SumUpdate(toks: seq<Token>, i: nat, t: Token)
    requires i < |toks|
    ensures SumSizes(toks[i := t]) == SumSizes(toks) - toks[i].size + t.size
    decreases |toks|
  {
    var n := |toks| - 1;
    if i < n {
      SumUpdate(toks[..n], i, t);
      assert toks[i := t][..n] == toks[..n][i := t];
    } else {
      assert toks[i := t][..n] == toks[..n];
    }
  }

  lemma StepConserves(js: string, cap: nat, st: State)
    requires st.Valid() && !Ended(js, st.pos) && Step(js, cap, st).Next?
    ensures var s := Step(js, cap, st).state;
            var created := |s.toks| - |st.toks|;
            created in {0, 1}
            && SumSizes(s.toks) == SumSizes(st.toks) + if st.super == -1 then 0 else created
  {
    var c, s := js[st.pos], Step(js, cap, st).state;
    if CloseBracket(c) {
      var i := LastOpen(st.toks);
      SumUpdate(st.toks, i, st.toks[i].(end := st.pos + 1));
    } else if !Quiet(c) {
      var bumped := Bump(st.toks, st.super);
      assert s.toks[..|s.toks| - 1] == bumped;
      if st.super != -1 {
        SumUpdate(st.toks, st.super, bumped[st.super]);
      }
    }
  }

  // Every token is counted once: by its superior token's size, or as an orphan.
  lemma {:induction false} Conservation(js: string, cap: nat, st: State)
    requires st.Valid()
    ensures var f := Run(js, cap, st).final;
            SumSizes(f.toks) + Orphans(js, cap, st) - SumSizes(st.toks) == |f.toks| - |st.toks|
    decreases |js| - st.pos
  {
    if !Ended(js, st.pos) {
      match Step(js, cap, st)
      case Fail(o) =>
      case Next(s) =>
        StepConserves(js, cap, st);
        Conservation(js, cap, s);
    }
  }
}
