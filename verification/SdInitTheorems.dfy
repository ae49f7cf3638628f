/**
 What follows for bringing up a card: which answers make the driver send an illegal
 command, when the capacity limit is forgotten and the assertion fails, and which
 cards come up.
 */
module SdInitTheorems {
  import opened Prelude
  import opened Buffers
  import opened SdCard
  import opened SdSteps
  import opened SdScripts

  function Nth(s: seq<Reply>, n: nat): Reply {
    if n < |s| then s[n] else SILENCE
  }

  lemma NthReplies(s: seq<Reply>)
    ensures First(s) == Nth(s, 0) && First(Rest(s)) == Nth(s, 1) && First(Rest(Rest(s))) == Nth(s, 2)
    ensures First(Rest(Rest(Rest(s)))) == Nth(s, 3) && First(Rest(Rest(Rest(Rest(s))))) == Nth(s, 4)
    ensures First(Rest(Rest(Rest(Rest(Rest(s)))))) == Nth(s, 5)
  {
  }

  // ---------- the ways to an illegal command ----------

  // The card became ready, and the host reports an error.
  predicate LostAnswer(r: Reply) {
    !r.err.Ok? && r.executed && r.powered
  }

  ghost predicate NoneLost(s: seq<Reply>) {
    forall r :: r in s ==> !LostAnswer(r)
  }

  lemma NoneLostOn(s: seq<Reply>)
    requires NoneLost(s)
    ensures !LostAnswer(First(s)) && NoneLost(Rest(s))
  {
    assert s != [] ==> s[0] in s;
  }

  lemma {:induction false} NothingLost(s: seq<Reply>, retries: nat, errors: nat)
    requires errors > 0 && NoneLost(s)
    ensures Poll(s, retries, errors) != GaveUp(true)
    decreases retries
  {
    hide First, Rest, NoneLost;
    NoneLostOn(s);
    NoneLostOn(Rest(s));
    if retries > 0 {
      if !Accepts(First(s)) {
        if errors > 1 {
          NothingLost(Rest(s), retries - 1, errors - 1);
        }
      } else if First(Rest(s)).err.Ok? {
        NothingLost(Rest(Rest(s)), retries - 1, errors);
      } else if errors > 1 {
        NothingLost(Rest(Rest(s)), retries - 1, errors - 1);
      }
    }
  }

  // What may be taken for a card without high speed while the card is not selected.
  predicate Odd(r: Reply) {
    r.err.NotSupported? || (r.err.Ok? && !r.csd.known)
  }

  ghost predicate NoneOdd(s: seq<Reply>) {
    forall r :: r in s ==> !Odd(r)
  }

  lemma NoneOddOn(s: seq<Reply>)
    requires NoneOdd(s)
    ensures !Odd(First(s)) && NoneOdd(Rest(s))
  {
    assert s != [] ==> s[0] in s;
  }

  // Nothing else strands a card.
  lemma NothingOdd(s: seq<Reply>, scr: Scr, switchClass: bool, hostMax: nat)
    requires NoneOdd(s)
    ensures var speed := SpeedOf(s, scr, switchClass, hostMax);
            speed.Default? ==> speed.selected
  {
    hide First, Rest, NoneOdd;
    NoneOddOn(s);
    NoneOddOn(Rest(s));
    var t := Rest(Rest(s));
    NoneOddOn(t);
    NoneOddOn(Rest(t));
    NoneOddOn(Rest(Rest(t)));
  }

  // All that is behind the wait for the card is part of the replies.
  lemma {:induction false} WaitKeeps(s: seq<Reply>)
    requires NoneOdd(s)
    ensures WaitEnd(s).Some? ==> NoneOdd(WaitEnd(s).value)
    decreases |s|
  {
    if s != [] && s[0].err.Ok? && !s[0].readyForData {
      WaitKeeps(s[1..]);
    }
  }

  lemma SetUpKeeps(s: seq<Reply>, sdhc: bool)
    requires NoneOdd(s)
    ensures SetUp(s, sdhc).Some? ==> NoneOdd(SetUp(s, sdhc).value.rest)
  {
    hide First, Rest, NoneOdd, WaitEnd;
    NoneOddOn(s);
    NoneOddOn(Rest(s));
    NoneOddOn(Rest(Rest(s)));
    var s' := if sdhc then Rest(Rest(s)) else Rest(Rest(Rest(s)));
    NoneOddOn(s');
    NoneOddOn(Rest(s'));
    WaitKeeps(Rest(Rest(s')));
  }

  lemma {:induction false} PollKeeps(s: seq<Reply>, retries: nat, errors: nat)
    requires errors > 0 && NoneOdd(s)
    ensures var p := Poll(s, retries, errors); p.Powered? ==> NoneOdd(p.rest)
    decreases retries
  {
    hide First, Rest, NoneOdd;
    NoneOddOn(s);
    NoneOddOn(Rest(s));
    if retries > 0 {
      if !Accepts(First(s)) {
        if errors > 1 {
          PollKeeps(Rest(s), retries - 1, errors - 1);
        }
      } else if First(Rest(s)).err.Ok? {
        PollKeeps(Rest(Rest(s)), retries - 1, errors);
      } else if errors > 1 {
        PollKeeps(Rest(Rest(s)), retries - 1, errors - 1);
      }
    }
  }

  lemma AskedKeeps(s: seq<Reply>)
    requires NoneOdd(s)
    ensures Asked(s).Powered? ==> NoneOdd(Asked(s).rest)
  {
    hide First, Rest, NoneOdd, Poll, Resets;
    NoneOddOn(s);
    NoneOddOn(Rest(s));
    NoneOddOn(Rest(Rest(s)));
    NoneOddOn(Rest(Rest(Rest(s))));
    PollKeeps(BehindReset(s), OP_COND_MAX_RETRIES, OP_COND_MAX_ERRORS);
  }

  lemma PreparesKeeps(s: seq<Reply>)
    requires NoneOdd(s)
    ensures Prepares(s).Some? ==> NoneOdd(Prepares(s).value.rest)
  {
    hide First, Rest, NoneOdd, SetUp, Asked;
    AskedKeeps(s);
    if Prepares(s).Some? {
      var p := Asked(s);
      NoneOddOn(p.rest);
      NoneOddOn(Rest(p.rest));
      SetUpKeeps(Rest(Rest(p.rest)), p.sdhc);
    }
  }

  // When no answer that the card is ready gets lost, nothing is reported as not
  // supported and every CSD is of a known version, no command is illegal.
  lemma NoIllegalCommand(b: Bus, host: Host)
    requires b.seen == NOTHING && NoneLost(b.script) && NoneOdd(b.script)
    ensures !CardInited(b, host).bus.seen.illegal
  {
    hide CardInited, First, Rest, NoneOdd, NoneLost, Poll, Prepares, SpeedOf, Resets, Accepts, Foretold;
    var s := b.script;
    CardInitIsForetold(b, host);
    NoneLostOn(s);
    NoneLostOn(Rest(s));
    NoneLostOn(Rest(Rest(s)));
    NoneLostOn(Rest(Rest(Rest(s))));
    NothingLost(BehindReset(s), OP_COND_MAX_RETRIES, OP_COND_MAX_ERRORS);
    PreparesKeeps(s);
    if Prepares(s).Some? {
      var Setup(rest, csd, scr) := Prepares(s).value;
      NothingOdd(rest, scr, csd.switchClass, host.maxFreq);
    }
  }

  // ---------- the questions for the operating conditions ----------

  // One round that leaves the card idle: APP_CMD refused, or an answer that does not
  // make the card ready.
  predicate NotYet(round: seq<Reply>) {
    (|round| == 1 && !Accepts(round[0]))
    || (|round| == 2 && Accepts(round[0]) && !((round[1].err.Ok? || round[1].executed) && round[1].powered))
  }

  function Flat(rounds: seq<seq<Reply>>): seq<Reply> {
    if rounds == [] then [] else rounds[0] + Flat(rounds[1..])
  }

  // The rounds that end with an error.
  function Errors(rounds: seq<seq<Reply>>): nat {
    if rounds == [] then 0
    else (if |rounds[0]| == 2 && rounds[0][1].err.Ok? then 0 else 1) + Errors(rounds[1..])
  }

  lemma FirstOf(r: Reply, s: seq<Reply>)
    ensures First([r] + s) == r && Rest([r] + s) == s
  {
  }

  lemma {:induction false} PollOver(rounds: seq<seq<Reply>>, s: seq<Reply>, retries: nat, errors: nat)
    requires forall i :: 0 <= i < |rounds| ==> NotYet(rounds[i])
    requires |rounds| <= retries && Errors(rounds) < errors
    ensures Poll(Flat(rounds) + s, retries, errors) == Poll(s, retries - |rounds|, errors - Errors(rounds))
  {
    hide First, Rest, Accepts;
    if rounds == [] {
      assert Flat(rounds) + s == s;
    } else {
      var round, tail := rounds[0], Flat(rounds[1..]) + s;
      assert NotYet(round);
      if |round| == 1 {
        assert Flat(rounds) + s == [round[0]] + tail;
        FirstOf(round[0], tail);
        PollOver(rounds[1..], s, retries - 1, errors - 1);
      } else {
        assert Flat(rounds) + s == [round[0]] + ([round[1]] + tail);
        FirstOf(round[0], [round[1]] + tail);
        FirstOf(round[1], tail);
        PollOver(rounds[1..], s, retries - 1, if round[1].err.Ok? then errors else errors - 1);
      }
    }
  }

  // A script that begins with a reset, some rounds, and one round more.
  function Questions(start: seq<Reply>, rounds: seq<seq<Reply>>, a: Reply, r: Reply, rest: seq<Reply>): seq<Reply> {
    start + (Flat(rounds) + ([a] + ([r] + rest)))
  }

  // The driver still asks.
  ghost predicate Asking(start: seq<Reply>, rounds: seq<seq<Reply>>) {
    && |start| == 4 && Resets(start) && (forall i :: 0 <= i < |rounds| ==> NotYet(rounds[i]))
    && |rounds| < 100 && Errors(rounds) < 3
  }

  lemma BehindStart(start: seq<Reply>, t: seq<Reply>)
    requires |start| == 4 && Resets(start)
    ensures Resets(start + t) && BehindReset(start + t) == t
  {
    hide First, Rest;
    assert start + t == [start[0]] + ([start[1]] + ([start[2]] + ([start[3]] + t)));
    FirstOf(start[0], [start[1]] + ([start[2]] + ([start[3]] + t)));
    FirstOf(start[1], [start[2]] + ([start[3]] + t));
    FirstOf(start[2], [start[3]] + t);
    FirstOf(start[3], t);
    assert start == [start[0]] + ([start[1]] + ([start[2]] + ([start[3]] + [])));
    FirstOf(start[0], [start[1]] + ([start[2]] + ([start[3]] + [])));
    FirstOf(start[1], [start[2]] + ([start[3]] + []));
    FirstOf(start[2], [start[3]] + []);
  }

  lemma AskedOver(start: seq<Reply>, rounds: seq<seq<Reply>>, a: Reply, r: Reply, rest: seq<Reply>)
    requires Asking(start, rounds) && Accepts(a)
    ensures Asked(Questions(start, rounds, a, r, rest))
         == Poll([a] + ([r] + rest), OP_COND_MAX_RETRIES - |rounds|, OP_COND_MAX_ERRORS - Errors(rounds))
  {
    hide Poll, Accepts;
    var t := Flat(rounds) + ([a] + ([r] + rest));
    BehindStart(start, t);
    PollOver(rounds, [a] + ([r] + rest), OP_COND_MAX_RETRIES, OP_COND_MAX_ERRORS);
  }

  lemma PollOnce(a: Reply, r: Reply, rest: seq<Reply>, retries: nat, errors: nat)
    requires Accepts(a) && retries > 0 && errors > 0
    ensures var p := Poll([a] + ([r] + rest), retries, errors);
            && (r.err.Ok? && r.powered ==> p == Powered(rest, r.ccs))
            && (LostAnswer(r) ==> p == GaveUp(retries > 1 && errors > 1))
  {
    hide First, Rest;
    FirstOf(a, [r] + rest);
    FirstOf(r, rest);
  }

  lemma GaveUpIsDown(s: seq<Reply>, host: Host)
    requires Asked(s).GaveUp?
    ensures Foretold(s, host).Down? && !Strands(s, host) && (Loses(s) <==> Asked(s).lost)
  {
    hide Asked;
  }

  // The answer r to a question is lost, with tries and errors left for another one.
  ghost predicate LostAt(s: seq<Reply>, start: seq<Reply>, rounds: seq<seq<Reply>>, a: Reply, r: Reply,
                         rest: seq<Reply>) {
    && s == Questions(start, rounds, a, r, rest) && Asking(start, rounds) && Accepts(a) && LostAnswer(r)
    && |rounds| < 99 && Errors(rounds) < 2
  }

  lemma NotSilent(s: seq<Reply>, retries: nat, errors: nat)
    requires errors > 0 && Poll(s, retries, errors) == GaveUp(true)
    ensures s != [] && (Accepts(s[0]) ==> |s| > 1)
  {
    NothingLost([], retries, errors);
    if retries > 0 && errors > 1 {
      NothingLost([], retries - 1, errors - 1);
    }
  }

  lemma FlatNone()
    ensures Flat([]) == [] && Errors([]) == 0
  {
  }

  lemma FlatOn(round: seq<Reply>, rounds: seq<seq<Reply>>)
    ensures Flat([round] + rounds) == round + Flat(rounds)
    ensures Errors([round] + rounds) == Errors(rounds) + if |round| == 2 && round[1].err.Ok? then 0 else 1
  {
    assert ([round] + rounds)[1..] == rounds;
  }

  lemma {:induction false} PollLost(s: seq<Reply>, retries: nat, errors: nat)
    returns (rounds: seq<seq<Reply>>, a: Reply, r: Reply, rest: seq<Reply>)
    requires errors > 0 && Poll(s, retries, errors) == GaveUp(true)
    ensures s == Flat(rounds) + ([a] + ([r] + rest)) && (forall i :: 0 <= i < |rounds| ==> NotYet(rounds[i]))
    ensures |rounds| + 1 < retries && Errors(rounds) + 1 < errors && Accepts(a) && LostAnswer(r)
    decreases retries
  {
    hide First, Rest, Flat, Errors, Accepts;
    NotSilent(s, retries, errors);
    var tail := s[1..];
    assert s == [s[0]] + tail;
    FirstOf(s[0], tail);
    if !Accepts(s[0]) {
      rounds, a, r, rest := PollLost(tail, retries - 1, errors - 1);
      FlatOn([s[0]], rounds);
      rounds := [[s[0]]] + rounds;
    } else {
      assert tail == [s[1]] + s[2..];
      FirstOf(s[1], s[2..]);
      if LostAnswer(s[1]) {
        rounds, a, r, rest := [], s[0], s[1], s[2..];
        FlatNone();
      } else {
        rounds, a, r, rest := PollLost(s[2..], retries - 1, if s[1].err.Ok? then errors else errors - 1);
        FlatOn([s[0], s[1]], rounds);
        rounds := [[s[0], s[1]]] + rounds;
      }
    }
  }

  lemma FourBefore(s: seq<Reply>)
    requires Resets(s) && BehindReset(s) != []
    ensures |s| > 4 && s == s[..4] + BehindReset(s) && Resets(s[..4])
  {
  }

  // The host asks a card that became ready exactly when the answer to one of its
  // questions is lost so.
  lemma LosesExactly(s: seq<Reply>)
    ensures Loses(s) <==> exists start, rounds, a, r, rest :: LostAt(s, start, rounds, a, r, rest)
  {
    hide Poll, First, Rest, NotYet, Accepts, Flat, Errors, LostAnswer;
    if Loses(s) {
      var rounds, a, r, rest := PollLost(BehindReset(s), OP_COND_MAX_RETRIES, OP_COND_MAX_ERRORS);
      FourBefore(s);
      assert LostAt(s, s[..4], rounds, a, r, rest);
    }
    forall start, rounds, a, r, rest | LostAt(s, start, rounds, a, r, rest)
      ensures Loses(s)
    {
      AskedOver(start, rounds, a, r, rest);
      PollOnce(a, r, rest, OP_COND_MAX_RETRIES - |rounds|, OP_COND_MAX_ERRORS - Errors(rounds));
    }
  }

  // Once the answer that the card is ready got lost the call fails, and its next
  // question is illegal, unless that was the last try or the last error.
  lemma LostAnswerIsFatal(b: Bus, host: Host, start: seq<Reply>, rounds: seq<seq<Reply>>, a: Reply, r: Reply,
                          rest: seq<Reply>)
    requires b.seen == NOTHING && b.script == Questions(start, rounds, a, r, rest)
    requires Asking(start, rounds) && Accepts(a) && LostAnswer(r)
    ensures var init := CardInited(b, host);
            && !init.err.Ok? && !init.err.AssertFailed?
            && (init.bus.seen.illegal <==>
                  |rounds| < 99 && Errors(rounds) < 2)
  {
    hide CardInited, Questions, First, Rest, Flat, Errors, Accepts, Resets, Poll, NotYet, LostAnswer;
    hide Asked, Foretold, Loses, Strands;
    AskedOver(start, rounds, a, r, rest);
    PollOnce(a, r, rest, OP_COND_MAX_RETRIES - |rounds|, OP_COND_MAX_ERRORS - Errors(rounds));
    GaveUpIsDown(b.script, host);
    CardInitIsForetold(b, host);
  }

  // ---------- a card that answers well ----------

  // What a card has to say once its first CSD is read.
  datatype Kind = Kind(scr: Scr, sdr25: bool, speed50: bool)

  predicate Sound(r: Reply, k: Kind) {
    && r.err.Ok? && r.appBit && r.csd.known && r.csd.speed50 == k.speed50
    && k.scr.known && r.scr == k.scr && r.switch.sdr25 == k.sdr25
    && (r.switch.version == 0 || (r.switch.version == 1 && !r.switch.busy))
  }

  ghost predicate AllSound(s: seq<Reply>, n: nat, k: Kind) {
    |s| >= n && forall r :: r in s ==> Sound(r, k)
  }

  lemma SoundOn(s: seq<Reply>, n: nat, k: Kind)
    requires n > 0 && AllSound(s, n, k)
    ensures Sound(First(s), k) && AllSound(Rest(s), n - 1, k)
  {
    assert s[0] in s;
  }

  lemma Fewer(s: seq<Reply>, m: nat, n: nat, k: Kind)
    requires n <= m && AllSound(s, m, k)
    ensures AllSound(s, n, k)
  {
  }

  predicate ReadyAt(s: seq<Reply>, j: nat) {
    j < |s| && s[j].readyForData
  }

  lemma ReadyOn(s: seq<Reply>, j: nat)
    requires ReadyAt(s, j) && j > 0
    ensures ReadyAt(Rest(s), j - 1)
  {
  }

  // However many answers say that the card is not ready yet: the wait ends.
  lemma {:induction false} SoundWait(s: seq<Reply>, j: nat, n: nat, k: Kind)
    requires AllSound(s, j + 1 + n, k) && ReadyAt(s, j)
    ensures WaitEnd(s).Some? && AllSound(WaitEnd(s).value, n, k)
  {
    assert s[0] in s;
    if s[0].readyForData {
    } else {
      SoundWait(s[1..], j - 1, n, k);
    }
  }

  // Selection, block length and SCR come before the wait.
  function Before(sdhc: bool): nat {
    if sdhc then 3 else 4
  }

  lemma GoodSetUp(csd: Reply, s: seq<Reply>, sdhc: bool, j: nat, n: nat, k: Kind)
    requires csd.err.Ok? && csd.csd.known && j >= Before(sdhc)
    requires AllSound(s, j + 1 + n, k) && ReadyAt(s, j)
    ensures var setup := SetUp([csd] + s, sdhc);
            setup.Some? && AllSound(setup.value.rest, n, k) && setup.value.csd == csd.csd && setup.value.scr == k.scr
  {
    hide First, Rest, AllSound, WaitEnd, ReadyAt;
    FirstOf(csd, s);
    var m := j + 1 + n;
    SoundOn(s, m, k);
    ReadyOn(s, j);
    var t, d := Rest(s), 1;
    if !sdhc {
      SoundOn(t, m - 1, k);
      ReadyOn(t, j - 1);
      t, d := Rest(t), 2;
    }
    SoundOn(t, m - d, k);
    ReadyOn(t, j - d);
    SoundOn(Rest(t), m - d - 1, k);
    ReadyOn(Rest(t), j - d - 1);
    SoundWait(Rest(Rest(t)), j - d - 2, n, k);
  }

  // The result of the high speed mode, with n good answers behind it.
  lemma GoodSpeed(s: seq<Reply>, n: nat, k: Kind, switchClass: bool, hostMax: nat)
    requires AllSound(s, n + 5, k)
    ensures var speed := SpeedOf(s, k.scr, switchClass, hostMax);
            var high := hostMax > FREQ_DEFAULT && k.scr.spec110 && switchClass && k.sdr25;
            && (high && k.speed50 ==> speed.High? && AllSound(speed.rest, n, k))
            && (!(high && k.speed50) ==> speed.Default? && speed.selected && AllSound(speed.rest, n, k))
  {
    hide First, Rest, AllSound;
    Fewer(s, n + 5, n, k);
    SoundOn(s, n + 5, k);
    Fewer(Rest(s), n + 4, n, k);
    SoundOn(Rest(s), n + 4, k);
    var t := Rest(Rest(s));
    SoundOn(t, n + 3, k);
    SoundOn(Rest(t), n + 2, k);
    SoundOn(Rest(Rest(t)), n + 1, k);
  }

  lemma GoodEnd(s: seq<Reply>, k: Kind, maxFreq: nat, host: Host, up: Outcome)
    requires AllSound(s, 4, k) && host.setBusWidth.Ok? && host.setCardClk.Ok?
    ensures End(s, k.scr, maxFreq, host, up) == if maxFreq > host.maxFreq then Asserted else up
  {
    hide First, Rest, AllSound, Selectable;
    SoundOn(s, 4, k);
    SoundOn(Rest(s), 3, k);
    SoundOn(Rest(Rest(s)), 2, k);
    SoundOn(Rest(Rest(Rest(s))), 1, k);
  }

  // The card answers well when it is asked up to 100 times and makes up to two errors
  // before it is ready, and then may say any number of times that it is busy.
  ghost predicate Good(start: seq<Reply>, rounds: seq<seq<Reply>>, asked: (Reply, Reply), found: (Reply, Reply, Reply),
                       rest: seq<Reply>, busy: nat, k: Kind) {
    && Asking(start, rounds) && Accepts(asked.0) && asked.1.err.Ok? && asked.1.powered
    && found.0.err.Ok? && found.1.err.Ok? && found.2.err.Ok? && found.2.csd.known
    && AllSound(rest, Before(asked.1.ccs) + busy + 10, k) && ReadyAt(rest, Before(asked.1.ccs) + busy)
  }

  function Script(start: seq<Reply>, rounds: seq<seq<Reply>>, asked: (Reply, Reply), found: (Reply, Reply, Reply),
                  rest: seq<Reply>): seq<Reply> {
    Questions(start, rounds, asked.0, asked.1, [found.0] + ([found.1] + ([found.2] + rest)))
  }

  lemma GoodPrepares(start: seq<Reply>, rounds: seq<seq<Reply>>, asked: (Reply, Reply), found: (Reply, Reply, Reply),
                     rest: seq<Reply>, busy: nat, k: Kind)
    requires Good(start, rounds, asked, found, rest, busy, k)
    ensures var s := Script(start, rounds, asked, found, rest);
            var setup := Prepares(s);
            && Asked(s).Powered? && Asked(s).sdhc == asked.1.ccs && setup.Some? && AllSound(setup.value.rest, 9, k)
            && setup.value.csd == found.2.csd && setup.value.scr == k.scr
  {
    hide First, Rest, AllSound, ReadyAt, Questions, Flat, Errors, Resets, Accepts, Poll, SetUp, Asked, NotYet;
    var sdhc, tail := asked.1.ccs, [found.0] + ([found.1] + ([found.2] + rest));
    AskedOver(start, rounds, asked.0, asked.1, tail);
    PollOnce(asked.0, asked.1, tail, OP_COND_MAX_RETRIES - |rounds|, OP_COND_MAX_ERRORS - Errors(rounds));
    FirstOf(found.0, [found.1] + ([found.2] + rest));
    FirstOf(found.1, [found.2] + rest);
    GoodSetUp(found.2, rest, sdhc, Before(sdhc) + busy, 9, k);
  }

  // With such a card, and a host that does nothing wrong, the card comes up, except
  // that the driver's assertion fails exactly when the host's limit lies between the
  // frequencies of default and high speed and the card supports the latter.
  lemma GoodCardComesUp(b: Bus, host: Host, start: seq<Reply>, rounds: seq<seq<Reply>>, asked: (Reply, Reply),
                        found: (Reply, Reply, Reply), rest: seq<Reply>, busy: nat, k: Kind)
    requires b.seen == NOTHING && b.script == Script(start, rounds, asked, found, rest)
    requires Good(start, rounds, asked, found, rest, busy, k) && host.setBusWidth.Ok? && host.setCardClk.Ok?
    ensures var fast := k.scr.spec110 && found.2.csd.switchClass && k.sdr25 && k.speed50;
            CardInited(b, host).err ==
            if 20000 < host.maxFreq < 40000 && fast then AssertFailed else Ok
  {
    hide CardInited, Good, Script, AllSound, Asked, Prepares, SpeedOf, End;
    CardInitIsForetold(b, host);
    GoodPrepares(start, rounds, asked, found, rest, busy, k);
    var Setup(t, csd, scr) := Prepares(b.script).value;
    var sdhc := Asked(b.script).sdhc;
    GoodSpeed(t, 4, k, csd.switchClass, host.maxFreq);
    var speed := SpeedOf(t, scr, csd.switchClass, host.maxFreq);
    match speed
    case Failed =>
    case Default(u, again, selected) =>
      GoodEnd(u, k, Min(host.maxFreq, FREQ_DEFAULT), host, Up(sdhc, csd, again));
    case High(u, csd2) =>
      GoodEnd(u, k, FREQ_HIGHSPEED, host, Up(sdhc, csd, Some(csd2)));
  }

  // ---------- the assertion and the capacity limit ----------

  // Whatever is answered, the assertion fails only with a host between the two.
  lemma AssertionNeedsHost(b: Bus, host: Host)
    requires b.seen == NOTHING
    ensures CardInited(b, host).err.AssertFailed? ==> 20000 < host.maxFreq < 40000
  {
    hide CardInited, Prepares, Asked, Again, First, Rest, TellsScr, Accepts, Selectable, SwitchErr;
    CardInitIsForetold(b, host);
  }

  // High speed is wanted, and the card says that it supports it.
  predicate Supports(s: seq<Reply>, scr: Scr, csd: Csd, hostMax: nat) {
    hostMax > 20000 && scr.spec110 && csd.switchClass && Nth(s, 0).switch.sdr25
  }

  // The card is switched to high speed.
  predicate Switches(s: seq<Reply>, scr: Scr, csd: Csd, hostMax: nat) {
    Supports(s, scr, csd, hostMax) && SwitchErr(Nth(s, 0)).Ok? && SwitchErr(Nth(s, 1)).Ok?
  }

  // The CSD of the second SEND_CSD, if it gets that far and is decoded.
  function SecondCsd(s: seq<Reply>, host: Host): Option<Csd> {
    var setup := Prepares(s);
    if setup.None? then None
    else
      var Setup(t, first, scr) := setup.value;
      var deselect, again := Nth(t, 2), Nth(t, 3);
      if Switches(t, scr, first, host.maxFreq) && deselect.err.Ok? && again.err.Ok? && again.csd.known
      then Some(again.csd) else None
  }

  predicate WithinLimit(csd: Csd) {
    csd.capacity <= MaxSdscCapacity(csd.sectorSize)
  }

  lemma UpWith(s: seq<Reply>, host: Host)
    requires Foretold(s, host).Up?
    ensures var o := Foretold(s, host);
            o.again == SecondCsd(s, host) && o.first == Prepares(s).value.csd && o.sdhc == Asked(s).sdhc
  {
    hide Prepares, Asked, First, Rest, TellsScr, Accepts, Selectable, Nth;
    if Prepares(s).Some? {
      NthReplies(Prepares(s).value.rest);
    }
  }

  lemma UpPrepares(s: seq<Reply>, host: Host)
    requires Foretold(s, host).Up?
    ensures Prepares(s).Some?
  {
    hide Prepares;
  }

  // A card that is up has the CSD read again, if one was, and the limited one
  // otherwise.  So the capacity of a byte-addressed card is within the limit if and
  // only if the CSD was not read again, or says so itself.
  lemma LimitKept(b: Bus, host: Host)
    requires b.seen == NOTHING
    ensures var init, again := CardInited(b, host), SecondCsd(b.script, host);
            init.err.Ok? ==>
              && Prepares(b.script).Some?
              && (again.Some? ==> init.csd == again.value)
              && (again.None? ==>
                    var first := Prepares(b.script).value.csd;
                    init.csd == if init.sdhc || WithinLimit(first) then first
                                else first.(capacity := MaxSdscCapacity(first.sectorSize)))
              && (!init.sdhc ==> (WithinLimit(init.csd) <==> again.None? || WithinLimit(again.value)))
  {
    hide CardInited, Foretold, SecondCsd, Asked, Prepares, MaxSdscCapacity;
    CardInitIsForetold(b, host);
    if Foretold(b.script, host).Up? {
      UpPrepares(b.script, host);
      UpWith(b.script, host);
    }
  }

  // When nothing is reported as not supported, the CSD was read again exactly when
  // the host wants high speed and the card supports it.
  lemma ReadAgain(b: Bus, host: Host)
    requires b.seen == NOTHING && NoneOdd(b.script)
    ensures CardInited(b, host).err.Ok? ==>
              && Prepares(b.script).Some?
              && var Setup(t, first, scr) := Prepares(b.script).value;
                 SecondCsd(b.script, host).Some? <==> Supports(t, scr, first, host.maxFreq)
  {
    hide CardInited, Asked, Prepares, NoneOdd, First, Rest, Accepts, TellsScr, Selectable, Nth;
    CardInitIsForetold(b, host);
    PreparesKeeps(b.script);
    if Prepares(b.script).Some? {
      var t := Prepares(b.script).value.rest;
      NthReplies(t);
      NoneOddOn(t);
      NoneOddOn(Rest(t));
      NoneOddOn(Rest(Rest(t)));
      NoneOddOn(Rest(Rest(Rest(t))));
      NoneOddOn(Rest(Rest(Rest(Rest(t)))));
    }
  }

  // ---------- a card left in stand-by ----------

  // The card is stranded exactly when one of the three steps around the second CSD is
  // taken for a card without high speed, with the card in stand-by, and APP_CMD is then
  // accepted.
  lemma StrandsExactly(s: seq<Reply>, host: Host)
    ensures Strands(s, host) <==>
            Prepares(s).Some? &&
            var Setup(t, first, scr) := Prepares(s).value;
            var deselect, csd, select := Nth(t, 2), Nth(t, 3), Nth(t, 4);
            Switches(t, scr, first, host.maxFreq) &&
            if !deselect.err.Ok? then deselect.err.NotSupported? && deselect.executed && Accepts(Nth(t, 3))
            else if !csd.err.Ok? || !csd.csd.known then Odd(csd) && Accepts(Nth(t, 4))
            else select.err.NotSupported? && !select.executed && Accepts(Nth(t, 5))
  {
    hide Prepares, First, Rest, Nth, Accepts;
    if Prepares(s).Some? {
      NthReplies(Prepares(s).value.rest);
    }
  }

  lemma StrandedIsDown(s: seq<Reply>, host: Host)
    requires Strands(s, host)
    ensures Foretold(s, host).Down?
  {
    hide Prepares, SpeedOf, Accepts;
  }

  // The card is deselected, its CSD cannot be read, and it then accepts APP_CMD.
  predicate LosesCsd(s: seq<Reply>, host: Host) {
    Prepares(s).Some? &&
    var Setup(t, first, scr) := Prepares(s).value;
    && Switches(t, scr, first, host.maxFreq)
    && Nth(t, 2).err.Ok? && Odd(Nth(t, 3)) && Accepts(Nth(t, 4))
  }

  // A CSD that cannot be read after the card was deselected is taken for a card without
  // high speed: the bus width command is illegal, and the call fails.
  lemma LeftDeselected(b: Bus, host: Host)
    requires b.seen == NOTHING
    ensures LosesCsd(b.script, host) ==> CardInited(b, host).bus.seen.illegal && !CardInited(b, host).err.Ok?
  {
    hide CardInited, Prepares, Nth, Accepts, Switches;
    StrandsExactly(b.script, host);
    CardInitIsForetold(b, host);
    if Strands(b.script, host) {
      StrandedIsDown(b.script, host);
    }
  }

  // ---------- examples, from the first command on ----------

  const ANSWER := Reply(Ok, true, true, false, true, true, true, 1,
                        Csd(true, true, true, 512, 0x100_0000), Scr(true, true, true), Switch(1, false, true))

  function Four(t: seq<Reply>): seq<Reply> {
    [ANSWER] + ([ANSWER] + ([ANSWER] + ([ANSWER] + t)))
  }

  lemma FirstFour(t: seq<Reply>)
    ensures Four(t) == [ANSWER, ANSWER, ANSWER, ANSWER] + t
    ensures First(Four(t)) == First(Rest(Four(t))) == First(Rest(Rest(Four(t)))) == ANSWER
    ensures Rest(Rest(Rest(Four(t)))) == [ANSWER] + t && First(Rest(Rest(Rest(Four(t))))) == ANSWER
    ensures Rest(Rest(Rest(Rest(Four(t))))) == t
  {
    hide First, Rest;
    FirstOf(ANSWER, [ANSWER] + ([ANSWER] + ([ANSWER] + t)));
    FirstOf(ANSWER, [ANSWER] + ([ANSWER] + t));
    FirstOf(ANSWER, [ANSWER] + t);
    FirstOf(ANSWER, t);
  }

  // Fourteen such answers bring a card up to high speed.
  function Fourteen(t: seq<Reply>): seq<Reply> {
    Four([ANSWER] + ([ANSWER] + Four(Four(t))))
  }

  lemma AfterFourteen(t: seq<Reply>)
    ensures var s := Fourteen(t);
            Prepares(s) == Some(Setup(t, ANSWER.csd, ANSWER.scr)) && !Asked(s).sdhc
  {
    hide First, Rest, Four, Poll;
    var u := Four(Four(t));
    FirstFour([ANSWER] + ([ANSWER] + u));
    PollOnce(ANSWER, ANSWER, u, OP_COND_MAX_RETRIES, OP_COND_MAX_ERRORS);
    FirstFour(Four(t));
    FirstFour(t);
    assert Asked(Fourteen(t)) == Powered(u, false);
    assert ([ANSWER] + t)[1..] == t;
  }
  // The answer to the first question for the operating conditions is lost.
  lemma LostAnswerExample(card: Card, host: Host)
    ensures var lost := ANSWER.(err := Timeout);
            CardInited(Bus(card, [ANSWER, ANSWER, ANSWER, ANSWER, ANSWER, lost], NOTHING), host).bus.seen.illegal
  {
    hide CardInited;
    var start, lost := [ANSWER, ANSWER, ANSWER, ANSWER], ANSWER.(err := Timeout);
    var s := Questions(start, [], ANSWER, lost, []);
    assert s == [ANSWER, ANSWER, ANSWER, ANSWER, ANSWER, lost];
    LostAnswerIsFatal(Bus(card, s, NOTHING), host, start, [], ANSWER, lost, []);
  }

  // The second CSD has an unknown version.
  lemma LeftDeselectedExample(card: Card, host: Host)
    requires host.maxFreq > FREQ_DEFAULT
    ensures var unknown := ANSWER.(csd := ANSWER.csd.(known := false));
            var s := Fourteen([ANSWER, ANSWER, ANSWER, unknown, ANSWER]);
            CardInited(Bus(card, s, NOTHING), host).bus.seen.illegal
  {
    hide CardInited, Prepares, Fourteen;
    var unknown := ANSWER.(csd := ANSWER.csd.(known := false));
    var t := [ANSWER, ANSWER, ANSWER, unknown, ANSWER];
    AfterFourteen(t);
    LeftDeselected(Bus(card, Fourteen(t), NOTHING), host);
  }

  lemma NineAre(t: seq<Reply>)
    requires t == Four(Four([ANSWER]))
    ensures t == [ANSWER, ANSWER, ANSWER, ANSWER, ANSWER, ANSWER, ANSWER, ANSWER, ANSWER]
    ensures AllSound(t, 9, Kind(ANSWER.scr, true, true))
  {
  }

  // Nine more bring it up.
  lemma NineMore(host: Host)
    requires host.maxFreq >= FREQ_HIGHSPEED && host.setBusWidth.Ok? && host.setCardClk.Ok?
    ensures var s := Fourteen(Four(Four([ANSWER])));
            && Foretold(s, host) == Up(false, ANSWER.csd, Some(ANSWER.csd)) && SecondCsd(s, host) == Some(ANSWER.csd)
  {
    hide Prepares, Asked, SpeedOf, End, Four, Fourteen;
    var t, k := Four(Four([ANSWER])), Kind(ANSWER.scr, true, true);
    AfterFourteen(t);
    NineAre(t);
    GoodSpeed(t, 4, k, true, host.maxFreq);
    var speed := SpeedOf(t, k.scr, true, host.maxFreq);
    GoodEnd(speed.rest, k, FREQ_HIGHSPEED, host, Up(false, ANSWER.csd, Some(speed.csd)));
    UpWith(Fourteen(t), host);
  }

  // The card is byte-addressed, comes up, and has more capacity than its addresses
  // reach.
  lemma LimitForgotten(card: Card, host: Host)
    requires host.maxFreq >= FREQ_HIGHSPEED && host.setBusWidth.Ok? && host.setCardClk.Ok?
    ensures var init := CardInited(Bus(card, Fourteen(Four(Four([ANSWER]))), NOTHING), host);
            init.err.Ok? && !init.sdhc && !WithinLimit(init.csd)
  {
    hide CardInited, Foretold, Fourteen, Four, SecondCsd, Limited, Prepares, Asked, Loses, Strands;
    var b := Bus(card, Fourteen(Four(Four([ANSWER]))), NOTHING);
    CardInitIsForetold(b, host);
    AfterFourteen(Four(Four([ANSWER])));
    NineMore(host);
    LimitKept(b, host);
  }
}
