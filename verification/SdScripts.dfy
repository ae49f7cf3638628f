/**
 The outcome of bringing up a card as a function of nothing but the replies and the
 host, without the card and without watching the bus; and the proof that
 sdmmc_card_init has that outcome.
 */
module SdScripts {
  import opened Prelude
  import opened Buffers
  import opened SdCard
  import opened SdSteps

  // APP_CMD was taken by the card.
  predicate Accepts(r: Reply) {
    r.err.Ok? && r.appBit
  }

  // ---------- up to the stand-by state ----------

  // A memory card does not answer the first command, and answers the third from
  // version 2.00 on.
  predicate Resets(s: seq<Reply>) {
    var r52, r0, r8 := First(s), First(Rest(s)), First(Rest(Rest(s)));
    (r52.err.Ok? || r52.err.Timeout?) && r0.err.Ok? && (r8.err.Timeout? || (r8.err.Ok? && r8.echo))
  }

  function BehindReset(s: seq<Reply>): seq<Reply> {
    Rest(Rest(Rest(Rest(s))))
  }

  // lost: the card became ready, the host was told of an error, and it asks again.
  datatype Polled = Powered(rest: seq<Reply>, sdhc: bool) | GaveUp(lost: bool)

  function Poll(s: seq<Reply>, retries: nat, errors: nat): Polled
    requires errors > 0
    decreases retries, s
  {
    var r, rest := First(Rest(s)), Rest(Rest(s));
    if retries == 0 then GaveUp(false)
    else if !Accepts(First(s)) then
      if errors == 1 then GaveUp(false) else Poll(Rest(s), retries - 1, errors - 1)
    else if r.err.Ok? then
      if r.powered then Powered(rest, r.ccs) else Poll(rest, retries - 1, errors)
    else if errors == 1 then GaveUp(false)
    else if r.executed && r.powered then GaveUp(retries > 1)
    else Poll(rest, retries - 1, errors - 1)
  }

  function Asked(s: seq<Reply>): Polled {
    if Resets(s) then Poll(BehindReset(s), OP_COND_MAX_RETRIES, OP_COND_MAX_ERRORS) else GaveUp(false)
  }

  // The identification, behind the question for the operating conditions.
  predicate Identifies(s: seq<Reply>) {
    First(s).err.Ok? && First(Rest(s)).err.Ok?
  }

  // ---------- from there to a card that can be read ----------

  function WaitEnd(s: seq<Reply>): Option<seq<Reply>>
    decreases |s|
  {
    if s == [] || !s[0].err.Ok? then None
    else if s[0].readyForData then Some(s[1..])
    else WaitEnd(s[1..])
  }

  // The two replies to a request for the SCR.
  predicate TellsScr(s: seq<Reply>) {
    Accepts(First(s)) && First(Rest(s)).err.Ok? && First(Rest(s)).scr.known
  }

  datatype Setup = Setup(rest: seq<Reply>, csd: Csd, scr: Scr)

  function SetUp(s: seq<Reply>, sdhc: bool): Option<Setup> {
    var csd, select, blocklen := First(s), First(Rest(s)), First(Rest(Rest(s)));
    var s' := if sdhc then Rest(Rest(s)) else Rest(Rest(Rest(s)));
    var end := WaitEnd(Rest(Rest(s')));
    if csd.err.Ok? && csd.csd.known && select.err.Ok? && (sdhc || blocklen.err.Ok?) && TellsScr(s') && end.Some?
    then Some(Setup(end.value, csd.csd, First(Rest(s')).scr))
    else None
  }

  // ---------- high speed ----------

  // again: the CSD read for the second time, if that was decoded.
  // selected: the card is selected again, or was not deselected.
  datatype Speed =
    | Failed
    | Default(rest: seq<Reply>, again: Option<Csd>, selected: bool)
    | High(rest: seq<Reply>, csd: Csd)

  // Only the not-supported result is taken for a card without high speed.
  function Unless(err: Status, rest: seq<Reply>, again: Option<Csd>, selected: bool): Speed {
    if err.NotSupported? then Default(rest, again, selected) else Failed
  }

  function SwitchErr(r: Reply): Status {
    if !r.err.Ok? then r.err
    else if r.switch.version > 1 then InvalidResponse
    else if r.switch.version == 1 && r.switch.busy then InvalidState
    else Ok
  }

  function Again(s: seq<Reply>): Speed {
    var deselect, csd, select := First(s), First(Rest(s)), First(Rest(Rest(s)));
    var rest := Rest(Rest(Rest(s)));
    if !deselect.err.Ok? then Unless(deselect.err, Rest(s), None, !deselect.executed)
    else if !csd.err.Ok? then Unless(csd.err, Rest(Rest(s)), None, false)
    else if !csd.csd.known then Default(Rest(Rest(s)), None, false)
    else if !select.err.Ok? then Unless(select.err, rest, Some(csd.csd), select.executed)
    else if csd.csd.speed50 then High(rest, csd.csd)
    else Default(rest, Some(csd.csd), true)
  }

  function SpeedOf(s: seq<Reply>, scr: Scr, switchClass: bool, hostMax: nat): Speed {
    if hostMax <= FREQ_DEFAULT || !scr.spec110 || !switchClass then Default(s, None, true)
    else if !SwitchErr(First(s)).Ok? then Unless(SwitchErr(First(s)), Rest(s), None, true)
    else if !First(s).switch.sdr25 then Default(Rest(s), None, true)
    else if !SwitchErr(First(Rest(s))).Ok? then Unless(SwitchErr(First(Rest(s))), Rest(Rest(s)), None, true)
    else Again(Rest(Rest(s)))
  }

  // ---------- all of it ----------

  datatype Outcome =
    // The card is up: whether it is addressed by sectors, its first CSD, and the one
    // read again.
    | Up(sdhc: bool, first: Csd, again: Option<Csd>)
    | Down
    // The driver's assertion fails.
    | Asserted

  // The bus width, what the host does, and the last check.
  function End(s: seq<Reply>, scr: Scr, maxFreq: nat, host: Host, up: Outcome): Outcome {
    var four, check := scr.bus4 && host.width4, Rest(Rest(s));
    if !Accepts(First(s)) || !First(Rest(s)).err.Ok? || (four && !host.setBusWidth.Ok?) then Down
    else if maxFreq > host.maxFreq then Asserted
    else if Selectable(maxFreq) > FREQ_PROBING && !host.setCardClk.Ok? then Down
    else if TellsScr(check) && First(Rest(check)).scr == scr then up
    else Down
  }

  function Last(speed: Speed, scr: Scr, host: Host, sdhc: bool, first: Csd): Outcome {
    match speed
    case Failed => Down
    case Default(rest, again, selected) =>
      if selected then End(rest, scr, Min(host.maxFreq, FREQ_DEFAULT), host, Up(sdhc, first, again)) else Down
    case High(rest, csd) => End(rest, scr, FREQ_HIGHSPEED, host, Up(sdhc, first, Some(csd)))
  }

  // How far the replies bring the card, up to the high speed mode.
  function Prepares(s: seq<Reply>): Option<Setup> {
    var p := Asked(s);
    if p.Powered? && Identifies(p.rest) then SetUp(Rest(Rest(p.rest)), p.sdhc) else None
  }

  function Foretold(s: seq<Reply>, host: Host): Outcome {
    var setup := Prepares(s);
    if setup.None? then Down
    else
      var Setup(rest, csd, scr) := setup.value;
      Last(SpeedOf(rest, scr, csd.switchClass, host.maxFreq), scr, host, Asked(s).sdhc, csd)
  }

  // The CSD the driver has in the end.
  function FinalCsd(up: Outcome): Csd
    requires up.Up?
  {
    if up.again.Some? then up.again.value else Limited(up.first, up.sdhc)
  }

  // The two ways to an illegal command.  The answer that the card is ready got lost,
  // and the host asks on.
  predicate Loses(s: seq<Reply>) {
    Asked(s) == GaveUp(true)
  }

  // Something was taken for a card without high speed while the card was not
  // selected, which then is to be told the bus width.
  predicate Strands(s: seq<Reply>, host: Host) {
    var setup := Prepares(s);
    setup.Some? &&
    var Setup(rest, csd, scr) := setup.value;
    var speed := SpeedOf(rest, scr, csd.switchClass, host.maxFreq);
    speed.Default? && !speed.selected && Accepts(First(speed.rest))
  }

  // ---------- the proof, up to the stand-by state ----------

  lemma ResetIsForetold(b: Bus)
    ensures var (b', e) := Reset(b);
            && (e.Ok? <==> Resets(b.script)) && b'.seen.illegal == b.seen.illegal
            && (e.Ok? ==> b'.script == BehindReset(b.script) && b'.card == Card(Idle, false, 0, 1, false, 512))
  {
  }

  lemma AskedOnce(b: Bus)
    requires b.card.state.Idle? && b.card.rca == 0
    ensures var (b', e, r) := AppSent(b, 0, SendOpCond);
            var heard := First(Rest(b.script));
            && b'.seen == b.seen
            && (b'.card.state.Ready? || (b'.card.state.Idle? && b'.card.rca == 0))
            && b'.card.width == b.card.width && b'.card.fast == b.card.fast
            && if !Accepts(First(b.script))
               then !e.Ok? && b'.script == Rest(b.script) && b'.card.state.Idle?
               else && e == heard.err && r == heard && b'.script == Rest(Rest(b.script))
                    && (b'.card.state.Ready? <==> (e.Ok? || heard.executed) && heard.powered)
                    && (e.Ok? ==> In(b'.card, if heard.powered then Ready else Idle, 0))
  {
  }

  lemma NoRound(b: Bus, mmc: bool, errors: nat)
    requires errors > 0
    ensures OpConds(b, mmc, 0, errors) == (b, Timeout, SILENCE)
  {
  }

  lemma OneRound(b: Bus, mmc: bool, retries: nat, errors: nat)
    requires retries > 0 && errors > 0
    ensures var (b', err, r) := if mmc then (Sent(b, MmcSendOpCond), Verdict(b, MmcSendOpCond), NextReply(b))
                                else AppSent(b, 0, SendOpCond);
            OpConds(b, mmc, retries, errors) ==
            if !err.Ok? then if errors == 1 then (b', err, r) else OpConds(b', mmc, retries - 1, errors - 1)
            else if r.powered then (b', Ok, r)
            else OpConds(b', mmc, retries - 1, errors)
  {
  }

  // Once the card is ready, every further question is illegal and fails.
  lemma {:induction false} ReadyStaysReady(b: Bus, retries: nat, errors: nat)
    requires b.card.state.Ready? && errors > 0
    ensures var (b', err, r) := OpConds(b, false, retries, errors);
            !err.Ok? && (b'.seen.illegal <==> b.seen.illegal || retries > 0)
    decreases retries
  {
    if retries > 0 {
      var (b', err, r) := AppSent(b, 0, SendOpCond);
      assert b'.card.state.Ready? && !err.Ok? && b'.seen.illegal;
      hide AppSent;
      if errors > 1 {
        ReadyStaysReady(b', retries - 1, errors - 1);
      }
    }
  }

  lemma {:induction false} PollIsForetold(b: Bus, retries: nat, errors: nat)
    requires b.card.state.Idle? && b.card.rca == 0 && !b.seen.illegal && errors > 0
    ensures var (b', e, r) := OpConds(b, false, retries, errors);
            var p := Poll(b.script, retries, errors);
            && (e.Ok? <==> p.Powered?) && b'.seen.illegal == (p == GaveUp(true))
            && (e.Ok? ==> && b'.script == p.rest && r.ccs == p.sdhc && In(b'.card, Ready, 0)
                          && b'.card.width == b.card.width && b'.card.fast == b.card.fast)
    decreases retries
  {
    if retries > 0 {
      var (b', err, r) := AppSent(b, 0, SendOpCond);
      AskedOnce(b);
      hide AppSent, First, Rest, In;
      if b'.card.state.Idle? {
        if err.Ok? {
          PollIsForetold(b', retries - 1, errors);
        } else if errors > 1 {
          PollIsForetold(b', retries - 1, errors - 1);
        }
      } else if !err.Ok? && errors > 1 {
        ReadyStaysReady(b', retries - 1, errors - 1);
      }
    }
  }

  lemma {:induction false} NotAsMmc(b: Bus, retries: nat, errors: nat)
    requires errors > 0
    ensures var (b', err, r) := OpConds(b, true, retries, errors);
            !err.Ok? && b'.seen.illegal == b.seen.illegal
    decreases retries
  {
    if retries > 0 && errors > 1 {
      NotAsMmc(Sent(b, MmcSendOpCond), retries - 1, errors - 1);
    }
  }

  lemma MmcIsNoHelp(b: Bus)
    ensures !AsMmc(b).1.Ok? && AsMmc(b).0.seen.illegal == b.seen.illegal
  {
    NotAsMmc(b, OP_COND_MAX_RETRIES, OP_COND_MAX_ERRORS);
    hide OpConds;
  }

  lemma IdentifiedIsForetold(b: Bus)
    requires !b.seen.illegal
    ensures var found, p := Identified(b), Asked(b.script);
            && (found.err.Ok? <==> p.Powered? && Identifies(p.rest))
            && found.bus.seen.illegal == Loses(b.script)
            && (found.err.Ok? ==> && found.bus.script == Rest(Rest(p.rest)) && found.sdhc == p.sdhc && found.rca > 0
                                  && In(found.bus.card, Stby, found.rca)
                                  && found.bus.card.width == 1 && !found.bus.card.fast)
  {
    ResetIsForetold(b);
    var (b1, e1) := Reset(b);
    hide Reset, OpConds, Poll, AsMmc, Resets, BehindReset;
    if e1.Ok? {
      PollIsForetold(b1, OP_COND_MAX_RETRIES, OP_COND_MAX_ERRORS);
      var (b2, e2, r2) := OpConds(b1, false, OP_COND_MAX_RETRIES, OP_COND_MAX_ERRORS);
      if e2.Timeout? {
        MmcIsNoHelp(b2);
      }
    }
  }

  // ---------- the proof, from there to a card that can be read ----------

  // The card is selected, and all went well so far.
  predicate Selected(b: Bus, rca: nat) {
    rca > 0 && In(b.card, Tran, rca) && !b.seen.illegal
  }

  lemma ScrIsForetold(b: Bus, rca: nat)
    requires Selected(b, rca)
    ensures var (b', e, scr) := ScrRead(b, rca);
            && (e.Ok? <==> TellsScr(b.script)) && !b'.seen.illegal
            && (e.Ok? ==> b'.script == Rest(Rest(b.script)) && scr == First(Rest(b.script)).scr && b'.card == b.card)
  {
  }

  lemma OneLess(b: Bus, cmd: Cmd)
    ensures Verdict(b, cmd).Ok? ==> |Sent(b, cmd).script| < |b.script|
  {
  }

  lemma {:induction false} WaitIsForetold(b: Bus, rca: nat)
    requires Selected(b, rca)
    ensures var (b', e) := Waited(b, rca);
            var end := WaitEnd(b.script);
            && (e.Ok? <==> end.Some?) && !b'.seen.illegal
            && (e.Ok? ==> b'.script == end.value && b'.card == b.card && b'.seen.ready)
    decreases |b.script|
  {
    var b', err := Sent(b, SendStatus(rca)), Verdict(b, SendStatus(rca));
    assert err == First(b.script).err && !b'.seen.illegal && b'.script == Rest(b.script);
    assert err.Ok? ==> b'.card == b.card && (b'.seen.ready <==> First(b.script).readyForData);
    hide Sent, Verdict, In;
    if err.Ok? && !NextReply(b).readyForData {
      WaitIsForetold(b', rca);
    }
  }

  lemma ConfiguredIsForetold(b: Bus, rca: nat, sdhc: bool, csd: Csd)
    requires Selected(b, rca)
    ensures var data := Configured(b, rca, sdhc, csd);
            var s := if sdhc then b.script else Rest(b.script);
            var end := WaitEnd(Rest(Rest(s)));
            && (data.err.Ok? <==> (sdhc || First(b.script).err.Ok?) && TellsScr(s) && end.Some?)
            && !data.bus.seen.illegal
            && (data.err.Ok? ==> && Selected(data.bus, rca) && data.bus.seen.ready && data.bus.script == end.value
                                 && data.csd == csd && data.scr == First(Rest(s)).scr
                                 && (!sdhc ==> data.bus.card.blockLen == csd.sectorSize)
                                 && data.bus.card.width == b.card.width && data.bus.card.fast == b.card.fast)
  {
    var b1 := if sdhc then b else Sent(b, SetBlocklen(csd.sectorSize));
    var e1 := if sdhc then Ok else Verdict(b, SetBlocklen(csd.sectorSize));
    assert e1.Ok? ==> Selected(b1, rca) && b1.card.width == b.card.width && b1.card.fast == b.card.fast;
    assert e1.Ok? && !sdhc ==> b1.card.blockLen == csd.sectorSize;
    assert !b1.seen.illegal && b1.script == (if sdhc then b.script else Rest(b.script));
    assert e1 == if sdhc then Ok else First(b.script).err;
    hide Sent, Verdict, ScrRead, Waited, In, TellsScr, WaitEnd;
    if e1.Ok? {
      ScrIsForetold(b1, rca);
      var (b2, e2, _) := ScrRead(b1, rca);
      if e2.Ok? {
        WaitIsForetold(b2, rca);
      }
    }
  }

  lemma PreparedIsForetold(b: Bus, rca: nat, sdhc: bool)
    requires rca > 0 && In(b.card, Stby, rca) && !b.seen.illegal
    ensures var data, setup := Prepared(b, rca, sdhc), SetUp(b.script, sdhc);
            && (data.err.Ok? <==> setup.Some?) && !data.bus.seen.illegal
            && (data.err.Ok? ==> && Selected(data.bus, rca) && data.bus.seen.ready
                                 && data.bus.script == setup.value.rest
                                 && data.csd == Limited(setup.value.csd, sdhc) && data.scr == setup.value.scr
                                 && (!sdhc ==> data.bus.card.blockLen == data.csd.sectorSize)
                                 && data.bus.card.width == b.card.width && data.bus.card.fast == b.card.fast)
  {
    var csd := Limited(NextReply(b).csd, sdhc);
    var b1 := Sent(b, SendCsd(rca));
    var b2 := Sent(b1, SelectCard(rca));
    assert !b2.seen.illegal && b2.script == Rest(Rest(b.script)) && b1.card == b.card;
    assert Verdict(b, SendCsd(rca)) == First(b.script).err;
    assert Verdict(b1, SelectCard(rca)) == First(Rest(b.script)).err;
    assert Verdict(b1, SelectCard(rca)).Ok? ==>
        In(b2.card, Tran, rca) && b2.card.width == b.card.width && b2.card.fast == b.card.fast;
    hide Sent, Verdict, Configured, In, TellsScr, WaitEnd, Limited;
    if CsdErr(b, rca).Ok? && Verdict(b1, SelectCard(rca)).Ok? {
      ConfiguredIsForetold(b2, rca, sdhc, csd);
    }
  }

  // ---------- the proof, high speed ----------

  lemma SwitchIsForetold(b: Bus, rca: nat, scr: Scr, csd: Csd, mode: nat)
    requires Selected(b, rca) && scr.spec110 && csd.switchClass
    ensures var (b', e) := Switched(b, scr, csd, mode);
            && Selected(b', rca) && e == SwitchErr(First(b.script)) && b'.script == Rest(b.script)
            && b'.card.width == b.card.width && (e.Ok? && mode == 1 ==> b'.card.fast)
  {
  }

  // What a step of the high speed mode leaves, taken as the call takes it.
  ghost predicate Agree(speed: Speed, b: Bus, e: Status, csd: Csd, was: Csd, rca: nat) {
    && rca > 0 && !b.seen.illegal
    && match speed
       case Failed => !e.Ok? && !e.NotSupported?
       case Default(rest, again, selected) =>
         && e.NotSupported? && b.script == rest && csd == (if again.Some? then again.value else was)
         && In(b.card, if selected then Tran else Stby, rca)
       case High(rest, csd2) =>
         e.Ok? && b.script == rest && csd == csd2 && In(b.card, Tran, rca) && b.card.fast
  }

  lemma AtStandby(b: Bus, rca: nat)
    requires rca > 0 && In(b.card, Stby, rca) && !b.seen.illegal
    ensures Verdict(b, SendCsd(rca)) == Verdict(b, SelectCard(rca)) == First(b.script).err
    ensures Sent(b, SendCsd(rca)) == b.(script := Rest(b.script))
    ensures var b' := Sent(b, SelectCard(rca));
            && b'.script == Rest(b.script) && !b'.seen.illegal
            && In(b'.card, if First(b.script).err.Ok? || First(b.script).executed then Tran else Stby, rca)
            && b'.card.fast == b.card.fast && b'.card.width == b.card.width
  {
  }

  lemma Deselect(b: Bus, rca: nat)
    requires Selected(b, rca)
    ensures Verdict(b, SelectCard(0)) == First(b.script).err
    ensures var b' := Sent(b, SelectCard(0));
            && b'.script == Rest(b.script) && !b'.seen.illegal
            && In(b'.card, if First(b.script).err.Ok? || First(b.script).executed then Stby else Tran, rca)
            && b'.card.fast == b.card.fast && b'.card.width == b.card.width
  {
  }

  lemma AgainIsForetold(b: Bus, rca: nat, was: Csd)
    requires Selected(b, rca)
    ensures var (b', e, csd) := Reread(b, rca, was);
            var err := if e.Ok? && !csd.speed50 then NotSupported else e;
            && b'.card.width == b.card.width
            && (b.card.fast ==> Agree(Again(b.script), b', err, csd, was, rca))
  {
    Deselect(b, rca);
    var b1 := Sent(b, SelectCard(0));
    if First(b.script).err.Ok? {
      AtStandby(b1, rca);
      var b2 := Sent(b1, SendCsd(rca));
      AtStandby(b2, rca);
    }
    hide Sent, Verdict, In, First, Rest;
  }

  lemma RereadIsSafe(b: Bus, rca: nat, was: Csd)
    requires Selected(b, rca)
    ensures var (b', e, csd) := Reread(b, rca, was);
            && !b'.seen.illegal && (In(b'.card, Tran, rca) || (In(b'.card, Stby, rca) && !e.Ok?))
            && (csd == was || csd == First(Rest(b.script)).csd)
  {
    Deselect(b, rca);
    var b1 := Sent(b, SelectCard(0));
    if First(b.script).err.Ok? {
      AtStandby(b1, rca);
      AtStandby(Sent(b1, SendCsd(rca)), rca);
    }
    hide Sent, Verdict, In, First, Rest;
  }

  lemma HsIsForetold(b: Bus, rca: nat, scr: Scr, csd: Csd, hostMax: nat)
    requires Selected(b, rca)
    ensures var (b', e, csd') := HsChecked(b, rca, scr, csd, hostMax);
            && b'.card.width == b.card.width
            && Agree(SpeedOf(b.script, scr, csd.switchClass, hostMax), b',
                     if hostMax <= FREQ_DEFAULT then NotSupported else e, csd', csd, rca)
            && (hostMax <= FREQ_DEFAULT ==> e.Ok?)
  {
    if hostMax > FREQ_DEFAULT && scr.spec110 && csd.switchClass {
      SwitchIsForetold(b, rca, scr, csd, 0);
      var (b1, e1) := Switched(b, scr, csd, 0);
      SwitchIsForetold(b1, rca, scr, csd, 1);
      var (b2, e2) := Switched(b1, scr, csd, 1);
      AgainIsForetold(b2, rca, csd);
      hide SwitchErr, Again, Reread, Switched, First, Rest;
    }
  }

  // ---------- the proof, to the end ----------

  lemma WidthOfSelected(b: Bus, rca: nat, width: nat)
    requires Selected(b, rca)
    ensures var (b', e, _) := AppSent(b, rca, SetBusWidth(width));
            && !b'.seen.illegal && (e.Ok? <==> Accepts(First(b.script)) && First(Rest(b.script)).err.Ok?)
            && (e.Ok? ==> && In(b'.card, Tran, rca) && b'.script == Rest(Rest(b.script))
                          && b'.card.width == width && b'.card.fast == b.card.fast)
  {
  }

  lemma FinishedIsForetold(b: Bus, rca: nat, scr: Scr, maxFreq: nat, host: Host, up: Outcome)
    requires Selected(b, rca) && up.Up?
    ensures var (b', e) := Finished(b, rca, scr, maxFreq, host);
            var end := End(b.script, scr, maxFreq, host, up);
            && !b'.seen.illegal && (e.Ok? <==> end.Up?) && (e.Ok? ==> end == up) && (e.AssertFailed? <==> end.Asserted?)
            && (e.Ok? ==> In(b'.card, Tran, rca) && b'.card.fast == b.card.fast
                          && b'.card.width == if scr.bus4 && host.width4 then 4 else 1)
  {
    var width := if scr.bus4 && host.width4 then 4 else 1;
    WidthOfSelected(b, rca, width);
    var (b1, e1, _) := AppSent(b, rca, SetBusWidth(width));
    hide AppSent, ScrRead, TellsScr, In, Selectable, First, Rest;
    if e1.Ok? {
      ScrIsForetold(b1, rca);
    }
  }

  // The bus width command is illegal if it gets that far.
  lemma WidthOfDeselected(b: Bus, rca: nat, width: nat)
    requires rca > 0 && In(b.card, Stby, rca) && !b.seen.illegal
    ensures var (b', e, _) := AppSent(b, rca, SetBusWidth(width));
            !e.Ok? && (b'.seen.illegal <==> Accepts(First(b.script)))
  {
  }

  lemma FinishedDeselected(b: Bus, rca: nat, scr: Scr, maxFreq: nat, host: Host)
    requires rca > 0 && In(b.card, Stby, rca) && !b.seen.illegal
    ensures var (b', e) := Finished(b, rca, scr, maxFreq, host);
            !e.Ok? && !e.AssertFailed? && (b'.seen.illegal <==> Accepts(First(b.script)))
  {
    WidthOfDeselected(b, rca, if scr.bus4 && host.width4 then 4 else 1);
    hide AppSent, ScrRead;
  }

  // What SpedUpIsForetold says.
  ghost predicate Fits(b: Bus, e: Err, csd: Csd, sdhc: bool, speed: Speed, o: Outcome, rca: nat, scr: Scr,
                       host: Host) {
    && (e.Ok? <==> o.Up?) && (e.AssertFailed? <==> o.Asserted?)
    && (b.seen.illegal <==> speed.Default? && !speed.selected && Accepts(First(speed.rest)))
    && (e.Ok? ==> && csd == FinalCsd(o) && o.sdhc == sdhc && In(b.card, Tran, rca) && (speed.High? ==> b.card.fast)
                  && b.card.width == if scr.bus4 && host.width4 then 4 else 1)
  }

  lemma SpedUpIsForetold(b: Bus, rca: nat, sdhc: bool, first: Csd, scr: Scr, host: Host)
    requires Selected(b, rca)
    ensures var (b', e, csd) := SpedUp(b, rca, Limited(first, sdhc), scr, host);
            var speed := SpeedOf(b.script, scr, first.switchClass, host.maxFreq);
            Fits(b', e, csd, sdhc, speed, Last(speed, scr, host, sdhc, first), rca, scr, host)
  {
    var csd := Limited(first, sdhc);
    assert csd.switchClass == first.switchClass;
    HsIsForetold(b, rca, scr, csd, host.maxFreq);
    var (b1, e1, csd1) := HsChecked(b, rca, scr, csd, host.maxFreq);
    var speed := SpeedOf(b.script, scr, first.switchClass, host.maxFreq);
    hide HsChecked, SpeedOf, Finished, End, In, Accepts, Limited;
    match speed
    case Failed =>
    case Default(rest, again, selected) =>
      if selected {
        FinishedIsForetold(b1, rca, scr, Min(host.maxFreq, FREQ_DEFAULT), host, Up(sdhc, first, again));
      } else {
        FinishedDeselected(b1, rca, scr, Min(host.maxFreq, FREQ_DEFAULT), host);
      }
    case High(rest, csd2) =>
      FinishedIsForetold(b1, rca, scr, FREQ_HIGHSPEED, host, Up(sdhc, first, Some(csd2)));
  }

  lemma LosesNoPower(s: seq<Reply>)
    ensures Asked(s).Powered? ==> !Loses(s)
  {
  }

  // For every sequence of replies and every host: the call succeeds, fails or stops at
  // the assertion as foretold, with that CSD, and sends an illegal command exactly in
  // two cases.
  lemma CardInitIsForetold(b: Bus, host: Host)
    requires b.seen == NOTHING
    ensures var init, o := CardInited(b, host), Foretold(b.script, host);
            && (init.err.Ok? <==> o.Up?) && (init.err.AssertFailed? <==> o.Asserted?)
            && (o.Up? ==> init.sdhc == o.sdhc && init.csd == FinalCsd(o))
            && (init.bus.seen.illegal <==> Loses(b.script) || Strands(b.script, host))
  {
    IdentifiedIsForetold(b);
    LosesNoPower(b.script);
    var found := Identified(b);
    hide Loses, Identified, Asked, Prepared, SpedUp, SetUp, SpeedOf, Last, Identifies, In, FinalCsd, Limited;
    hide Accepts, Rest;
    if found.err.Ok? {
      PreparedIsForetold(found.bus, found.rca, found.sdhc);
      var data := Prepared(found.bus, found.rca, found.sdhc);
      if data.err.Ok? {
        SpedUpIsForetold(data.bus, found.rca, found.sdhc, Prepares(b.script).value.csd, data.scr, host);
      }
    }
  }
}
