/**
 sdmmc_card_init for an SD memory card in SD mode: the driver's side of the card
 identification protocol, checked against the card's state diagram.
 */
module SdInit {
  import opened Prelude
  import opened Buffers
  import opened SdCard
  import opened SdSteps
  import opened SdScripts

  class Driver {
    const host: Host
    var bus: Bus
    var rca: nat
    var sdhc: bool
    var isMmc: bool
    var isMem: bool
    var logBusWidth: nat
    var maxFreq: nat
    var csd: Csd
    var scr: Scr
    // What the host itself is set to.
    var hostWidth: nat
    var hostClock: nat

    constructor (host: Host, bus: Bus)
      ensures this.host == host && this.bus == bus
      ensures rca == 0 && !isMmc && hostWidth == 1 && hostClock == FREQ_PROBING
    {
      hostWidth, hostClock := 1, FREQ_PROBING;
      this.host, this.bus := host, bus;
      rca, sdhc, isMmc, isMem := 0, false, false, false;
      logBusWidth, maxFreq := 0, 0;
      csd, scr := Csd(false, false, false, 512, 0), Scr(false, false, false);
    }

    // ---------- commands ----------

    // sdmmc_send_cmd.
    method Send(cmd: Cmd) returns (err: Status, r: Reply)
      modifies `bus
      ensures bus == Sent(old(bus), cmd)
      ensures err == Verdict(old(bus), cmd) && r == NextReply(old(bus))
    {
      err, r := Verdict(bus, cmd), NextReply(bus);
      bus := Sent(bus, cmd);
    }

    // sdmmc_send_app_cmd.
    method SendApp(cmd: Cmd) returns (err: Status, r: Reply)
      modifies `bus
      ensures (bus, err, r) == AppSent(old(bus), rca, cmd)
    {
      err, r := Send(AppCmd(rca));
      if !err.Ok? {
        return;
      }
      if !r.appBit {
        err := NotSupported;
        return;
      }
      err, r := Send(cmd);
    }

    // ---------- up to the card identification ----------

    // sdmmc_io_reset; a memory card does not answer.
    method IoReset() returns (err: Status)
      modifies `bus
      ensures bus == Sent(old(bus), IoRwDirect)
      ensures err == if Verdict(old(bus), IoRwDirect).Timeout? then Ok else Verdict(old(bus), IoRwDirect)
    {
      var r;
      err, r := Send(IoRwDirect);
      if err.Timeout? {
        err := Ok;
      }
    }

    method GoIdle() returns (err: Status)
      modifies `bus
      ensures bus == Sent(old(bus), GoIdleState) && err == Verdict(old(bus), GoIdleState)
      ensures err.Ok? ==> bus.card == Card(Idle, false, 0, 1, false, 512)
    {
      var r;
      err, r := Send(GoIdleState);
    }

    // sdmmc_init_sd_if_cond.
    method InitIfCond() returns (err: Status)
      modifies `bus, `sdhc
      ensures bus == Sent(old(bus), SendIfCond)
      ensures err == IfCondErr(old(bus))
      ensures err.Ok? ==> sdhc == Verdict(old(bus), SendIfCond).Ok?
    {
      var r;
      err, r := Send(SendIfCond);
      if err.Ok? && !r.echo {
        err := InvalidResponse;
      }
      if err.Ok? {
        sdhc := true;
      } else if err.Timeout? {
        sdhc, err := false, Ok;
      }
    }

    // sdmmc_init_io: no answer to IO_SEND_OP_COND makes it a memory card.
    method InitIo() returns (err: Status)
      modifies `bus, `isMem
      ensures bus == Sent(old(bus), IoSendOpCond)
      ensures bus.card == old(bus).card && isMem && err.Ok?
    {
      var e, r := Send(IoSendOpCond);
      isMem := !e.Ok?;
      err := Ok;
    }

    // sdmmc_send_cmd_send_op_cond.
    method SendOpCondUntilReady() returns (err: Status)
      requires rca == 0 && (!isMmc ==> bus.card.state.Idle? && bus.card.rca == 0 && !bus.seen.illegal)
      modifies `bus, `sdhc
      ensures var (b, e, r) := OpConds(old(bus), isMmc, OP_COND_MAX_RETRIES, OP_COND_MAX_ERRORS);
              (bus, err) == (b, e) && (e.Ok? ==> sdhc == r.ccs)
      ensures err.Ok? ==> !isMmc && In(bus.card, Ready, 0) && !bus.seen.illegal
      ensures bus.seen.illegal ==
              if isMmc then old(bus).seen.illegal
              else Poll(old(bus).script, OP_COND_MAX_RETRIES, OP_COND_MAX_ERRORS) == GaveUp(true)
    {
      hide Sent, Verdict, AppSent, In, Poll, OpConds;
      if isMmc {
        NotAsMmc(bus, OP_COND_MAX_RETRIES, OP_COND_MAX_ERRORS);
      } else {
        PollIsForetold(bus, OP_COND_MAX_RETRIES, OP_COND_MAX_ERRORS);
      }
      var retries, errors := OP_COND_MAX_RETRIES, OP_COND_MAX_ERRORS;
      while retries != 0
        invariant retries >= 0 && errors > 0
        invariant OpConds(old(bus), isMmc, OP_COND_MAX_RETRIES, OP_COND_MAX_ERRORS)
               == OpConds(bus, isMmc, retries, errors)
      {
        var r;
        OneRound(bus, isMmc, retries, errors);
        if !isMmc {
          err, r := SendApp(SendOpCond);
        } else {
          err, r := Send(MmcSendOpCond);
        }
        if !err.Ok? {
          errors := errors - 1;
          if errors == 0 {
            return;
          }
        } else if r.powered {
          sdhc := r.ccs;
          return;
        }
        retries := retries - 1;
      }
      NoRound(bus, isMmc, errors);
      err := Timeout;
    }

    // sdmmc_init_ocr.
    method InitOcr() returns (err: Status)
      requires rca == 0 && !isMmc && bus.card.state.Idle? && bus.card.rca == 0 && !bus.seen.illegal
      modifies `bus, `sdhc, `isMmc
      ensures var (b, e, r) := OpConds(old(bus), false, OP_COND_MAX_RETRIES, OP_COND_MAX_ERRORS);
              if e.Timeout? then isMmc && (bus, err) == AsMmc(b)
              else !isMmc && (bus, err) == (b, e) && (e.Ok? ==> sdhc == r.ccs)
      ensures err.Ok? ==> !isMmc && In(bus.card, Ready, 0) && !bus.seen.illegal
      ensures bus.seen.illegal == (Poll(old(bus).script, OP_COND_MAX_RETRIES, OP_COND_MAX_ERRORS) == GaveUp(true))
    {
      hide OpConds, Poll;
      err := SendOpCondUntilReady();
      if err.Timeout? {
        isMmc := true;
        err := SendOpCondUntilReady();
      }
    }

    // ---------- identification ----------

    // sdmmc_init_cid.
    method InitCid() returns (err: Status)
      modifies `bus
      ensures bus == Sent(old(bus), AllSendCid) && err == Verdict(old(bus), AllSendCid)
      ensures err.Ok? ==> old(bus).card.state.Ready? && bus.card.state.Ident?
    {
      var r;
      err, r := Send(AllSendCid);
    }

    // sdmmc_init_rca.
    method InitRca() returns (err: Status)
      modifies `bus, `rca
      ensures bus == Sent(old(bus), SendRelativeAddr) && err == Verdict(old(bus), SendRelativeAddr)
      ensures err.Ok? ==> rca > 0 && In(bus.card, Stby, rca) && rca == NextReply(old(bus)).rca
    {
      var r;
      err, r := Send(SendRelativeAddr);
      if err.Ok? {
        rca := r.rca;
      }
    }

    // sdmmc_send_cmd_send_csd.
    method ReadCsd() returns (err: Status)
      modifies `bus, `csd
      ensures bus == Sent(old(bus), SendCsd(rca)) && err == CsdErr(old(bus), rca)
      ensures csd == if err.Ok? then NextReply(old(bus)).csd else old(csd)
    {
      var r;
      err, r := Send(SendCsd(rca));
      if err.Ok? {
        if r.csd.known {
          csd := r.csd;
        } else {
          err := NotSupported;
        }
      }
    }

    // sdmmc_init_csd.
    method InitCsd() returns (err: Status)
      modifies `bus, `csd
      ensures bus == Sent(old(bus), SendCsd(rca)) && err == CsdErr(old(bus), rca)
      ensures err.Ok? ==> csd == Limited(NextReply(old(bus)).csd, sdhc)
      ensures err.Ok? && !sdhc ==> csd.capacity <= MaxSdscCapacity(csd.sectorSize)
    {
      err := ReadCsd();
      if err.Ok? {
        var limit := MaxSdscCapacity(csd.sectorSize);
        if !sdhc && csd.capacity > limit {
          csd := csd.(capacity := limit);
        }
      }
    }

    // sdmmc_init_select_card.
    method Select() returns (err: Status)
      modifies `bus
      ensures bus == Sent(old(bus), SelectCard(rca)) && err == Verdict(old(bus), SelectCard(rca))
      ensures In(old(bus).card, Stby, rca) ==> In(bus.card, Tran, rca) || (!err.Ok? && In(bus.card, Stby, rca))
    {
      var r;
      err, r := Send(SelectCard(rca));
    }

    // ---------- data transfer mode ----------

    // sdmmc_init_sd_blocklen.
    method InitBlocklen() returns (err: Status)
      modifies `bus
      ensures if sdhc then bus == old(bus) && err.Ok?
              else bus == Sent(old(bus), SetBlocklen(csd.sectorSize))
                   && err == Verdict(old(bus), SetBlocklen(csd.sectorSize))
      ensures err.Ok? && !sdhc ==> bus.card.blockLen == csd.sectorSize
    {
      err := Ok;
      if !sdhc {
        var r;
        err, r := Send(SetBlocklen(csd.sectorSize));
      }
    }

    // sdmmc_send_cmd_send_scr.
    method ReadScr() returns (err: Status, found: Scr)
      modifies `bus
      ensures var (b, e, read) := ScrRead(old(bus), rca);
              bus == b && err == e && found == if e.Ok? then read else scr
    {
      hide AppSent;
      var r;
      err, r := SendApp(SendScr);
      found := scr;
      if err.Ok? {
        if r.scr.known {
          found := r.scr;
        } else {
          err := NotSupported;
        }
      }
    }

    // sdmmc_init_sd_scr.
    method InitScr() returns (err: Status)
      modifies `bus, `scr, `logBusWidth
      ensures var (b, e, read) := ScrRead(old(bus), rca);
              && bus == b && err == e
              && (e.Ok? ==> scr == read && logBusWidth == if scr.bus4 && host.width4 then 2 else 0)
    {
      err, scr := ReadScr();
      if err.Ok? {
        logBusWidth := if scr.bus4 && host.width4 then 2 else 0;
      }
    }

    // sdmmc_init_sd_wait_data_ready; the host gives up when nothing more comes.
    method WaitDataReady() returns (err: Status)
      modifies `bus
      ensures (bus, err) == Waited(old(bus), rca)
      ensures Selected(old(bus), rca) ==>
                !bus.seen.illegal && (err.Ok? ==> bus.seen.ready && bus.card == old(bus).card)
    {
      hide Sent, Verdict, WaitEnd;
      if Selected(bus, rca) {
        WaitIsForetold(bus, rca);
      }
      err := Ok;
      var ready := false;
      while !ready
        invariant if ready then err.Ok? && Waited(old(bus), rca) == (bus, Ok)
                  else Waited(old(bus), rca) == Waited(bus, rca)
        decreases !ready, |bus.script|
      {
        var r;
        OneLess(bus, SendStatus(rca));
        err, r := Send(SendStatus(rca));
        if !err.Ok? {
          return;
        }
        ready := r.readyForData;
      }
    }

    // ---------- high speed ----------

    // sdmmc_send_cmd_switch_func.
    method SendSwitchFunc(mode: nat) returns (err: Status, r: Reply)
      modifies `bus
      ensures (bus, err) == Switched(old(bus), scr, csd, mode) && r == NextReply(old(bus))
    {
      r := NextReply(bus);
      if !scr.spec110 || !csd.switchClass {
        return NotSupported, r;
      }
      err, r := Send(SwitchFunc(mode));
      if err.Ok? {
        if r.switch.version == 1 {
          if r.switch.busy {
            err := InvalidState;
          }
        } else if r.switch.version != 0 {
          err := InvalidResponse;
        }
      }
    }

    // sdmmc_enable_hs_mode.
    method EnableHsMode() returns (err: Status)
      modifies `bus
      ensures (bus, err) == HsEnabled(old(bus), scr, csd)
    {
      if !scr.spec110 || !csd.switchClass {
        return NotSupported;
      }
      hide Sent, Verdict;
      var r;
      err, r := SendSwitchFunc(0);
      if !err.Ok? {
        return;
      }
      if !r.switch.sdr25 {
        return NotSupported;
      }
      err, r := SendSwitchFunc(1);
    }

    // The card is deselected, its CSD read again, and it is selected again.
    method RereadCsd() returns (err: Status)
      modifies `bus, `csd
      ensures (bus, err, csd) == Reread(old(bus), rca, old(csd))
      ensures Selected(old(bus), rca) ==>
                && !bus.seen.illegal && (In(bus.card, Tran, rca) || (In(bus.card, Stby, rca) && !err.Ok?))
                && (csd == old(csd) || csd == First(Rest(old(bus).script)).csd)
    {
      hide Sent, Verdict, Rest, In;
      if Selected(bus, rca) {
        RereadIsSafe(bus, rca, csd);
      }
      var r;
      err, r := Send(SelectCard(0));
      if !err.Ok? {
        return;
      }
      err := ReadCsd();
      if !err.Ok? {
        return;
      }
      err := Select();
    }

    // What the replies make of the high speed mode.
    ghost function Found(s: seq<Reply>, csd: Csd): Speed
      reads this
    {
      SpeedOf(s, scr, csd.switchClass, host.maxFreq)
    }

    // sdmmc_enable_hs_mode_and_check.
    method EnableHsModeAndCheck() returns (err: Status)
      requires Selected(bus, rca)
      modifies `bus, `csd, `maxFreq
      ensures (bus, err, csd) == HsChecked(old(bus), rca, scr, old(csd), host.maxFreq)
      ensures host.maxFreq <= FREQ_DEFAULT ==> err.Ok? && maxFreq == host.maxFreq
      ensures host.maxFreq > FREQ_DEFAULT ==> maxFreq == if err.Ok? then FREQ_HIGHSPEED else FREQ_DEFAULT
      ensures Agree(Found(old(bus).script, old(csd)), bus,
                    if host.maxFreq <= FREQ_DEFAULT then NotSupported else err, csd, old(csd), rca)
    {
      hide HsEnabled, Reread, Sent, Verdict, First, SpeedOf, Agree;
      HsIsForetold(bus, rca, scr, csd, host.maxFreq);
      maxFreq := FREQ_DEFAULT;
      if host.maxFreq <= maxFreq {
        maxFreq := host.maxFreq;
        return Ok;
      }
      err := EnableHsMode();
      if !err.Ok? {
        return;
      }
      err := RereadCsd();
      if !err.Ok? {
        return;
      }
      if !csd.speed50 {
        return NotSupported;
      }
      maxFreq := FREQ_HIGHSPEED;
    }

    // sdmmc_init_card_hs_mode.
    method InitHsMode() returns (err: Status)
      requires Selected(bus, rca)
      modifies `bus, `csd, `maxFreq
      ensures var (b, e, c) := HsChecked(old(bus), rca, scr, old(csd), host.maxFreq);
              && bus == b && csd == c && err == (if e.NotSupported? then Ok else e)
              && (err.Ok? ==> maxFreq == if host.maxFreq <= FREQ_DEFAULT then host.maxFreq
                                         else if e.Ok? then FREQ_HIGHSPEED else FREQ_DEFAULT)
      ensures var found := Found(old(bus).script, old(csd));
              && !bus.seen.illegal && (err.Ok? <==> !found.Failed?)
              && (found.High? ==> maxFreq == FREQ_HIGHSPEED && bus.card.fast && In(bus.card, Tran, rca))
              && (found.Default? ==> && maxFreq == Min(host.maxFreq, FREQ_DEFAULT)
                                     && In(bus.card, if found.selected then Tran else Stby, rca))
    {
      hide HsChecked, SpeedOf;
      err := EnableHsModeAndCheck();
      if err.NotSupported? {
        maxFreq := FREQ_DEFAULT;
        err := Ok;
      }
    }

    // sdmmc_init_sd_bus_width.
    method InitBusWidth() returns (err: Status)
      requires rca > 0 && !bus.seen.illegal && (In(bus.card, Tran, rca) || In(bus.card, Stby, rca))
      modifies `bus
      ensures var (b, e, _) := AppSent(old(bus), rca, SetBusWidth(if logBusWidth == 2 then 4 else 1));
              bus == b && err == e
      ensures err.Ok? ==> && Selected(old(bus), rca) && Selected(bus, rca)
                          && bus.card.width == (if logBusWidth == 2 then 4 else 1)
                          && bus.card.fast == old(bus).card.fast
      ensures bus.seen.illegal <==> old(bus).card.state.Stby? && Accepts(First(old(bus).script))
    {
      var width := if logBusWidth == 2 then 4 else 1;
      if bus.card.state.Tran? {
        WidthOfSelected(bus, rca, width);
      } else {
        WidthOfDeselected(bus, rca, width);
      }
      hide AppSent;
      var r;
      err, r := SendApp(SetBusWidth(width));
    }

    // sdmmc_init_host_bus_width.
    method InitHostBusWidth() returns (err: Status)
      modifies `hostWidth
      ensures var four := host.width4 && logBusWidth == 2;
              && err == (if four then host.setBusWidth else Ok)
              && hostWidth == if four && err.Ok? then 4 else old(hostWidth)
    {
      err := Ok;
      var width := if host.width4 && logBusWidth == 2 then 4 else 1;
      if width > 1 {
        err := host.setBusWidth;
        if err.Ok? {
          hostWidth := width;
        }
      }
    }

    // sdmmc_init_host_frequency, whose assertion is made a result.
    method InitHostFrequency() returns (err: Err)
      modifies `hostClock
      ensures err == if maxFreq > host.maxFreq then AssertFailed
                     else if Selectable(maxFreq) > FREQ_PROBING then host.setCardClk else Ok
      ensures hostClock == if err.Ok? && Selectable(maxFreq) > FREQ_PROBING then Selectable(maxFreq) else old(hostClock)
    {
      if maxFreq > host.maxFreq {
        return AssertFailed;
      }
      var values := [FREQ_52M, FREQ_HIGHSPEED, FREQ_26M, FREQ_DEFAULT];
      var selected, i := FREQ_PROBING, 0;
      while i < |values|
        invariant i <= |values| && selected == FREQ_PROBING
        invariant (i > 0 ==> maxFreq < FREQ_52M) && (i > 1 ==> maxFreq < FREQ_HIGHSPEED)
        invariant (i > 2 ==> maxFreq < FREQ_26M) && (i > 3 ==> maxFreq < FREQ_DEFAULT)
      {
        if maxFreq >= values[i] {
          selected := values[i];
          break;
        }
        i := i + 1;
      }
      assert selected == Selectable(maxFreq);
      err := Ok;
      if selected > FREQ_PROBING {
        err := host.setCardClk;
        if err.Ok? {
          hostClock := selected;
        }
      }
    }

    // sdmmc_check_scr.
    method CheckScr() returns (err: Status)
      modifies `bus
      ensures var (b, e, again) := ScrRead(old(bus), rca);
              bus == b && err == if e.Ok? && again != scr then InvalidResponse else e
    {
      var again;
      err, again := ReadScr();
      if err.Ok? && again != scr {
        err := InvalidResponse;
      }
    }

    // ---------- all of it ----------

    // Up to the idle state.
    method ToIdle() returns (err: Status)
      modifies `bus, `sdhc, `isMem
      ensures (bus, err) == Reset(old(bus))
      ensures !old(bus).seen.illegal ==> !bus.seen.illegal
      ensures err.Ok? <==> Resets(old(bus).script)
      ensures err.Ok? ==> bus.script == BehindReset(old(bus).script) && bus.card == Card(Idle, false, 0, 1, false, 512)
    {
      hide Sent, Verdict, NextReply, IfCondErr, Resets, BehindReset;
      ResetIsForetold(bus);
      err := IoReset();
      if !err.Ok? { return; }
      err := GoIdle();
      if !err.Ok? { return; }
      err := InitIfCond();
      if !err.Ok? { return; }
      err := InitIo();
    }

    // Up to the stand-by state.
    method Identify() returns (err: Status)
      requires bus.seen == NOTHING && !isMmc && rca == 0
      modifies `bus, `rca, `sdhc, `isMmc, `isMem
      ensures var found := Identified(old(bus));
              bus == found.bus && err == found.err && (err.Ok? ==> rca == found.rca && sdhc == found.sdhc)
      ensures bus.seen.illegal <==> Loses(old(bus).script)
      ensures err.Ok? <==> Asked(old(bus).script).Powered? && Identifies(Asked(old(bus).script).rest)
      ensures err.Ok? ==> rca > 0 && In(bus.card, Stby, rca) && !bus.seen.illegal
    {
      hide Sent, Verdict, OpConds, AsMmc, Reset, Resets, BehindReset, Loses, Asked, Identifies, Poll, In;
      IdentifiedIsForetold(bus);
      LosesNoPower(bus.script);
      err := ToIdle();
      if !err.Ok? { return; }
      err := InitOcr();
      if !err.Ok? { return; }
      err := InitCid();
      if !err.Ok? { return; }
      err := InitRca();
    }

    // Block length, SCR and the wait for the card.
    method Configure() returns (err: Status)
      modifies `bus, `scr, `logBusWidth
      ensures var data := Configured(old(bus), rca, sdhc, csd);
              bus == data.bus && err == data.err && (err.Ok? ==> csd == data.csd && scr == data.scr)
      ensures err.Ok? ==> logBusWidth == if scr.bus4 && host.width4 then 2 else 0
    {
      hide ScrRead, Waited, Sent, Verdict, Selected;
      err := InitBlocklen();
      if !err.Ok? { return; }
      err := InitScr();
      if !err.Ok? { return; }
      err := WaitDataReady();
    }

    // From there to a card that can be read.
    method Prepare() returns (err: Status)
      requires rca > 0 && In(bus.card, Stby, rca) && !bus.seen.illegal
      modifies `bus, `csd, `scr, `logBusWidth
      ensures var data := Prepared(old(bus), rca, sdhc);
              bus == data.bus && err == data.err && (err.Ok? ==> csd == data.csd && scr == data.scr)
      ensures !bus.seen.illegal && (err.Ok? <==> SetUp(old(bus).script, sdhc).Some?)
      ensures err.Ok? ==> Selected(bus, rca) && (!sdhc ==> csd.capacity <= MaxSdscCapacity(csd.sectorSize))
      ensures err.Ok? ==> logBusWidth == (if scr.bus4 && host.width4 then 2 else 0) && bus.seen.ready
      ensures err.Ok? && !sdhc ==> bus.card.blockLen == csd.sectorSize
    {
      hide MaxSdscCapacity, Sent, Verdict, Limited, NextReply, CsdErr, SetUp, In, Selected, Configured;
      PreparedIsForetold(bus, rca, sdhc);
      err := InitCsd();
      if !err.Ok? { return; }
      err := Select();
      if !err.Ok? { return; }
      err := Configure();
    }

    // The rest of it: bus width, host and check.
    method Finish() returns (err: Err)
      requires rca > 0 && !bus.seen.illegal && (In(bus.card, Tran, rca) || In(bus.card, Stby, rca))
      requires logBusWidth == (if scr.bus4 && host.width4 then 2 else 0) && hostWidth == 1 && hostClock == FREQ_PROBING
      modifies `bus, `hostWidth, `hostClock
      ensures (bus, err) == Finished(old(bus), rca, scr, maxFreq, host)
      ensures bus.seen.illegal <==> old(bus).card.state.Stby? && Accepts(First(old(bus).script))
      ensures err.Ok? ==> && Selected(bus, rca) && bus.card.fast == old(bus).card.fast
                          && bus.card.width == hostWidth == (if scr.bus4 && host.width4 then 4 else 1)
                          && hostClock == Selectable(maxFreq) && maxFreq <= host.maxFreq
    {
      hide AppSent, ScrRead, Legal, Sent, End, In, First;
      if Selected(bus, rca) {
        FinishedIsForetold(bus, rca, scr, maxFreq, host, Up(sdhc, csd, None));
      }
      err := InitBusWidth();
      if !err.Ok? { return; }
      err := InitHostBusWidth();
      if !err.Ok? { return; }
      err := InitHostFrequency();
      if !err.Ok? { return; }
      err := CheckScr();
    }

    // Card and host agree: on the number of data lines, which is four exactly when
    // both can, and on the clock, which is neither more than the host's limit nor more
    // than the standard allows the card in its mode.
    ghost predicate Matched()
      reads this
    {
      && bus.card.width == hostWidth == (if scr.bus4 && host.width4 then 4 else 1)
      && (hostClock == FREQ_PROBING || hostClock <= host.maxFreq)
      && hostClock <= if bus.card.fast then 50000 else 25000
    }

    // High speed and bus width, and a last check.
    method SpeedUp() returns (err: Err)
      requires Selected(bus, rca)
      requires logBusWidth == (if scr.bus4 && host.width4 then 2 else 0) && hostWidth == 1 && hostClock == FREQ_PROBING
      modifies `bus, `csd, `maxFreq, `hostWidth, `hostClock
      ensures (bus, err, csd) == SpedUp(old(bus), rca, old(csd), scr, host)
      ensures err.Ok? ==> Selected(bus, rca) && Matched()
      ensures var found := Found(old(bus).script, old(csd));
              bus.seen.illegal <==> found.Default? && !found.selected && Accepts(First(found.rest))
    {
      hide HsChecked, Finished, SpeedOf, First, Accepts;
      HsIsForetold(bus, rca, scr, csd, host.maxFreq);
      err := InitHsMode();
      if !err.Ok? { return; }
      err := Finish();
    }

    // sdmmc_card_init: against every script of answers the outcome is the one foretold
    // from the answers and the host; a success leaves the card in the transfer state,
    // matched with the host, without an illegal command.
    method CardInit() returns (err: Err)
      requires bus.seen == NOTHING && !isMmc && rca == 0 && hostWidth == 1 && hostClock == FREQ_PROBING
      modifies this
      ensures bus == CardInited(old(bus), host).bus && err == CardInited(old(bus), host).err
      ensures bus.seen.illegal <==> Loses(old(bus).script) || Strands(old(bus).script, host)
      ensures err.Ok? ==> Selected(bus, rca) && Matched()
      ensures var o := Foretold(old(bus).script, host);
              && (err.Ok? <==> o.Up?) && (err.AssertFailed? <==> o.Asserted?)
              && (err.Ok? ==> sdhc == o.sdhc && csd == FinalCsd(o))
    {
      hide MaxSdscCapacity, Identified, Prepared, SpedUp, Foretold, Loses, Strands, Asked, SetUp, Identifies, SpeedOf;
      hide First, Limited, FinalCsd, In, Selected, Matched, Accepts;
      ghost var was := bus;
      err := Identify();
      if err.Ok? {
        err := Prepare();
        if err.Ok? {
          err := SpeedUp();
        }
      }
      assert CardInited(was, host).bus == bus;
      CardInitIsForetold(was, host);
    }
  }
}
