/**
 sdmmc_card_init for an SD memory card in SD mode, step by step: what each of its
 functions leaves on the bus, its result, and what the driver has learnt.
 */
module SdSteps {
  import opened SdCard

  const OP_COND_MAX_RETRIES := 100
  const OP_COND_MAX_ERRORS := 3
  const FREQ_PROBING := 400
  const FREQ_DEFAULT := 20000
  const FREQ_26M := 26000
  const FREQ_HIGHSPEED := 40000
  const FREQ_52M := 52000

  // How the host is configured, and how its own two calls end.
  datatype Host = Host(width4: bool, maxFreq: nat, setBusWidth: Status, setCardClk: Status)

  // sdmmc_send_app_cmd, with the last reply.
  function AppSent(b: Bus, rca: nat, cmd: Cmd): (Bus, Status, Reply) {
    var prefix := AppCmd(rca);
    var b' := Sent(b, prefix);
    if !Verdict(b, prefix).Ok? then (b', Verdict(b, prefix), NextReply(b))
    else if !NextReply(b).appBit then (b', NotSupported, NextReply(b))
    else (Sent(b', cmd), Verdict(b', cmd), NextReply(b'))
  }

  // ---------- up to the stand-by state ----------

  // sdmmc_init_sd_if_cond.
  function IfCondErr(b: Bus): Status {
    var verdict := Verdict(b, SendIfCond);
    if verdict.Ok? && !NextReply(b).echo then InvalidResponse else if verdict.Timeout? then Ok else verdict
  }

  // The steps up to sdmmc_init_io.
  function Reset(b: Bus): (Bus, Status) {
    var b1, e1 := Sent(b, IoRwDirect), Verdict(b, IoRwDirect);
    if !e1.Ok? && !e1.Timeout? then (b1, e1)
    else
      var b2 := Sent(b1, GoIdleState);
      if !Verdict(b1, GoIdleState).Ok? then (b2, Verdict(b1, GoIdleState))
      else
        var b3 := Sent(b2, SendIfCond);
        if !IfCondErr(b2).Ok? then (b3, IfCondErr(b2)) else (Sent(b3, IoSendOpCond), Ok)
  }

  // The loop of sdmmc_send_cmd_send_op_cond, with the reply that ended it.
  function OpConds(b: Bus, mmc: bool, retries: nat, errors: nat): (Bus, Status, Reply)
    requires errors > 0
    decreases retries, b
  {
    if retries == 0 then (b, Timeout, SILENCE)
    else
      var (b', err, r) := if mmc then (Sent(b, MmcSendOpCond), Verdict(b, MmcSendOpCond), NextReply(b))
                          else AppSent(b, 0, SendOpCond);
      if !err.Ok? then if errors == 1 then (b', err, r) else OpConds(b', mmc, retries - 1, errors - 1)
      else if r.powered then (b', Ok, r)
      else OpConds(b', mmc, retries - 1, errors)
  }

  // The second attempt, as MMC.
  function AsMmc(b: Bus): (Bus, Status) {
    var (b', err, _) := OpConds(b, true, OP_COND_MAX_RETRIES, OP_COND_MAX_ERRORS);
    (b', err)
  }

  datatype Found = Found(bus: Bus, err: Status, rca: nat, sdhc: bool)

  function Identified(b: Bus): Found {
    var (b1, e1) := Reset(b);
    if !e1.Ok? then Found(b1, e1, 0, false)
    else
      var (b2, e2, r2) := OpConds(b1, false, OP_COND_MAX_RETRIES, OP_COND_MAX_ERRORS);
      if e2.Timeout? then Found(AsMmc(b2).0, AsMmc(b2).1, 0, false)
      else if !e2.Ok? then Found(b2, e2, 0, false)
      else
        var b3 := Sent(b2, AllSendCid);
        if !Verdict(b2, AllSendCid).Ok? then Found(b3, Verdict(b2, AllSendCid), 0, r2.ccs)
        else Found(Sent(b3, SendRelativeAddr), Verdict(b3, SendRelativeAddr), NextReply(b3).rca, r2.ccs)
  }

  // ---------- from there to a card that can be read ----------

  // sdmmc_send_cmd_send_csd, with the version check of sdmmc_decode_csd.
  function CsdErr(b: Bus, rca: nat): Status {
    var verdict := Verdict(b, SendCsd(rca));
    if verdict.Ok? && !NextReply(b).csd.known then NotSupported else verdict
  }

  // The capacity kept for a card.
  function Limited(csd: Csd, sdhc: bool): Csd {
    if !sdhc && csd.capacity > MaxSdscCapacity(csd.sectorSize)
    then csd.(capacity := MaxSdscCapacity(csd.sectorSize))
    else csd
  }

  // sdmmc_send_cmd_send_scr.
  function ScrRead(b: Bus, rca: nat): (Bus, Status, Scr) {
    var (b', e, r) := AppSent(b, rca, SendScr);
    (b', if e.Ok? && !r.scr.known then NotSupported else e, r.scr)
  }

  // The loop of sdmmc_init_sd_wait_data_ready.
  function Waited(b: Bus, rca: nat): (Bus, Status)
    decreases |b.script|
  {
    var b', err := Sent(b, SendStatus(rca)), Verdict(b, SendStatus(rca));
    if !err.Ok? || NextReply(b).readyForData then (b', err)
    else assert b.script != []; Waited(b', rca)
  }

  datatype Data = Data(bus: Bus, err: Status, csd: Csd, scr: Scr)

  // Behind sdmmc_init_select_card.
  function Configured(b: Bus, rca: nat, sdhc: bool, csd: Csd): Data {
    var b1 := if sdhc then b else Sent(b, SetBlocklen(csd.sectorSize));
    var e1 := if sdhc then Ok else Verdict(b, SetBlocklen(csd.sectorSize));
    if !e1.Ok? then Data(b1, e1, csd, SILENCE.scr)
    else
      var (b2, e2, scr) := ScrRead(b1, rca);
      if !e2.Ok? then Data(b2, e2, csd, scr) else Data(Waited(b2, rca).0, Waited(b2, rca).1, csd, scr)
  }

  function Prepared(b: Bus, rca: nat, sdhc: bool): Data {
    var b1, csd := Sent(b, SendCsd(rca)), Limited(NextReply(b).csd, sdhc);
    if !CsdErr(b, rca).Ok? then Data(b1, CsdErr(b, rca), csd, SILENCE.scr)
    else
      var b2 := Sent(b1, SelectCard(rca));
      if !Verdict(b1, SelectCard(rca)).Ok? then Data(b2, Verdict(b1, SelectCard(rca)), csd, SILENCE.scr)
      else Configured(b2, rca, sdhc, csd)
  }

  // ---------- high speed ----------

  // sdmmc_send_cmd_switch_func.
  function Switched(b: Bus, scr: Scr, csd: Csd, mode: nat): (Bus, Status) {
    var err, r := Verdict(b, SwitchFunc(mode)), NextReply(b);
    if !scr.spec110 || !csd.switchClass then (b, NotSupported)
    else (Sent(b, SwitchFunc(mode)),
          if !err.Ok? then err
          else if r.switch.version > 1 then InvalidResponse
          else if r.switch.version == 1 && r.switch.busy then InvalidState
          else Ok)
  }

  // sdmmc_enable_hs_mode.
  function HsEnabled(b: Bus, scr: Scr, csd: Csd): (Bus, Status) {
    var (b', err) := Switched(b, scr, csd, 0);
    if !err.Ok? then (b', err)
    else if !NextReply(b).switch.sdr25 then (b', NotSupported)
    else Switched(b', scr, csd, 1)
  }

  // The card deselected, its CSD read, and selected again, with the CSD the driver
  // then has.
  function Reread(b: Bus, rca: nat, csd: Csd): (Bus, Status, Csd) {
    var b1 := Sent(b, SelectCard(0));
    if !Verdict(b, SelectCard(0)).Ok? then (b1, Verdict(b, SelectCard(0)), csd)
    else
      var b2 := Sent(b1, SendCsd(rca));
      if !CsdErr(b1, rca).Ok? then (b2, CsdErr(b1, rca), csd)
      else (Sent(b2, SelectCard(rca)), Verdict(b2, SelectCard(rca)), NextReply(b1).csd)
  }

  // sdmmc_enable_hs_mode_and_check.
  function HsChecked(b: Bus, rca: nat, scr: Scr, csd: Csd, hostMax: nat): (Bus, Status, Csd) {
    if hostMax <= FREQ_DEFAULT then (b, Ok, csd)
    else
      var (b1, e1) := HsEnabled(b, scr, csd);
      if !e1.Ok? then (b1, e1, csd)
      else
        var (b2, e2, csd2) := Reread(b1, rca, csd);
        (b2, if e2.Ok? && !csd2.speed50 then NotSupported else e2, csd2)
  }

  // The highest of the frequencies a host can be set to that is not above f.
  function Selectable(f: nat): (r: nat)
    ensures r == FREQ_PROBING || r <= f
    ensures r in [400, 20000, 26000, 40000, 52000]
    ensures forall h | h in [20000, 26000, 40000, 52000] && h <= f :: h <= r
  {
    if f >= FREQ_52M then FREQ_52M
    else if f >= FREQ_HIGHSPEED then FREQ_HIGHSPEED
    else if f >= FREQ_26M then FREQ_26M
    else if f >= FREQ_DEFAULT then FREQ_DEFAULT
    else FREQ_PROBING
  }

  // Behind sdmmc_init_card_hs_mode.
  function Finished(b: Bus, rca: nat, scr: Scr, maxFreq: nat, host: Host): (Bus, Err) {
    var four := scr.bus4 && host.width4;
    var (b1, e1, _) := AppSent(b, rca, SetBusWidth(if four then 4 else 1));
    if !e1.Ok? then (b1, e1)
    else if four && !host.setBusWidth.Ok? then (b1, host.setBusWidth)
    else if maxFreq > host.maxFreq then (b1, AssertFailed)
    else if Selectable(maxFreq) > FREQ_PROBING && !host.setCardClk.Ok? then (b1, host.setCardClk)
    else
      var (b2, e2, again) := ScrRead(b1, rca);
      (b2, if e2.Ok? && again != scr then InvalidResponse else e2)
  }

  function SpedUp(b: Bus, rca: nat, csd: Csd, scr: Scr, host: Host): (Bus, Err, Csd) {
    var (b1, e1, csd1) := HsChecked(b, rca, scr, csd, host.maxFreq);
    var maxFreq := if host.maxFreq <= FREQ_DEFAULT then host.maxFreq
                   else if e1.Ok? then FREQ_HIGHSPEED else FREQ_DEFAULT;
    if !e1.Ok? && !e1.NotSupported? then (b1, e1, csd1)
    else
      var (b2, e2) := Finished(b1, rca, scr, maxFreq, host);
      (b2, e2, csd1)
  }

  // ---------- all of it ----------

  datatype Init = Init(bus: Bus, err: Err, sdhc: bool, csd: Csd)

  function CardInited(b: Bus, host: Host): Init {
    var found := Identified(b);
    if !found.err.Ok? then Init(found.bus, found.err, found.sdhc, SILENCE.csd)
    else
      var data := Prepared(found.bus, found.rca, found.sdhc);
      if !data.err.Ok? then Init(data.bus, data.err, found.sdhc, data.csd)
      else
        var (bus, err, csd) := SpedUp(data.bus, found.rca, data.csd, data.scr, host);
        Init(bus, err, found.sdhc, csd)
  }
}
