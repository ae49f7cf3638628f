/**
 An SD memory card in SD mode as the host sees it: the state diagrams of card
 identification and data transfer (sections 4.2, 4.3 and table 4-35 in section 4.8
 of the SD Physical Layer Simplified Specification), and a bus on which answers can
 get lost.
 */
module SdCard {

  // A data transfer is over when its command returns, so that the sending-data
  // state never shows.
  datatype State = Idle | Ready | Ident | Stby | Tran

  // app: the last command was APP_CMD.  The address is 0 until one is published.
  // width, fast, blockLen: how many data lines the card uses, whether it was switched
  // to high speed, and the block length it was given.
  datatype Card = Card(state: State, app: bool, rca: nat, width: nat, fast: bool, blockLen: nat)

  predicate In(c: Card, state: State, rca: nat) {
    c.state == state && !c.app && c.rca == rca
  }

  datatype Err =
    | Ok | Timeout | NotSupported | InvalidResponse | InvalidState | NotFound
    | AssertFailed
    | HostError(code: nat)

  // What a transaction or a call of the host can end with.
  type Status = e: Err | !e.AssertFailed? witness Ok

  datatype Cmd =
    | GoIdleState | SendIfCond | AppCmd(rca: nat) | AllSendCid | SendRelativeAddr
    | SendCsd(rca: nat) | SelectCard(rca: nat) | SetBlocklen(len: nat) | SendStatus(rca: nat)
    | SwitchFunc(mode: nat)
    // only behind APP_CMD
    | SendOpCond | SetBusWidth(width: nat) | SendScr
    // of other kinds of cards
    | IoRwDirect | IoSendOpCond | MmcSendOpCond

  type Sector = x: nat | 0 < x <= 512 witness 512
  type Rca = x: nat | 0 < x < 0x1_0000 witness 1

  datatype Csd = Csd(known: bool, speed50: bool, switchClass: bool, sectorSize: Sector, capacity: nat)
  datatype Scr = Scr(known: bool, spec110: bool, bus4: bool)
  datatype Switch = Switch(version: nat, busy: bool, sdr25: bool)

  // How one transaction goes: the host's verdict; whether the card carried the
  // command out when that is an error; and what the card has to say, of which each
  // command uses its own part.
  datatype Reply = Reply(
    err: Status, executed: bool,
    powered: bool, ccs: bool, appBit: bool, echo: bool, readyForData: bool,
    rca: Rca, csd: Csd, scr: Scr, switch: Switch)

  predicate Foreign(cmd: Cmd) {
    cmd.IoRwDirect? || cmd.IoSendOpCond? || cmd.MmcSendOpCond?
  }

  // Table 4-35: the commands the card takes in its present state.  All others it
  // neither answers nor carries out.
  predicate Legal(c: Card, cmd: Cmd) {
    match cmd
    case GoIdleState => true
    case SendIfCond => c.state.Idle?
    case AppCmd(rca) => (c.state.Idle? || c.state.Stby? || c.state.Tran?) && rca == c.rca
    case SendOpCond => c.app && c.state.Idle?
    case AllSendCid => c.state.Ready?
    case SendRelativeAddr => c.state.Ident? || c.state.Stby?
    case SendCsd(rca) => c.state.Stby? && rca == c.rca
    case SelectCard(rca) => c.state.Stby? || (c.state.Tran? && rca != c.rca)
    case SendStatus(rca) => (c.state.Stby? || c.state.Tran?) && rca == c.rca
    case SetBlocklen(_) => c.state.Tran?
    case SwitchFunc(_) => !c.app && c.state.Tran?
    case SetBusWidth(_) => c.app && c.state.Tran?
    case SendScr => c.app && c.state.Tran?
    case _ => false
  }

  // The table by its columns: all that a card takes in each of its states.
  lemma LegalInState(c: Card, cmd: Cmd)
    ensures Legal(c, cmd) <==>
            match c.state
            case Idle =>
              || cmd.GoIdleState? || cmd.SendIfCond? || cmd == AppCmd(c.rca)
              || (c.app && cmd.SendOpCond?)
            case Ready => cmd.GoIdleState? || cmd.AllSendCid?
            case Ident => cmd.GoIdleState? || cmd.SendRelativeAddr?
            case Stby =>
              || cmd.GoIdleState? || cmd.SendRelativeAddr? || cmd.SelectCard?
              || cmd == AppCmd(c.rca) || cmd == SendCsd(c.rca) || cmd == SendStatus(c.rca)
            case Tran =>
              || cmd.GoIdleState? || cmd.SetBlocklen? || (cmd.SelectCard? && cmd != SelectCard(c.rca))
              || cmd == AppCmd(c.rca) || cmd == SendStatus(c.rca)
              || if c.app then cmd.SetBusWidth? || cmd.SendScr? else cmd.SwitchFunc?
  {
  }

  function Executed(c: Card, cmd: Cmd, r: Reply): Card {
    match cmd
    case GoIdleState => Card(Idle, false, 0, 1, false, 512)
    case AppCmd(_) => c.(app := true)
    case SendOpCond => c.(app := false, state := if r.powered then Ready else Idle)
    case AllSendCid => c.(app := false, state := Ident)
    case SendRelativeAddr => c.(app := false, state := Stby, rca := r.rca)
    case SelectCard(rca) => c.(app := false, state := if rca == c.rca then Tran else Stby)
    case SetBlocklen(len) => c.(app := false, blockLen := len)
    case SetBusWidth(width) => c.(app := false, width := width)
    case SwitchFunc(mode) =>
      var done := r.switch.version == 0 || (r.switch.version == 1 && !r.switch.busy);
      c.(fast := c.fast || (mode == 1 && done))
    case _ => c.(app := false)
  }

  // ---------- the bus, watched ----------

  // illegal: the card was sent one of its own commands in a state that excludes it.
  // ready: the card reported itself ready for data when it was asked last.
  datatype Seen = Seen(illegal: bool, ready: bool)

  const NOTHING := Seen(false, false)

  // script: the replies still to come; behind its end nothing answers any more.
  datatype Bus = Bus(card: Card, script: seq<Reply>, seen: Seen)

  const SILENCE := Reply(Timeout, false, false, false, false, false, false, 1,
                         Csd(false, false, false, 512, 0), Scr(false, false, false), Switch(0, false, false))

  function First(s: seq<Reply>): Reply {
    if s == [] then SILENCE else s[0]
  }

  function Rest(s: seq<Reply>): (t: seq<Reply>)
    ensures s != [] ==> |t| == |s| - 1
  {
    if s == [] then [] else s[1..]
  }

  function NextReply(b: Bus): Reply {
    First(b.script)
  }

  // A command that is not answered cannot be reported as a success.
  function Verdict(b: Bus, cmd: Cmd): Status {
    var r := NextReply(b);
    if r.err.Ok? && !Legal(b.card, cmd) then Timeout else r.err
  }

  function CardAfter(b: Bus, cmd: Cmd): Card {
    var r := NextReply(b);
    if Legal(b.card, cmd) && (r.err.Ok? || r.executed) then Executed(b.card, cmd, r) else b.card
  }

  function Note(b: Bus, cmd: Cmd): Seen {
    Seen(b.seen.illegal || (!Foreign(cmd) && !Legal(b.card, cmd)),
         if cmd.SendStatus? then Verdict(b, cmd).Ok? && NextReply(b).readyForData else b.seen.ready)
  }

  function Sent(b: Bus, cmd: Cmd): Bus {
    Bus(CardAfter(b, cmd), Rest(b.script), Note(b, cmd))
  }

  // ---------- byte-addressed cards ----------

  const UINT32_MAX := 0xFFFF_FFFF

  // The sectors a byte address of 32 bits can reach, as a 32-bit number.
  function MaxSdscCapacity(sectorSize: Sector): nat {
    (UINT32_MAX / sectorSize + 1) % 0x1_0000_0000
  }
}
