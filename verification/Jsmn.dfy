/**
 The jsmn tokenizer in its default build (non-strict, no parent links).

 `Run` describes one call of `jsmn_parse` with a token array; `CountRun`
 describes a call with a NULL array.  Class `Parser` is the tokenizer itself:
 it mutates its three fields and the caller's token array, and every method is
 proved to do exactly what the functions say.
 */
module Jsmn {

  datatype TokenType = Undefined | Object | Array | String | Primitive

  // `end == -1` marks a container whose closing bracket has not been seen.
  datatype Token = Token(kind: TokenType, start: int, end: int, size: nat) {
    predicate Open() {
      start != -1 && end == -1
    }

    predicate Container() {
      kind == Object || kind == Array
    }
  }

  // `Done` carries the number of tokens; the other three are the error codes.
  datatype Outcome = Done(count: nat) | NoMem | Inval | Part

  // The parser's fields together with the tokens allocated so far.
  datatype State = State(pos: nat, super: int, toks: seq<Token>) {
    predicate Valid() {
      -1 <= super < |toks|
    }
  }

  datatype RunResult = RunResult(final: State, outcome: Outcome)

  const INIT := State(0, -1, [])

  predicate Ended(js: string, i: nat) {
    i >= |js| || js[i] == '\0'
  }

  // ---------- scanning one lexeme ----------

  datatype Scan = At(index: nat) | Bad | Unfinished

  predicate Space(c: char) {
    c == '\t' || c == '\r' || c == '\n' || c == ' '
  }

  predicate OpenBracket(c: char) {
    c == '{' || c == '['
  }

  predicate CloseBracket(c: char) {
    c == '}' || c == ']'
  }

  // Characters that neither create nor close a token.
  predicate Quiet(c: char) {
    Space(c) || c == ':' || c == ','
  }

  predicate Stopper(c: char) {
    Quiet(c) || CloseBracket(c)
  }

  predicate Printable(c: char) {
    32 <= c as int < 127
  }

  predicate Hex(c: char) {
    '0' <= c <= '9' || 'A' <= c <= 'F' || 'a' <= c <= 'f'
  }

  predicate SimpleEscape(c: char) {
    c == '"' || c == '/' || c == '\\' || c == 'b' || c == 'f' || c == 'r' || c == 'n' || c == 't'
  }

  // Where the primitive whose unread part starts at i stops.
  function ScanPrimitive(js: string, i: nat): (r: Scan)
    ensures r.At? ==> i <= r.index && (i <= |js| ==> r.index <= |js|)
    ensures r != Unfinished
    ensures !Ended(js, i) && !Stopper(js[i]) && r.At? ==> i < r.index
    decreases |js| - i
  {
    if Ended(js, i) || Stopper(js[i]) then At(i)
    else if !Printable(js[i]) then Bad
    else ScanPrimitive(js, i + 1)
  }

  // The index after at most n further hexadecimal digits.
  function ScanHex(js: string, i: nat, n: nat): (r: Scan)
    ensures r.At? ==> i <= r.index && (i <= |js| ==> r.index <= |js|)
    ensures r != Unfinished
    decreases n
  {
    if n == 0 || Ended(js, i) then At(i)
    else if !Hex(js[i]) then Bad
    else ScanHex(js, i + 1, n - 1)
  }

  // Where the closing quote of the string is whose unread part starts at i.
  function ScanString(js: string, i: nat): (r: Scan)
    ensures r.At? ==> i <= r.index < |js| && js[r.index] == '"'
    decreases |js| - i
  {
    if Ended(js, i) then Unfinished
    else if js[i] == '"' then At(i)
    else if js[i] == '\\' && i + 1 < |js| then
      if SimpleEscape(js[i + 1]) then ScanString(js, i + 2)
      else if js[i + 1] == 'u' then
        var h := ScanHex(js, i + 2, 4);
        if h.Bad? then Bad else ScanString(js, h.index)
      else Bad
    else ScanString(js, i + 1)
  }

  // ---------- the token array ----------

  function Bump(toks: seq<Token>, super: int): (r: seq<Token>)
    requires -1 <= super < |toks|
    ensures |r| == |toks|
  {
    if super == -1 then toks
    else toks[super := toks[super].(size := toks[super].size + 1)]
  }

  // The last open token, or -1.
  function LastOpen(toks: seq<Token>): (i: int)
    ensures -1 <= i < |toks|
    ensures i >= 0 ==> toks[i].Open()
    ensures forall k :: i < k < |toks| ==> !toks[k].Open()
  {
    if toks == [] then -1
    else if toks[|toks| - 1].Open() then |toks| - 1
    else LastOpen(toks[..|toks| - 1])
  }

  // The last open object or array, or -1.
  function LastOpenContainer(toks: seq<Token>): (i: int)
    ensures -1 <= i < |toks|
    ensures i >= 0 ==> toks[i].Open() && toks[i].Container()
    ensures forall k :: i < k < |toks| ==> !(toks[k].Open() && toks[k].Container())
  {
    if toks == [] then -1
    else if toks[|toks| - 1].Open() && toks[|toks| - 1].Container() then |toks| - 1
    else LastOpenContainer(toks[..|toks| - 1])
  }

  // ---------- one character of jsmn_parse ----------

  datatype StepResult = Next(state: State) | Fail(outcome: Outcome)

  function OpenStep(c: char, cap: nat, st: State): (r: StepResult)
    requires st.Valid()
  {
    if |st.toks| >= cap then Fail(NoMem)
    else
      var kind := if c == '{' then Object else Array;
      Next(State(st.pos + 1, |st.toks|, Bump(st.toks, st.super) + [Token(kind, st.pos, -1, 0)]))
  }

  function CloseStep(c: char, st: State): (r: StepResult)
    requires st.Valid()
  {
    var i := LastOpen(st.toks);
    var kind := if c == '}' then Object else Array;
    if i == -1 || st.toks[i].kind != kind then Fail(Inval)
    else Next(State(st.pos + 1, LastOpen(st.toks[..i]), st.toks[i := st.toks[i].(end := st.pos + 1)]))
  }

  function StringStep(js: string, cap: nat, st: State): (r: StepResult)
    requires st.Valid()
  {
    match ScanString(js, st.pos + 1)
    case Bad => Fail(Inval)
    case Unfinished => Fail(Part)
    case At(e) =>
      if |st.toks| >= cap then Fail(NoMem)
      else Next(State(e + 1, st.super, Bump(st.toks, st.super) + [Token(String, st.pos + 1, e, 0)]))
  }

  function PrimitiveStep(js: string, cap: nat, st: State): (r: StepResult)
    requires st.Valid()
  {
    match ScanPrimitive(js, st.pos)
    case At(e) =>
      if |st.toks| >= cap then Fail(NoMem)
      else Next(State(e, st.super, Bump(st.toks, st.super) + [Token(Primitive, st.pos, e, 0)]))
    case _ => Fail(Inval)
  }

  function CommaStep(st: State): (r: StepResult)
    requires st.Valid()
  {
    var i := LastOpenContainer(st.toks);
    if st.super != -1 && !st.toks[st.super].Container() && i != -1
    then Next(State(st.pos + 1, i, st.toks))
    else Next(State(st.pos + 1, st.super, st.toks))
  }

  function Step(js: string, cap: nat, st: State): (r: StepResult)
    requires st.Valid() && !Ended(js, st.pos)
    ensures r.Next? ==> r.state.Valid() && st.pos < r.state.pos <= |js|
  {
    var c := js[st.pos];
    if OpenBracket(c) then OpenStep(c, cap, st)
    else if CloseBracket(c) then CloseStep(c, st)
    else if c == '"' then StringStep(js, cap, st)
    else if Space(c) then Next(State(st.pos + 1, st.super, st.toks))
    else if c == ':' then Next(State(st.pos + 1, |st.toks| - 1, st.toks))
    else if c == ',' then CommaStep(st)
    else PrimitiveStep(js, cap, st)
  }

  // One call of jsmn_parse with room for cap tokens.
  function Run(js: string, cap: nat, st: State): (r: RunResult)
    requires st.Valid()
    ensures r.final.Valid()
    decreases |js| - st.pos
  {
    if Ended(js, st.pos) then
      RunResult(st, if LastOpen(st.toks) >= 0 then Part else Done(|st.toks|))
    else match Step(js, cap, st)
      case Fail(o) => RunResult(st, o)
      case Next(s) => Run(js, cap, s)
  }

  // One call of jsmn_parse with tokens == NULL.
  function CountRun(js: string, pos: nat, count: nat): Outcome
    decreases |js| - pos
  {
    if Ended(js, pos) then Done(count)
    else
      var c := js[pos];
      if OpenBracket(c) then CountRun(js, pos + 1, count + 1)
      else if c == '"' then
        match ScanString(js, pos + 1)
        case Bad => Inval
        case Unfinished => Part
        case At(e) => CountRun(js, e + 1, count + 1)
      else if Stopper(c) then CountRun(js, pos + 1, count)
      else
        match ScanPrimitive(js, pos)
        case At(e) => CountRun(js, e, count + 1)
        case _ => Inval
  }
}
