/**
 Every JSON text (sections 2 to 7 of RFC 8259), whitespace and escapes included,
 is tokenized into exactly the pre-order list of its values and keys.
 */
module JsmnRoundTrip {
  import opened Jsmn

  // A JSON text as a concrete syntax tree.  A node's entries all have keys (an
  // object) or none has (an array); `pad`, `before` and `after` are whitespace.
  datatype Value =
    | Prim(text: string)
    | Str(body: string)
    | Node(isObject: bool, pad: string, entries: Entries)

  datatype Entries = Nil | Cons(head: Entry, tail: Entries)

  datatype Key = NoKey | Key(lead: string, name: string, trail: string)

  datatype Entry = Entry(key: Key, before: string, value: Value, after: string)

  // ---------- RFC 8259: which texts are well formed ----------

  // Section 2: the whitespace.
  predicate WhiteSpace(c: char) {
    c == ' ' || c == '\t' || c == '\n' || c == '\r'
  }

  predicate Blank(s: string) {
    forall i :: 0 <= i < |s| ==> WhiteSpace(s[i])
  }

  // Section 7: what stands behind a backslash, or 'u' and four hexadecimal digits.
  predicate Escapable(c: char) {
    c == '"' || c == '\\' || c == '/' || c == 'b' || c == 'f' || c == 'n' || c == 'r' || c == 't'
  }

  predicate HexDigit(c: char) {
    '0' <= c <= '9' || 'A' <= c <= 'F' || 'a' <= c <= 'f'
  }

  // Section 7: the characters between the quotes.
  predicate StringBody(s: string) {
    if s == [] then true
    else if s[0] == '\\' then
      |s| >= 2
      && if Escapable(s[1]) then StringBody(s[2..])
         else && s[1] == 'u' && |s| >= 6
              && HexDigit(s[2]) && HexDigit(s[3]) && HexDigit(s[4]) && HexDigit(s[5]) && StringBody(s[6..])
    else s[0] != '"' && s[0] as int >= 32 && StringBody(s[1..])
  }

  predicate Digits(s: string) {
    s != [] && forall i :: 0 <= i < |s| ==> '0' <= s[i] <= '9'
  }

  predicate Signed(s: string) {
    s != "" && (s[0] == '+' || s[0] == '-') && Digits(s[1..])
  }

  // Section 6: int, then an optional fraction, then an optional exponent.
  predicate Number(minus: string, whole: string, frac: string, exp: string) {
    && (minus == "" || minus == "-")
    && Digits(whole) && (whole[0] == '0' ==> |whole| == 1)
    && (frac == "" || (frac[0] == '.' && Digits(frac[1..])))
    && (exp == "" || ((exp[0] == 'e' || exp[0] == 'E') && |exp| > 1 && (Digits(exp[1..]) || Signed(exp[1..]))))
  }

  // Visible ASCII characters other than those that end a value.
  predicate PrimitiveChar(c: char) {
    '!' <= c <= '~' && c != ',' && c != ':' && c != ']' && c != '}'
  }

  predicate AllPrimitive(s: string) {
    forall i :: 0 <= i < |s| ==> PrimitiveChar(s[i])
  }

  // What the tokenizer takes for a primitive.
  predicate PrimitiveText(s: string) {
    s != [] && s[0] != '{' && s[0] != '[' && s[0] != '"' && AllPrimitive(s)
  }

  lemma Joined(a: string, b: string)
    ensures AllPrimitive(a) && AllPrimitive(b) ==> AllPrimitive(a + b)
  {
  }

  lemma DigitsArePrimitive(s: string)
    ensures Digits(s) ==> AllPrimitive(s)
  {
  }

  lemma Behind(s: string)
    requires s != "" && PrimitiveChar(s[0]) && AllPrimitive(s[1..])
    ensures AllPrimitive(s)
  {
  }

  lemma FractionIsPrimitive(frac: string)
    requires frac == "" || (frac[0] == '.' && Digits(frac[1..]))
    ensures AllPrimitive(frac)
  {
    if frac != "" {
      DigitsArePrimitive(frac[1..]);
      Behind(frac);
    }
  }

  lemma ExponentIsPrimitive(exp: string)
    requires exp == "" || ((exp[0] == 'e' || exp[0] == 'E') && |exp| > 1 && (Digits(exp[1..]) || Signed(exp[1..])))
    ensures AllPrimitive(exp)
  {
    if exp != "" {
      DigitsArePrimitive(exp[1..]);
      if Signed(exp[1..]) {
        DigitsArePrimitive(exp[1..][1..]);
        Behind(exp[1..]);
      }
      Behind(exp);
    }
  }

  lemma LiteralsArePrimitives()
    ensures PrimitiveText("true") && PrimitiveText("false") && PrimitiveText("null")
  {
  }

  // Sections 3 and 6: literals and numbers are among them.
  lemma NumbersArePrimitives(minus: string, whole: string, frac: string, exp: string)
    requires Number(minus, whole, frac, exp)
    ensures PrimitiveText(minus + whole + frac + exp)
    ensures PrimitiveText("true") && PrimitiveText("false") && PrimitiveText("null")
  {
    LiteralsArePrimitives();
    DigitsArePrimitive(whole);
    FractionIsPrimitive(frac);
    ExponentIsPrimitive(exp);
    assert AllPrimitive(minus);
    Joined(minus, whole);
    Joined(minus + whole, frac);
    Joined(minus + whole + frac, exp);
    assert (minus + whole + frac + exp)[0] == if minus == "" then whole[0] else '-';
  }

  predicate WellFormed(v: Value)
    decreases v
  {
    match v
    case Prim(text) => PrimitiveText(text)
    case Str(body) => StringBody(body)
    case Node(isObject, pad, entries) => Blank(pad) && WellFormedEntries(isObject, entries)
  }

  predicate WellFormedEntries(isObject: bool, es: Entries)
    decreases es
  {
    match es
    case Nil => true
    case Cons(e, rest) => e.key.Key? == isObject && WellFormedEntry(e) && WellFormedEntries(isObject, rest)
  }

  predicate WellFormedEntry(e: Entry)
    decreases e
  {
    && Blank(e.before) && WellFormed(e.value) && Blank(e.after)
    && (e.key.Key? ==> Blank(e.key.lead) && StringBody(e.key.name) && Blank(e.key.trail))
  }

  // ---------- printing ----------

  function Text(v: Value): string {
    match v
    case Prim(text) => text
    case Str(body) => "\"" + body + "\""
    case Node(isObject, pad, entries) =>
      (if isObject then "{" else "[") + (pad + (EntriesText(entries) + if isObject then "}" else "]"))
  }

  function EntriesText(es: Entries): string {
    match es
    case Nil => ""
    case Cons(e, rest) => EntryText(e) + if rest.Nil? then "" else "," + EntriesText(rest)
  }

  function KeyText(k: Key): string {
    match k
    case NoKey => ""
    case Key(lead, name, trail) => lead + (("\"" + name + "\"") + (trail + ":"))
  }

  function EntryText(e: Entry): string {
    KeyText(e.key) + (e.before + (Text(e.value) + e.after))
  }

  // ---------- the tokens to expect ----------

  function Length(es: Entries): nat {
    match es
    case Nil => 0
    case Cons(_, rest) => 1 + Length(rest)
  }

  // The tokens of v when its text starts at offset i, in pre-order: the value
  // itself, then its keys and values.
  function Tokens(v: Value, i: nat): seq<Token> {
    match v
    case Prim(text) => [Token(Primitive, i, i + |text|, 0)]
    case Str(body) => [Token(String, i + 1, i + 1 + |body|, 0)]
    case Node(isObject, pad, entries) =>
      [Token(if isObject then Object else Array, i, i + |Text(v)|, Length(entries))]
      + EntriesTokens(entries, i + 1 + |pad|)
  }

  function EntriesTokens(es: Entries, i: nat): seq<Token> {
    match es
    case Nil => []
    case Cons(e, rest) => EntryTokens(e, i) + EntriesTokens(rest, i + |EntryText(e)| + 1)
  }

  // A key has size 1: its value.
  function KeyTokens(k: Key, i: nat): seq<Token> {
    match k
    case NoKey => []
    case Key(lead, name, _) =>
      var start := i + |lead| + 1;
      [Token(String, start, start + |name|, 1)]
  }

  function EntryTokens(e: Entry, i: nat): seq<Token> {
    KeyTokens(e.key, i) + Tokens(e.value, i + |KeyText(e.key)| + |e.before|)
  }

  // ---------- placing text ----------

  predicate Sits(js: string, i: nat, t: string) {
    i + |t| <= |js| && js[i..i + |t|] == t
  }

  lemma SitsSplit(js: string, i: nat, a: string, b: string)
    requires Sits(js, i, a + b)
    ensures Sits(js, i, a) && Sits(js, i + |a|, b)
  {
    var t := js[i..i + |a + b|];
    assert t[..|a|] == a && t[|a|..] == b;
    assert js[i..i + |a|] == t[..|a|];
    assert js[i + |a|..i + |a| + |b|] == t[|a|..];
  }

  lemma SitsChar(js: string, i: nat, t: string, k: nat)
    requires Sits(js, i, t) && k < |t|
    ensures i + k < |js| && js[i + k] == t[k]
  {
    assert js[i..i + |t|][k] == t[k];
  }

  lemma SitsTail(js: string, i: nat, t: string, k: nat)
    requires Sits(js, i, t) && k <= |t|
    ensures Sits(js, i + k, t[k..])
  {
    assert t == t[..k] + t[k..];
    SitsSplit(js, i, t[..k], t[k..]);
  }

  // ---------- scanning ----------

  lemma ScanUnicode(js: string, i: nat, body: string)
    requires StringBody(body) && Sits(js, i, body + "\"") && body != [] && body[0] == '\\' && !Escapable(body[1])
    ensures ScanHex(js, i + 2, 4) == At(i + 6)
  {
    var t := body + "\"";
    SitsChar(js, i, t, 2);
    SitsChar(js, i, t, 3);
    SitsChar(js, i, t, 4);
    SitsChar(js, i, t, 5);
    assert ScanHex(js, i + 5, 1) == ScanHex(js, i + 6, 0);
    assert ScanHex(js, i + 4, 2) == ScanHex(js, i + 5, 1);
    assert ScanHex(js, i + 3, 3) == ScanHex(js, i + 4, 2);
  }

  lemma {:induction false} ScanBody(js: string, i: nat, body: string)
    requires StringBody(body) && Sits(js, i, body + "\"")
    ensures ScanString(js, i) == At(i + |body|)
    decreases |body|
  {
    hide Sits, ScanHex;
    var t := body + "\"";
    SitsChar(js, i, t, 0);
    if body != [] {
      if body[0] == '\\' {
        SitsChar(js, i, t, 1);
        if Escapable(body[1]) {
          SitsTail(js, i, t, 2);
          assert t[2..] == body[2..] + "\"";
          ScanBody(js, i + 2, body[2..]);
        } else {
          ScanUnicode(js, i, body);
          SitsTail(js, i, t, 6);
          assert t[6..] == body[6..] + "\"";
          ScanBody(js, i + 6, body[6..]);
        }
      } else {
        SitsTail(js, i, t, 1);
        assert t[1..] == body[1..] + "\"";
        ScanBody(js, i + 1, body[1..]);
      }
    }
  }

  lemma {:induction false} ScanText(js: string, i: nat, t: string)
    requires Sits(js, i, t) && AllPrimitive(t)
    requires Ended(js, i + |t|) || Stopper(js[i + |t|])
    ensures ScanPrimitive(js, i) == At(i + |t|)
    decreases |t|
  {
    if t != [] {
      SitsChar(js, i, t, 0);
      SitsTail(js, i, t, 1);
      ScanText(js, i + 1, t[1..]);
    }
  }

  // Single steps of a run, by the character they read.
  lemma QuietHere(js: string, cap: nat, st: State)
    requires st.Valid() && st.pos < |js| && Quiet(js[st.pos])
    ensures var super := if js[st.pos] == ':' then |st.toks| - 1
                         else if js[st.pos] == ',' then CommaStep(st).state.super else st.super;
            Run(js, cap, st) == Run(js, cap, State(st.pos + 1, super, st.toks))
  {
  }

  lemma OpenHere(js: string, cap: nat, st: State)
    requires st.Valid() && st.pos < |js| && OpenBracket(js[st.pos]) && |st.toks| < cap
    ensures Run(js, cap, st) == Run(js, cap, OpenStep(js[st.pos], cap, st).state)
  {
  }

  lemma CloseHere(js: string, cap: nat, st: State, s: State)
    requires st.Valid() && s.Valid() && st.pos < |js|
    requires CloseBracket(js[st.pos]) && CloseStep(js[st.pos], st) == Next(s)
    ensures Run(js, cap, st) == Run(js, cap, s)
  {
  }

  lemma QuoteHere(js: string, cap: nat, st: State, e: nat)
    requires st.Valid() && st.pos < |js| && js[st.pos] == '"' && ScanString(js, st.pos + 1) == At(e) && |st.toks| < cap
    ensures Run(js, cap, st)
         == Run(js, cap, State(e + 1, st.super, Bump(st.toks, st.super) + [Token(String, st.pos + 1, e, 0)]))
  {
    hide ScanString, ScanPrimitive, Bump;
    assert Step(js, cap, st) == StringStep(js, cap, st);
  }

  lemma PrimitiveHere(js: string, cap: nat, st: State, e: nat)
    requires st.Valid() && st.pos < |js| && PrimitiveText([js[st.pos]])
    requires ScanPrimitive(js, st.pos) == At(e) && |st.toks| < cap
    ensures Run(js, cap, st)
         == Run(js, cap, State(e, st.super, Bump(st.toks, st.super) + [Token(Primitive, st.pos, e, 0)]))
  {
    assert AllPrimitive([js[st.pos]]) && [js[st.pos]][0] == js[st.pos];
  }

  // Whitespace only moves the position.
  lemma {:induction false} RunBlank(js: string, cap: nat, st: State, ws: string)
    requires st.Valid() && Blank(ws) && Sits(js, st.pos, ws)
    ensures Run(js, cap, st) == Run(js, cap, st.(pos := st.pos + |ws|))
    decreases |ws|
  {
    hide Run, Sits;
    if ws != [] {
      SitsChar(js, st.pos, ws, 0);
      SitsTail(js, st.pos, ws, 1);
      QuietHere(js, cap, st);
      RunBlank(js, cap, st.(pos := st.pos + 1), ws[1..]);
    }
  }

  // ---------- open tokens ----------

  predicate AllClosed(ts: seq<Token>) {
    forall t :: t in ts ==> !t.Open()
  }

  lemma {:induction false} LastOpenPast(a: seq<Token>, b: seq<Token>)
    requires AllClosed(b)
    ensures LastOpen(a + b) == LastOpen(a)
    decreases |b|
  {
    if b == [] {
      assert a + b == a;
    } else {
      var n := |b| - 1;
      assert (a + b)[..|a + b| - 1] == a + b[..n];
      LastOpenPast(a, b[..n]);
    }
  }

  lemma {:induction false} LastOpenBump(toks: seq<Token>, super: int)
    requires -1 <= super < |toks|
    ensures LastOpen(Bump(toks, super)) == LastOpen(toks)
    decreases |toks|
  {
    if toks != [] {
      var n := |toks| - 1;
      var bumped := Bump(toks, super);
      if super == n {
        assert bumped[..n] == toks[..n];
      } else {
        LastOpenBump(toks[..n], super);
        assert bumped[..n] == Bump(toks[..n], super);
      }
    }
  }

  lemma NoneOpen()
    ensures AllClosed([])
  {
  }

  lemma BothClosed(a: seq<Token>, b: seq<Token>)
    requires AllClosed(a) && AllClosed(b)
    ensures AllClosed(a + b)
  {
  }

  lemma KeyClosed(k: Key, i: nat)
    ensures AllClosed(KeyTokens(k, i))
  {
  }

  lemma {:induction false} TokensClosed(v: Value, i: nat)
    ensures AllClosed(Tokens(v, i))
    decreases v
  {
    match v
    case Prim(_) =>
    case Str(_) =>
    case Node(_, pad, entries) => EntriesClosed(entries, i + 1 + |pad|);
  }

  lemma {:induction false} EntriesClosed(es: Entries, i: nat)
    ensures AllClosed(EntriesTokens(es, i))
    decreases es
  {
    hide Text, EntryText, KeyText, Tokens, KeyTokens, AllClosed;
    match es
    case Nil =>
      NoneOpen();
    case Cons(e, rest) =>
      var at := i + |KeyText(e.key)| + |e.before|;
      KeyClosed(e.key, i);
      TokensClosed(e.value, at);
      EntriesClosed(rest, i + |EntryText(e)| + 1);
      BothClosed(KeyTokens(e.key, i), Tokens(e.value, at));
      BothClosed(EntryTokens(e, i), EntriesTokens(rest, i + |EntryText(e)| + 1));
  }

  // ---------- running ----------

  predicate EndsValue(js: string, i: nat) {
    Ended(js, i) || Stopper(js[i])
  }

  // A value bumps its superior and adds its tokens; a closed node hands back the
  // enclosing open token as superior.
  function AfterValue(st: State, v: Value): (s: State)
    requires st.Valid()
    ensures s.Valid()
  {
    State(st.pos + |Text(v)|,
          if v.Node? then LastOpen(st.toks) else st.super,
          Bump(st.toks, st.super) + Tokens(v, st.pos))
  }

  // The state between the entries of an open container.
  predicate Inside(st: State) {
    st.Valid() && st.super == LastOpen(st.toks) && st.super >= 0 && st.toks[st.super].Container()
  }

  // After one entry of that container.
  function AfterEntry(st: State, e: Entry): (s: State)
    requires st.Valid() && st.super >= 0
    ensures s.Valid()
  {
    State(st.pos + |EntryText(e)|,
          if e.value.Node? || e.key.NoKey? then st.super else |st.toks|,
          Bump(st.toks, st.super) + EntryTokens(e, st.pos))
  }

  function Grow(toks: seq<Token>, a: nat, n: nat): seq<Token>
    requires a < |toks|
  {
    toks[a := toks[a].(size := toks[a].size + n)]
  }

  lemma RunPrim(js: string, cap: nat, st: State, v: Value)
    requires st.Valid() && WellFormed(v) && v.Prim? && Sits(js, st.pos, Text(v))
    requires |st.toks| < cap && EndsValue(js, st.pos + |Text(v)|)
    ensures Run(js, cap, st) == Run(js, cap, AfterValue(st, v))
  {
    hide Run, ScanPrimitive, Bump;
    SitsChar(js, st.pos, v.text, 0);
    ScanText(js, st.pos, v.text);
    PrimitiveHere(js, cap, st, st.pos + |v.text|);
  }

  lemma RunString(js: string, cap: nat, st: State, body: string)
    requires st.Valid() && StringBody(body) && Sits(js, st.pos, "\"" + body + "\"") && |st.toks| < cap
    ensures Run(js, cap, st)
         == Run(js, cap, State(st.pos + |body| + 2, st.super,
                               Bump(st.toks, st.super) + [Token(String, st.pos + 1, st.pos + 1 + |body|, 0)]))
  {
    hide Run, Bump, StringBody, ScanString;
    var t := "\"" + body + "\"";
    SitsChar(js, st.pos, t, 0);
    SitsTail(js, st.pos, t, 1);
    assert t[1..] == body + "\"";
    ScanBody(js, st.pos + 1, body);
    QuoteHere(js, cap, st, st.pos + 1 + |body|);
  }

  lemma {:induction false} RunValue(js: string, cap: nat, st: State, v: Value)
    requires st.Valid() && WellFormed(v) && Sits(js, st.pos, Text(v))
    requires |st.toks| + |Tokens(v, st.pos)| <= cap && EndsValue(js, st.pos + |Text(v)|)
    ensures Run(js, cap, st) == Run(js, cap, AfterValue(st, v))
    decreases v, 1
  {
    hide Run, Sits;
    match v
    case Prim(_) => RunPrim(js, cap, st, v);
    case Str(body) =>
      RunString(js, cap, st, body);
    case Node(isObject, pad, entries) =>
      RunNode(js, cap, st, v);
  }

  lemma LastOpenEnd(toks: seq<Token>)
    requires toks != [] && toks[|toks| - 1].Open()
    ensures LastOpen(toks) == |toks| - 1
  {
  }

  // From the opening bracket past the blanks behind it.
  lemma EnterNode(js: string, cap: nat, st: State, v: Value) returns (padded: State)
    requires st.Valid() && WellFormed(v) && v.Node? && Sits(js, st.pos, Text(v))
    requires |st.toks| + |Tokens(v, st.pos)| <= cap
    ensures Inside(padded) && Run(js, cap, st) == Run(js, cap, padded)
    ensures padded.pos == st.pos + 1 + |v.pad| && padded.super == |st.toks|
    ensures padded.toks == Bump(st.toks, st.super) + [Token(if v.isObject then Object else Array, st.pos, -1, 0)]
    ensures Sits(js, padded.pos, EntriesText(v.entries) + if v.isObject then "}" else "]")
  {
    hide Run, Sits, LastOpen, Bump, EntriesText, EntriesTokens, WellFormedEntries;
    match v
    case Node(isObject, pad, entries) =>
      var left, right := if isObject then "{" else "[", if isObject then "}" else "]";
      SitsSplit(js, st.pos, left, pad + (EntriesText(entries) + right));
      SitsChar(js, st.pos, left, 0);
      var inside := OpenStep(left[0], cap, st).state;
      OpenHere(js, cap, st);
      assert inside.toks[..|inside.toks| - 1] == Bump(st.toks, st.super);
      LastOpenEnd(inside.toks);
      SitsSplit(js, inside.pos, pad, EntriesText(entries) + right);
      RunBlank(js, cap, inside, pad);
      padded := inside.(pos := inside.pos + |pad|);
  }

  lemma NodeTokens(v: Value, i: nat)
    requires v.Node?
    ensures |Text(v)| == 1 + |v.pad| + |EntriesText(v.entries)| + 1
    ensures Tokens(v, i) == [Token(if v.isObject then Object else Array, i, i + |Text(v)|, Length(v.entries))]
                            + EntriesTokens(v.entries, i + 1 + |v.pad|)
  {
    hide EntriesText, EntriesTokens, Length;
  }

  // The closing bracket finds the node's own token and completes it.
  lemma CloseNode(js: string, cap: nat, st: State, v: Value, inside: State, s: State)
    requires st.Valid() && s.Valid() && v.Node?
    requires LastOpen(Bump(st.toks, st.super)) == LastOpen(st.toks)
    requires inside.toks == Bump(st.toks, st.super) + [Token(if v.isObject then Object else Array, st.pos, -1, 0)]
    requires inside.pos == st.pos + 1 + |v.pad|
    requires s.pos == inside.pos + |EntriesText(v.entries)|
    requires s.toks == Grow(inside.toks, |st.toks|, Length(v.entries)) + EntriesTokens(v.entries, inside.pos)
    requires s.pos < |js| && js[s.pos] == (if v.isObject then '}' else ']')
    ensures Run(js, cap, s) == Run(js, cap, AfterValue(st, v))
  {
    hide Run, LastOpen, Bump, EntriesText, EntriesTokens, Length, Text, Tokens;
    var a := |st.toks|;
    var grown := Grow(inside.toks, a, Length(v.entries));
    var inner := EntriesTokens(v.entries, inside.pos);
    EntriesClosed(v.entries, inside.pos);
    LastOpenPast(grown, inner);
    LastOpenEnd(grown);
    assert s.toks[..a] == Bump(st.toks, st.super);
    var after := AfterValue(st, v);
    NodeTokens(v, st.pos);
    assert s.toks[a := s.toks[a].(end := s.pos + 1)] == after.toks;
    assert CloseStep(js[s.pos], s) == Next(after);
    CloseHere(js, cap, s, after);
  }

  lemma {:induction false} RunNode(js: string, cap: nat, st: State, v: Value)
    requires st.Valid() && WellFormed(v) && v.Node? && Sits(js, st.pos, Text(v))
    requires |st.toks| + |Tokens(v, st.pos)| <= cap
    ensures Run(js, cap, st) == Run(js, cap, AfterValue(st, v))
    decreases v, 0
  {
    hide Run, Sits, LastOpen, Bump, EntriesText, EntriesTokens, WellFormedEntries;
    match v
    case Node(isObject, pad, entries) =>
      var right := if isObject then "}" else "]";
      var padded := EnterNode(js, cap, st, v);
      hide Text, Tokens;
      SitsSplit(js, padded.pos, EntriesText(entries), right);
      SitsChar(js, padded.pos + |EntriesText(entries)|, right, 0);
      var s := RunEntries(js, cap, padded, isObject, entries);
      LastOpenBump(st.toks, st.super);
      CloseNode(js, cap, st, v, padded, s);
  }

  lemma EntriesAdd(st: State, e: Entry, rest: Entries)
    requires Inside(st)
    ensures Grow(AfterEntry(st, e).toks, st.super, Length(rest)) + EntriesTokens(rest, st.pos + |EntryText(e)| + 1)
         == Grow(st.toks, st.super, Length(Cons(e, rest))) + EntriesTokens(Cons(e, rest), st.pos)
  {
    hide LastOpen, EntryText, EntryTokens;
    assert Grow(AfterEntry(st, e).toks, st.super, Length(rest))
        == Grow(st.toks, st.super, 1 + Length(rest)) + EntryTokens(e, st.pos);
  }

  lemma EntryClosed(e: Entry, i: nat)
    ensures AllClosed(EntryTokens(e, i))
  {
    TokensClosed(e.value, i + |KeyText(e.key)| + |e.before|);
  }

  // A comma after an entry makes the container superior again.
  lemma CommaReturns(js: string, cap: nat, st: State, e: Entry)
    requires Inside(st)
    requires var s := AfterEntry(st, e); s.pos < |js| && js[s.pos] == ','
    ensures var s := AfterEntry(st, e);
            Run(js, cap, s) == Run(js, cap, s.(pos := s.pos + 1, super := st.super))
            && Inside(s.(super := st.super))
  {
    hide Run, Sits;
    var s := AfterEntry(st, e);
    EntryClosed(e, st.pos);
    LastOpenBump(st.toks, st.super);
    LastOpenPast(Bump(st.toks, st.super), EntryTokens(e, st.pos));
    assert LastOpenContainer(s.toks) == st.super;
    QuietHere(js, cap, s);
  }

  lemma {:induction false} RunEntries(js: string, cap: nat, st: State, isObject: bool, es: Entries) returns (s: State)
    requires Inside(st) && WellFormedEntries(isObject, es) && Sits(js, st.pos, EntriesText(es))
    requires |st.toks| + |EntriesTokens(es, st.pos)| <= cap && EndsValue(js, st.pos + |EntriesText(es)|)
    ensures s.Valid() && Run(js, cap, st) == Run(js, cap, s)
    ensures s.pos == st.pos + |EntriesText(es)|
    ensures s.toks == Grow(st.toks, st.super, Length(es)) + EntriesTokens(es, st.pos)
    decreases es
  {
    hide Run, Sits, LastOpen, Bump, EntryText, EntryTokens, WellFormedEntry;
    match es
    case Nil => s := st;
    case Cons(e, rest) =>
      var more := if rest.Nil? then "" else "," + EntriesText(rest);
      SitsSplit(js, st.pos, EntryText(e), more);
      if !rest.Nil? {
        SitsChar(js, st.pos + |EntryText(e)|, more, 0);
        SitsTail(js, st.pos + |EntryText(e)|, more, 1);
      }
      RunEntry(js, cap, st, e);
      s := AfterEntry(st, e);
      EntryClosed(e, st.pos);
      if !rest.Nil? {
        var next := s.(pos := s.pos + 1, super := st.super);
        CommaReturns(js, cap, st, e);
        assert more[1..] == EntriesText(rest);
        s := RunEntries(js, cap, next, isObject, rest);
      }
      EntriesAdd(st, e, rest);
  }

  // A value between whitespace.
  function AfterPadded(st: State, e: Entry): (s: State)
    requires st.Valid()
    ensures s.Valid()
  {
    var done := AfterValue(st.(pos := st.pos + |e.before|), e.value);
    done.(pos := done.pos + |e.after|)
  }

  lemma {:induction false} RunPadded(js: string, cap: nat, st: State, e: Entry)
    requires st.Valid() && WellFormedEntry(e) && Sits(js, st.pos, e.before + (Text(e.value) + e.after))
    requires |st.toks| + |Tokens(e.value, st.pos + |e.before|)| <= cap
    requires EndsValue(js, st.pos + |e.before| + |Text(e.value)| + |e.after|)
    ensures Run(js, cap, st) == Run(js, cap, AfterPadded(st, e))
    decreases e, 0
  {
    hide Run, Sits, LastOpen, Bump, Text, Tokens, WellFormed;
    SitsSplit(js, st.pos, e.before, Text(e.value) + e.after);
    RunBlank(js, cap, st, e.before);
    var ready := st.(pos := st.pos + |e.before|);
    SitsSplit(js, ready.pos, Text(e.value), e.after);
    if e.after != "" {
      SitsChar(js, ready.pos + |Text(e.value)|, e.after, 0);
    }
    RunValue(js, cap, ready, e.value);
    RunBlank(js, cap, AfterValue(ready, e.value), e.after);
  }

  // The key's token, with the key now superior.
  function AfterKey(st: State, k: Key): (s: State)
    requires st.Valid() && k.Key?
    ensures s.Valid()
  {
    var start := st.pos + |k.lead| + 1;
    State(st.pos + |KeyText(k)|, |st.toks|, Bump(st.toks, st.super) + [Token(String, start, start + |k.name|, 0)])
  }

  // Blanks and a colon make the last token superior.
  lemma RunColon(js: string, cap: nat, st: State, trail: string)
    requires st.Valid() && Blank(trail) && Sits(js, st.pos, trail + ":")
    ensures Run(js, cap, st) == Run(js, cap, State(st.pos + |trail| + 1, |st.toks| - 1, st.toks))
  {
    hide Run, Sits, Blank, CommaStep, LastOpen, LastOpenContainer, WhiteSpace;
    SitsSplit(js, st.pos, trail, ":");
    RunBlank(js, cap, st, trail);
    SitsChar(js, st.pos + |trail|, ":", 0);
    QuietHere(js, cap, st.(pos := st.pos + |trail|));
  }

  // Blanks and a string add its token.
  lemma RunName(js: string, cap: nat, st: State, lead: string, name: string, quoted: string)
    requires st.Valid() && Blank(lead) && StringBody(name) && |st.toks| < cap
    requires quoted == "\"" + name + "\"" && Sits(js, st.pos, lead) && Sits(js, st.pos + |lead|, quoted)
    ensures var start := st.pos + |lead| + 1;
            Run(js, cap, st) == Run(js, cap, State(start + |name| + 1, st.super,
                                     Bump(st.toks, st.super) + [Token(String, start, start + |name|, 0)]))
  {
    hide Run, Sits, Bump, StringBody, Blank, ScanString, LastOpen, WhiteSpace;
    RunBlank(js, cap, st, lead);
    RunString(js, cap, st.(pos := st.pos + |lead|), name);
  }

  lemma RunKey(js: string, cap: nat, st: State, k: Key)
    requires st.Valid() && k.Key? && Blank(k.lead) && StringBody(k.name) && Blank(k.trail)
    requires |st.toks| < cap && Sits(js, st.pos, KeyText(k))
    ensures Run(js, cap, st) == Run(js, cap, AfterKey(st, k))
  {
    hide Run, Sits, Bump, StringBody, Blank, LastOpen;
    var quoted := "\"" + k.name + "\"";
    SitsSplit(js, st.pos, k.lead, quoted + (k.trail + ":"));
    SitsSplit(js, st.pos + |k.lead|, quoted, k.trail + ":");
    RunName(js, cap, st, k.lead, k.name, quoted);
    var start := st.pos + |k.lead| + 1;
    RunColon(js, cap, State(start + |k.name| + 1, st.super,
                            Bump(st.toks, st.super) + [Token(String, start, start + |k.name|, 0)]), k.trail);
  }

  lemma EntryAdds(st: State, e: Entry, keyed: State)
    requires Inside(st) && LastOpen(Bump(st.toks, st.super)) == LastOpen(st.toks)
    requires keyed == if e.key.NoKey? then st else AfterKey(st, e.key)
    ensures AfterPadded(keyed, e) == AfterEntry(st, e)
  {
    hide Text, Tokens, LastOpen;
    if e.key.Key? {
      assert keyed.toks[..|st.toks|] == Bump(st.toks, st.super);
      assert Bump(keyed.toks, keyed.super) == Bump(st.toks, st.super) + KeyTokens(e.key, st.pos);
    }
    assert AfterPadded(keyed, e).toks == AfterEntry(st, e).toks;
  }

  lemma {:induction false} RunEntry(js: string, cap: nat, st: State, e: Entry)
    requires Inside(st) && WellFormedEntry(e) && Sits(js, st.pos, EntryText(e))
    requires |st.toks| + |EntryTokens(e, st.pos)| <= cap && EndsValue(js, st.pos + |EntryText(e)|)
    ensures Run(js, cap, st) == Run(js, cap, AfterEntry(st, e))
    decreases e, 1
  {
    hide Run, Sits, LastOpen, Bump, Text, Tokens, WellFormed;
    SitsSplit(js, st.pos, KeyText(e.key), e.before + (Text(e.value) + e.after));
    if e.key.Key? {
      RunKey(js, cap, st, e.key);
    }
    var keyed := if e.key.NoKey? then st else AfterKey(st, e.key);
    RunPadded(js, cap, keyed, e);
    LastOpenBump(st.toks, st.super);
    EntryAdds(st, e, keyed);
  }

  lemma RunEnd(js: string, cap: nat, st: State)
    requires st.Valid() && Ended(js, st.pos) && LastOpen(st.toks) == LastOpen([])
    ensures Run(js, cap, st) == RunResult(st, Done(|st.toks|))
  {
  }

  // Tokenizing a whole text gives exactly its tokens.
  lemma RoundTrip(doc: Entry, cap: nat)
    requires doc.key.NoKey? && WellFormedEntry(doc)
    requires |EntryTokens(doc, 0)| <= cap
    ensures var r := Run(EntryText(doc), cap, INIT);
            r.outcome == Done(|EntryTokens(doc, 0)|) && r.final.toks == EntryTokens(doc, 0)
  {
    hide Run, LastOpen, Text, Tokens, WellFormed;
    var js := EntryText(doc);
    assert js[0..|js|] == js == doc.before + (Text(doc.value) + doc.after);
    RunPadded(js, cap, INIT, doc);
    var done := AfterPadded(INIT, doc);
    TokensClosed(doc.value, |doc.before|);
    LastOpenPast([], done.toks);
    assert [] + done.toks == done.toks == EntryTokens(doc, 0);
    RunEnd(js, cap, done);
  }
}
