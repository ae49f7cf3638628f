/** The tokenizer as code: three fields and a token array, changed in place. */
module JsmnParser {
  import opened Jsmn

  class Parser {
    var pos: nat
    var toknext: nat
    var toksuper: int

    // The caller keeps the allocated prefix between calls.
    ghost predicate Valid(tokens: array<Token>)
      reads this
    {
      toknext <= tokens.Length && -1 <= toksuper < toknext
    }

    ghost function View(tokens: array<Token>): (st: State)
      requires Valid(tokens)
      reads this, tokens
      ensures st.Valid()
    {
      State(pos, toksuper, tokens[..toknext])
    }

    constructor ()
      ensures pos == 0 && toknext == 0 && toksuper == -1
    {
      pos, toknext, toksuper := 0, 0, -1;
    }

    // jsmn_alloc_token: the new index, or -1 where the source returns NULL.
    method AllocToken(tokens: array<Token>) returns (i: int)
      requires Valid(tokens)
      modifies this`toknext, tokens
      ensures old(toknext) >= tokens.Length ==> i == -1 && toknext == old(toknext) && tokens[..] == old(tokens[..])
      ensures old(toknext) < tokens.Length ==>
                i == old(toknext) && toknext == i + 1 && tokens[..i] == old(tokens[..toknext])
                && tokens[i] == Token(old(tokens[toknext]).kind, -1, -1, 0)
    {
      if toknext >= tokens.Length {
        return -1;
      }
      i := toknext;
      toknext := toknext + 1;
      tokens[i] := tokens[i].(start := -1, end := -1, size := 0);
    }

    // jsmn_parse_primitive; on success pos is the primitive's last character.
    method ParsePrimitive(js: string, tokens: array?<Token>) returns (r: Outcome)
      requires !Ended(js, pos) && !Stopper(js[pos])
      requires tokens != null ==> Valid(tokens)
      modifies this`pos, this`toknext
      modifies if tokens == null then {} else {tokens}
      ensures var scan := ScanPrimitive(js, old(pos));
              if scan.Bad? then r == Inval && pos == old(pos) && toknext == old(toknext)
              else if tokens != null && old(toknext) >= tokens.Length then
                r == NoMem && pos == old(pos) && toknext == old(toknext)
              else r == Done(0) && pos + 1 == scan.index
                   && toknext == old(toknext) + if tokens == null then 0 else 1
      ensures tokens != null && r != Done(0) ==> tokens[..] == old(tokens[..])
      ensures tokens != null && r == Done(0) ==>
                tokens[..toknext] == old(tokens[..toknext]) + [Token(Primitive, old(pos), pos + 1, 0)]
    {
      var start := pos;
      while pos < |js| && js[pos] != '\0'
        invariant start <= pos && toknext == old(toknext)
        invariant tokens != null ==> tokens[..] == old(tokens[..])
        invariant ScanPrimitive(js, pos) == ScanPrimitive(js, start)
        decreases |js| - pos
      {
        if Stopper(js[pos]) {
          break;
        }
        if js[pos] as int < 32 || js[pos] as int >= 127 {
          pos := start;
          return Inval;
        }
        pos := pos + 1;
      }
      if tokens == null {
        pos := pos - 1;
        return Done(0);
      }
      var t := AllocToken(tokens);
      if t == -1 {
        pos := start;
        return NoMem;
      }
      tokens[t] := Token(Primitive, start, pos, 0);
      pos := pos - 1;
      return Done(0);
    }

    // The inner loop of a \uXXXX escape: at most four digits from pos on.
    method SkipHex(js: string) returns (ok: bool)
      modifies this`pos
      ensures var h := ScanHex(js, old(pos), 4);
              ok == h.At? && (ok ==> pos == h.index)
    {
      var i := 0;
      while i < 4 && pos < |js| && js[pos] != '\0'
        invariant 0 <= i <= 4
        invariant ScanHex(js, pos, 4 - i) == ScanHex(js, old(pos), 4)
      {
        if !Hex(js[pos]) {
          return false;
        }
        pos := pos + 1;
        i := i + 1;
      }
      return true;
    }

    // The character after a backslash; pos ends on the escape's last character.
    method SkipEscape(js: string) returns (ok: bool)
      requires pos + 1 < |js| && js[pos] == '\\'
      modifies this`pos
      ensures ok ==> old(pos) < pos < |js| && ScanString(js, pos + 1) == ScanString(js, old(pos))
      ensures !ok ==> ScanString(js, old(pos)) == Bad
    {
      pos := pos + 1;
      if SimpleEscape(js[pos]) {
        return true;
      }
      if js[pos] == 'u' {
        pos := pos + 1;
        ok := SkipHex(js);
        if ok {
          pos := pos - 1;
        }
        return ok;
      }
      return false;
    }

    // jsmn_parse_string; on success pos is the closing quote.
    method ParseString(js: string, tokens: array?<Token>) returns (r: Outcome)
      requires pos < |js|
      requires tokens != null ==> Valid(tokens)
      modifies this`pos, this`toknext
      modifies if tokens == null then {} else {tokens}
      ensures var scan := ScanString(js, old(pos) + 1);
              if !scan.At? then r == (if scan.Bad? then Inval else Part) && pos == old(pos) && toknext == old(toknext)
              else if tokens != null && old(toknext) >= tokens.Length then
                r == NoMem && pos == old(pos) && toknext == old(toknext)
              else r == Done(0) && pos == scan.index
                   && toknext == old(toknext) + if tokens == null then 0 else 1
      ensures tokens != null && r != Done(0) ==> tokens[..] == old(tokens[..])
      ensures tokens != null && r == Done(0) ==>
                tokens[..toknext] == old(tokens[..toknext]) + [Token(String, old(pos) + 1, pos, 0)]
    {
      var start := pos;
      pos := pos + 1;
      while pos < |js| && js[pos] != '\0'
        invariant start < pos <= |js| && toknext == old(toknext)
        invariant tokens != null ==> tokens[..] == old(tokens[..])
        invariant ScanString(js, pos) == ScanString(js, start + 1)
        decreases |js| - pos
      {
        var c := js[pos];
        if c == '"' {
          if tokens == null {
            return Done(0);
          }
          var t := AllocToken(tokens);
          if t == -1 {
            pos := start;
            return NoMem;
          }
          tokens[t] := Token(String, start + 1, pos, 0);
          return Done(0);
        }
        if c == '\\' && pos + 1 < |js| {
          var ok := SkipEscape(js);
          if !ok {
            pos := start;
            return Inval;
          }
        }
        pos := pos + 1;
      }
      pos := start;
      return Part;
    }

    // The backward scan for an unclosed token that ']' and '}' perform.
    method FindOpen(tokens: array<Token>, from: int) returns (i: int)
      requires -1 <= from < toknext <= tokens.Length
      ensures i == LastOpen(tokens[..from + 1])
    {
      i := from;
      while i >= 0
        invariant -1 <= i <= from
        invariant LastOpen(tokens[..i + 1]) == LastOpen(tokens[..from + 1])
        decreases i
      {
        assert tokens[..i + 1][..i] == tokens[..i];
        if tokens[i].Open() {
          return;
        }
        i := i - 1;
      }
    }

    method Opening(c: char, tokens: array<Token>) returns (r: Outcome)
      requires Valid(tokens)
      modifies this`toknext, this`toksuper, tokens
      ensures Valid(tokens)
      ensures match OpenStep(c, tokens.Length, old(View(tokens)))
              case Fail(o) => r == o && View(tokens) == old(View(tokens))
              case Next(s) => r == Done(0) && View(tokens) == s.(pos := pos)
    {
      var t := AllocToken(tokens);
      if t == -1 {
        assert tokens[..toknext] == old(tokens[..toknext]);
        return NoMem;
      }
      if toksuper != -1 {
        tokens[toksuper] := tokens[toksuper].(size := tokens[toksuper].size + 1);
      }
      tokens[t] := tokens[t].(kind := if c == '{' then Object else Array, start := pos);
      toksuper := toknext - 1;
      return Done(0);
    }

    method Closing(c: char, tokens: array<Token>) returns (r: Outcome)
      requires Valid(tokens)
      modifies this`toksuper, tokens
      ensures Valid(tokens)
      ensures match CloseStep(c, old(View(tokens)))
              case Fail(o) => r == o && View(tokens) == old(View(tokens))
              case Next(s) => r == Done(0) && View(tokens) == s.(pos := pos)
    {
      var kind := if c == '}' then Object else Array;
      var i := FindOpen(tokens, toknext - 1);
      if i == -1 || tokens[i].kind != kind {
        return Inval;
      }
      tokens[i] := tokens[i].(end := pos + 1);
      var outer := FindOpen(tokens, i);
      ghost var was := old(tokens[..toknext]);
      assert tokens[..i + 1][..i] == was[..i];
      toksuper := outer;
      return Done(0);
    }

    method Comma(tokens: array<Token>)
      requires Valid(tokens)
      modifies this`toksuper
      ensures Valid(tokens)
      ensures View(tokens) == CommaStep(old(View(tokens))).state.(pos := pos)
    {
      if toksuper != -1 && !tokens[toksuper].Container() {
        var i := toknext - 1;
        while i >= 0
          invariant -1 <= i < toknext && toksuper == old(toksuper)
          invariant LastOpenContainer(tokens[..i + 1]) == LastOpenContainer(tokens[..toknext])
          decreases i
        {
          assert tokens[..i + 1][..i] == tokens[..i];
          if tokens[i].Container() && tokens[i].Open() {
            toksuper := i;
            break;
          }
          i := i - 1;
        }
      }
    }

    // After a string or primitive: on success its superior token grows.
    method Settle(r: Outcome, ghost was: State, tokens: array?<Token>)
      requires tokens != null ==> toknext <= tokens.Length && toksuper == was.super && was.Valid()
      requires tokens != null && r != Done(0) ==> toknext == |was.toks| && tokens[..toknext] == was.toks
      requires tokens != null && r == Done(0) ==> toknext == |was.toks| + 1 && tokens[..toknext - 1] == was.toks
      modifies if tokens == null then {} else {tokens}
      ensures tokens != null ==> Valid(tokens)
      ensures tokens != null && r != Done(0) ==> tokens[..toknext] == was.toks
      ensures tokens != null && r == Done(0) ==>
                tokens[..toknext] == Bump(was.toks, was.super) + [old(tokens[toknext - 1])]
    {
      if r == Done(0) && tokens != null && toksuper != -1 {
        tokens[toksuper] := tokens[toksuper].(size := tokens[toksuper].size + 1);
      }
    }

    // The case of a string: parse it, count it, let its superior token grow.
    method StringToken(js: string, tokens: array?<Token>, count: nat) returns (r: Outcome, count': nat)
      requires pos < |js|
      requires tokens != null ==> Valid(tokens) && count == toknext
      modifies this`pos, this`toknext
      modifies if tokens == null then {} else {tokens}
      ensures tokens == null ==>
                toknext == old(toknext) && var scan := ScanString(js, old(pos) + 1);
                if scan.At? then r == Done(0) && pos + 0 == scan.index && count' == count + 1
                else r == if scan.Bad? then Inval else Part
      ensures tokens != null ==>
                Valid(tokens)
                && match StringStep(js, tokens.Length, old(View(tokens)))
                   case Fail(o) => r == o && o != Done(0) && View(tokens) == old(View(tokens))
                   case Next(s) => r == Done(0) && View(tokens) == s.(pos := s.pos - 1) && count' == toknext
    {
      ghost var was := if tokens == null then INIT else View(tokens);
      r := ParseString(js, tokens);
      count' := if r == Done(0) then count + 1 else count;
      Settle(r, was, tokens);
    }

    // The case of a primitive: parse it, count it, let its superior token grow.
    method PrimitiveToken(js: string, tokens: array?<Token>, count: nat) returns (r: Outcome, count': nat)
      requires !Ended(js, pos) && !Stopper(js[pos])
      requires tokens != null ==> Valid(tokens) && count == toknext
      modifies this`pos, this`toknext
      modifies if tokens == null then {} else {tokens}
      ensures tokens == null ==>
                toknext == old(toknext) && var scan := ScanPrimitive(js, old(pos));
                if scan.At? then r == Done(0) && pos + 1 == scan.index && count' == count + 1
                else r == if scan.Bad? then Inval else Part
      ensures tokens != null ==>
                Valid(tokens)
                && match PrimitiveStep(js, tokens.Length, old(View(tokens)))
                   case Fail(o) => r == o && o != Done(0) && View(tokens) == old(View(tokens))
                   case Next(s) => r == Done(0) && View(tokens) == s.(pos := s.pos - 1) && count' == toknext
    {
      ghost var was := if tokens == null then INIT else View(tokens);
      r := ParsePrimitive(js, tokens);
      count' := if r == Done(0) then count + 1 else count;
      Settle(r, was, tokens);
    }

    // The body of jsmn_parse's main loop, without its final pos++.
    method Dispatch(js: string, tokens: array?<Token>, count: nat) returns (r: Outcome, count': nat)
      requires !Ended(js, pos)
      requires tokens != null ==> Valid(tokens) && count == toknext
      modifies this
      modifies if tokens == null then {} else {tokens}
      ensures tokens == null ==>
                toknext == old(toknext) && (r == Done(0) ==> old(pos) < pos + 1 <= |js|)
                && CountRun(js, old(pos), count) == if r == Done(0) then CountRun(js, pos + 1, count') else r
      ensures tokens != null ==>
                Valid(tokens)
                && match Step(js, tokens.Length, old(View(tokens)))
                   case Fail(o) => r == o && o != Done(0) && View(tokens) == old(View(tokens))
                   case Next(s) => r == Done(0) && View(tokens) == s.(pos := s.pos - 1) && count' == toknext
    {
      var c := js[pos];
      r, count' := Done(0), count;
      if OpenBracket(c) {
        count' := count' + 1;
        if tokens != null {
          r := Opening(c, tokens);
        }
      } else if CloseBracket(c) {
        if tokens != null {
          r := Closing(c, tokens);
        }
      } else if c == '"' {
        r, count' := StringToken(js, tokens, count);
      } else if Space(c) {
      } else if c == ':' {
        toksuper := toknext - 1;
      } else if c == ',' {
        if tokens != null {
          Comma(tokens);
        }
      } else {
        r, count' := PrimitiveToken(js, tokens, count);
      }
    }

    // jsmn_parse: with a token array it performs `Run`, without one `CountRun`.
    method Parse(js: string, tokens: array?<Token>) returns (r: Outcome)
      requires tokens != null ==> Valid(tokens)
      modifies this
      modifies if tokens == null then {} else {tokens}
      ensures tokens == null ==> r == CountRun(js, old(pos), old(toknext)) && toknext == old(toknext)
      ensures tokens != null ==>
                Valid(tokens) && RunResult(View(tokens), r) == Run(js, tokens.Length, old(View(tokens)))
    {
      var count := toknext;
      while pos < |js| && js[pos] != '\0'
        invariant tokens == null ==>
            toknext == old(toknext) && CountRun(js, pos, count) == CountRun(js, old(pos), old(toknext))
        invariant tokens != null ==>
            Valid(tokens) && count == toknext
            && Run(js, tokens.Length, View(tokens)) == Run(js, tokens.Length, old(View(tokens)))
        decreases |js| - pos
      {
        ghost var was := if tokens == null then INIT else View(tokens);
        r, count := Dispatch(js, tokens, count);
        if r != Done(0) {
          return;
        }
        pos := pos + 1;
        assert tokens != null ==> View(tokens) == Step(js, tokens.Length, was).state;
      }
      if tokens != null {
        assert tokens[..toknext - 1 + 1] == tokens[..toknext];
        var i := FindOpen(tokens, toknext - 1);
        if i >= 0 {
          return Part;
        }
      }
      return Done(count);
    }
  }
}
