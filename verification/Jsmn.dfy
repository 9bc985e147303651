/** The JSON tokenizer applications/jsmn.c, non-strict and without parent links, as it is built here. */
module Jsmn {
  import opened Lists

  datatype Kind = Undefined | Object | Array | Str | Primitive

  datatype Token = Token(kind: Kind, start: int, end: int, size: int)

  const NOMEM := -1
  const INVAL := -2
  const PART := -3

  /** The parser with the tokens allocated so far; `super` is the index of the superior token or -1. */
  datatype State = State(pos: nat, toks: seq<Token>, super: int, count: nat)

  datatype Outcome = Next(st: State) | Stop(code: int, st: State)

  datatype Result = Result(code: int, st: State)

  // ----- scanning -----

  predicate AtEnd(js: string, pos: nat) {
    pos >= |js| || js[pos] == '\0'
  }

  predicate Blank(c: char) {
    c == '\t' || c == '\r' || c == '\n' || c == ' '
  }

  predicate Delimiter(c: char) {
    Blank(c) || c == ':' || c == ',' || c == ']' || c == '}'
  }

  predicate Printable(c: char) {
    32 <= c as int < 127
  }

  /** Where the primitive that is being read at `pos` ends, if all its characters are printable. */
  function PrimEnd(js: string, pos: nat): (e: Option<nat>)
    requires pos <= |js|
    ensures e.Some? ==> pos <= e.value <= |js| && (AtEnd(js, e.value) || Delimiter(js[e.value]))
    ensures e.Some? && !AtEnd(js, pos) && !Delimiter(js[pos]) ==> pos < e.value
    decreases |js| - pos
  {
    if AtEnd(js, pos) || Delimiter(js[pos]) then Some(pos)
    else if !Printable(js[pos]) then None
    else PrimEnd(js, pos + 1)
  }

  predicate Hex(c: char) {
    48 <= c as int <= 57 || 65 <= c as int <= 70 || 97 <= c as int <= 102
  }

  predicate SimpleEscape(c: char) {
    c == '\"' || c == '/' || c == '\\' || c == 'b' || c == 'f' || c == 'r' || c == 'n' || c == 't'
  }

  /** Up to n hex digits; None on a character that is none. */
  function HexEnd(js: string, pos: nat, n: nat): (e: Option<nat>)
    requires pos <= |js|
    ensures e.Some? ==> pos <= e.value <= |js|
    decreases n
  {
    if n == 0 || AtEnd(js, pos) then Some(pos)
    else if !Hex(js[pos]) then None
    else HexEnd(js, pos + 1, n - 1)
  }

  datatype Quoted = Closed(at: nat) | Unclosed | Malformed

  /** What becomes of the string whose characters are being read at `pos`. */
  function StringEnd(js: string, pos: nat): (q: Quoted)
    requires pos <= |js|
    ensures q.Closed? ==> pos <= q.at < |js| && js[q.at] == '\"'
    decreases |js| - pos
  {
    if AtEnd(js, pos) then Unclosed
    else if js[pos] == '\"' then Closed(pos)
    else if js[pos] == '\\' && pos + 1 < |js| then
      if SimpleEscape(js[pos + 1]) then StringEnd(js, pos + 2)
      else if js[pos + 1] == 'u' then
        match HexEnd(js, pos + 2, 4)
        case None => Malformed
        case Some(e) => StringEnd(js, e)
      else Malformed
    else StringEnd(js, pos + 1)
  }

  // ----- tokens -----

  predicate Container(k: Kind) { k == Object || k == Array }

  predicate Open(t: Token) { t.start != -1 && t.end == -1 }

  /** The index of the last open token, or -1. */
  function LastOpen(toks: seq<Token>): (i: int)
    ensures -1 <= i < |toks|
    ensures i != -1 ==> Open(toks[i])
    ensures forall j :: i < j < |toks| ==> !Open(toks[j])
  {
    if toks == [] then -1
    else if Open(toks[|toks| - 1]) then |toks| - 1
    else LastOpen(toks[..|toks| - 1])
  }

  function LastOpenContainer(toks: seq<Token>): (i: int)
    ensures -1 <= i < |toks|
    ensures i != -1 ==> Open(toks[i]) && Container(toks[i].kind)
    ensures forall j :: i < j < |toks| ==> !(Open(toks[j]) && Container(toks[j].kind))
  {
    if toks == [] then -1
    else if Open(toks[|toks| - 1]) && Container(toks[|toks| - 1].kind) then |toks| - 1
    else LastOpenContainer(toks[..|toks| - 1])
  }

  predicate SuperOk(st: State) { -1 <= st.super < |st.toks| }

  /** One more child for the superior token. */
  function Bump(toks: seq<Token>, super: int): (r: seq<Token>)
    requires -1 <= super < |toks|
    ensures |r| == |toks|
  {
    if super == -1 then toks else toks[super := toks[super].(size := toks[super].size + 1)]
  }

  predicate Full(st: State, cap: Option<nat>) {
    cap.Some? && |st.toks| >= cap.value
  }

  /** A finished string or primitive; without a token array it is only counted. */
  function Emit(st: State, cap: Option<nat>, t: Token, pos: nat): Outcome
    requires SuperOk(st)
  {
    if cap == None then Next(st.(pos := pos, count := st.count + 1))
    else if Full(st, cap) then Stop(NOMEM, st)
    else Next(State(pos, Bump(st.toks, st.super) + [t], st.super, st.count + 1))
  }

  function OpenBracket(st: State, cap: Option<nat>, k: Kind): Outcome
    requires SuperOk(st)
  {
    if cap == None then Next(st.(pos := st.pos + 1, count := st.count + 1))
    else if Full(st, cap) then Stop(NOMEM, st)
    else Next(State(st.pos + 1, Bump(st.toks, st.super) + [Token(k, st.pos, -1, 0)], |st.toks|, st.count + 1))
  }

  function CloseBracket(st: State, cap: Option<nat>, k: Kind): Outcome {
    if cap == None then Next(st.(pos := st.pos + 1))
    else
      var i := LastOpen(st.toks);
      if i == -1 || st.toks[i].kind != k then Stop(INVAL, st)
      else
        var toks := st.toks[i := st.toks[i].(end := st.pos + 1)];
        Next(st.(pos := st.pos + 1, toks := toks, super := LastOpen(toks)))
  }

  function Comma(st: State, cap: Option<nat>): Outcome
    requires SuperOk(st)
  {
    var i := LastOpenContainer(st.toks);
    if cap.Some? && st.super != -1 && !Container(st.toks[st.super].kind) && i != -1
    then Next(st.(pos := st.pos + 1, super := i))
    else Next(st.(pos := st.pos + 1))
  }

  /** One round of the loop of `jsmn_parse`. */
  function Step(js: string, st: State, cap: Option<nat>): (o: Outcome)
    requires !AtEnd(js, st.pos) && SuperOk(st)
    ensures o.Next? ==> st.pos < o.st.pos <= |js| && SuperOk(o.st)
  {
    var c := js[st.pos];
    if c == '{' then OpenBracket(st, cap, Object)
    else if c == '[' then OpenBracket(st, cap, Array)
    else if c == '}' then CloseBracket(st, cap, Object)
    else if c == ']' then CloseBracket(st, cap, Array)
    else if c == '\"' then
      match StringEnd(js, st.pos + 1)
      case Malformed => Stop(INVAL, st)
      case Unclosed => Stop(PART, st)
      case Closed(e) => Emit(st, cap, Token(Str, st.pos + 1, e, 0), e + 1)
    else if Blank(c) then Next(st.(pos := st.pos + 1))
    else if c == ':' then Next(st.(pos := st.pos + 1, super := |st.toks| - 1))
    else if c == ',' then Comma(st, cap)
    else
      match PrimEnd(js, st.pos)
      case None => Stop(INVAL, st)
      case Some(e) => Emit(st, cap, Token(Primitive, st.pos, e, 0), e)
  }

  /** `jsmn_parse` from state st; `cap` is the number of tokens, None for a null token array. */
  function Run(js: string, st: State, cap: Option<nat>): Result
    requires SuperOk(st)
    decreases |js| - st.pos
  {
    if AtEnd(js, st.pos) then
      Result(if cap.Some? && LastOpen(st.toks) != -1 then PART else st.count, st)
    else
      match Step(js, st, cap)
      case Stop(code, end) => Result(code, end)
      case Next(next) => Run(js, next, cap)
  }

  /** Tokens that an earlier call wrote into an array this call does not see. */
  function Unknown(n: nat): (toks: seq<Token>)
    ensures |toks| == n
  {
    seq(n, _ => Token(Undefined, -1, -1, 0))
  }

  /** What `jsmn_init` makes of a parser. */
  const FRESH := State(0, [], -1, 0)

  // ----- the parser object -----

  class Parser {
    var pos: nat
    var toknext: nat
    var toksuper: int

    /** `jsmn_init` */
    constructor ()
      ensures pos == 0 && toknext == 0 && toksuper == -1
    {
      pos, toknext, toksuper := 0, 0, -1;
    }

    /** The allocated tokens fit into the token array, if there is one. */
    ghost predicate Valid(tokens: array?<Token>, num: nat)
      reads this
    {
      -1 <= toksuper < toknext && (tokens != null ==> toknext <= num <= tokens.Length)
    }

    /** What the parser and its token array stand for; without an array only the number of tokens is known. */

    ghost function View(tokens: array?<Token>, num: nat, count: nat): State
      requires Valid(tokens, num)
      reads this, tokens
    {
      State(pos, if tokens == null then Unknown(toknext) else tokens[..toknext], toksuper, count)
    }

    /** `jsmn_alloc_token`; the slot is -1 for a null pointer. */
    method AllocToken(tokens: array<Token>, num: nat) returns (slot: int)
      requires Valid(tokens, num)
      modifies this`toknext, tokens
      ensures if old(toknext) >= num
              then slot == -1 && toknext == old(toknext) && tokens[..] == old(tokens[..])
              else slot == old(toknext) && toknext == slot + 1
                   && tokens[..toknext] == old(tokens[..slot]) + [Token(Undefined, -1, -1, 0)]
    {
      if toknext >= num {
        return -1;
      }
      slot := toknext;
      toknext := toknext + 1;
      tokens[slot] := Token(Undefined, -1, -1, 0);
    }

    /** The end of `jsmn_parse_primitive` and `jsmn_parse_string`: allocate and fill a token, or restore
        the position. */
    method Fill(tokens: array<Token>, num: nat, start: nat, t: Token) returns (code: int)
      requires Valid(tokens, num)
      modifies this`pos, this`toknext, tokens
      ensures Valid(tokens, num)
      ensures if old(toknext) >= num
              then code == NOMEM && pos == start && toknext == old(toknext) && tokens[..] == old(tokens[..])
              else code == 0 && pos == old(pos) && toknext == old(toknext) + 1
                   && tokens[..toknext] == old(tokens[..toknext]) + [t]
    {
      var slot := AllocToken(tokens, num);
      if slot == -1 {
        pos := start;
        return NOMEM;
      }
      tokens[slot] := t;
      code := 0;
    }

    /** `jsmn_parse_primitive`. On success the position is that of the last character of the primitive. */
    method ParsePrimitive(js: string, tokens: array?<Token>, num: nat) returns (code: int)
      requires Valid(tokens, num) && !AtEnd(js, pos) && !Delimiter(js[pos])
      modifies this`pos, this`toknext, tokens
      ensures Valid(tokens, num)
      ensures match PrimEnd(js, old(pos))
        case None => code == INVAL && pos == old(pos) && Untouched(tokens)
        case Some(e) => Filled(tokens, num, code, old(pos), e - 1, Token(Primitive, old(pos), e, 0))
    {
      var start := pos;
      while !AtEnd(js, pos) && !Delimiter(js[pos])
        invariant start <= pos <= |js| && PrimEnd(js, pos) == PrimEnd(js, start)
        invariant toknext == old(toknext) && toksuper == old(toksuper)
        invariant tokens != null ==> tokens[..] == old(tokens[..])
        invariant pos == start ==> !AtEnd(js, pos) && !Delimiter(js[pos])
        decreases |js| - pos
      {
        if !Printable(js[pos]) {
          pos := start;
          return INVAL;
        }
        pos := pos + 1;
      }
      if tokens == null {
        pos := pos - 1;
        return 0;
      }
      code := Fill(tokens, num, start, Token(Primitive, start, pos, 0));
      if code == 0 {
        pos := pos - 1;
      }
    }

    /** `jsmn_parse_string`. On success the position is that of the closing quote. */
    method ParseString(js: string, tokens: array?<Token>, num: nat) returns (code: int)
      requires Valid(tokens, num) && !AtEnd(js, pos)
      modifies this`pos, this`toknext, tokens
      ensures Valid(tokens, num)
      ensures match StringEnd(js, old(pos) + 1)
        case Malformed => code == INVAL && pos == old(pos) && Untouched(tokens)
        case Unclosed => code == PART && pos == old(pos) && Untouched(tokens)
        case Closed(e) => Filled(tokens, num, code, old(pos), e, Token(Str, old(pos) + 1, e, 0))
    {
      var start := pos;
      pos := pos + 1;
      while !AtEnd(js, pos)
        invariant start < pos <= |js| && StringEnd(js, pos) == StringEnd(js, start + 1)
        invariant toknext == old(toknext) && (tokens != null ==> tokens[..] == old(tokens[..]))
        decreases |js| - pos
      {
        var c := js[pos];
        if c == '\"' {
          if tokens == null {
            return 0;
          }
          code := Fill(tokens, num, start, Token(Str, start + 1, pos, 0));
          return;
        }
        if c == '\\' && pos + 1 < |js| {
          pos := pos + 1;
          if js[pos] == 'u' {
            pos := pos + 1;
            var ok := SkipHex(js);
            if !ok {
              pos := start;
              return INVAL;
            }
            pos := pos - 1;
          } else if !SimpleEscape(js[pos]) {
            pos := start;
            return INVAL;
          }
        }
        pos := pos + 1;
      }
      pos := start;
      code := PART;
    }

    /** The loop over the four digits of a \u escape. */
    method SkipHex(js: string) returns (ok: bool)
      requires pos <= |js|
      modifies this`pos
      ensures ok <==> HexEnd(js, old(pos), 4).Some?
      ensures ok ==> pos == HexEnd(js, old(pos), 4).value
    {
      var i := 0;
      while i < 4 && !AtEnd(js, pos)
        invariant i <= 4 && pos <= |js| && HexEnd(js, pos, 4 - i) == HexEnd(js, old(pos), 4)
      {
        if !Hex(js[pos]) {
          return false;
        }
        pos := pos + 1;
        i := i + 1;
      }
      ok := true;
    }

    /** No token was allocated and nothing was written. */
    twostate predicate Untouched(tokens: array?<Token>)
      reads this, tokens
    {
      toknext == old(toknext) && (tokens != null ==> tokens[..] == old(tokens[..]))
    }

    /** Token t was allocated and the position is `last`; or there was no array; or it was full. */
    twostate predicate Filled(tokens: array?<Token>, num: nat, code: int, start: nat, last: nat, t: Token)
      requires old(Valid(tokens, num)) && Valid(tokens, num)
      reads this, tokens
    {
      if tokens == null then code == 0 && pos == last && toknext == old(toknext)
      else if old(toknext) >= num then code == NOMEM && pos == start && Untouched(tokens)
      else code == 0 && pos == last && toknext == old(toknext) + 1 && tokens[..toknext] == old(tokens[..toknext]) + [t]
    }

    /** A string or primitive that was just allocated is one more child of the superior token, if there is one. */
    method CountChild(tokens: array<Token>, num: nat)
      requires 0 < toknext <= tokens.Length && -1 <= toksuper < toknext - 1
      modifies tokens
      ensures tokens[..toknext] == Bump(old(tokens[..toknext - 1]), toksuper) + [old(tokens[toknext - 1])]
    {
      if toksuper != -1 {
        tokens[toksuper] := tokens[toksuper].(size := tokens[toksuper].size + 1);
      }
    }

    /** The case of an opening bracket. */
    method BeginContainer(tokens: array<Token>, num: nat, k: Kind) returns (ok: bool)
      requires Valid(tokens, num)
      modifies this`toknext, this`toksuper, tokens
      ensures Valid(tokens, num) && ok == (old(toknext) < num)
      ensures !ok ==> toknext == old(toknext) && toksuper == old(toksuper) && tokens[..] == old(tokens[..])
      ensures ok ==> toknext == old(toknext) + 1 && toksuper == old(toknext)
      ensures ok ==> tokens[..toknext] == Bump(old(tokens[..toknext]), old(toksuper)) + [Token(k, pos, -1, 0)]
    {
      var slot := AllocToken(tokens, num);
      if slot == -1 {
        return false;
      }
      if toksuper != -1 {
        tokens[toksuper] := tokens[toksuper].(size := tokens[toksuper].size + 1);
      }
      tokens[slot] := tokens[slot].(kind := k, start := pos);
      toksuper := toknext - 1;
      ok := true;
    }

    /** The case of a closing bracket: the last open token must be of the same kind; the open one
        before it becomes superior. */
    method EndContainer(tokens: array<Token>, num: nat, k: Kind) returns (ok: bool)
      requires Valid(tokens, num)
      modifies this`toksuper, tokens
      ensures Valid(tokens, num)
      ensures var toks := old(tokens[..toknext]); var i := LastOpen(toks);
        && ok == (i != -1 && toks[i].kind == k)
        && (!ok ==> toksuper == old(toksuper) && tokens[..toknext] == toks)
        && (ok ==> tokens[..toknext] == toks[i := toks[i].(end := pos + 1)] && toksuper == LastOpen(tokens[..toknext]))
    {
      var i := toknext - 1;
      while i >= 0 && !Open(tokens[i])
        invariant -1 <= i < toknext && forall j :: i < j < toknext ==> !Open(tokens[j])
      {
        i := i - 1;
      }
      ghost var toks := tokens[..toknext];
      LastOpenIs(toks, i);
      if i == -1 || tokens[i].kind != k {
        return false;
      }
      toksuper := -1;
      tokens[i] := tokens[i].(end := pos + 1);
      while i >= 0 && !Open(tokens[i])
        invariant -1 <= i < toknext && forall j :: i < j < toknext ==> !Open(tokens[j])
      {
        i := i - 1;
      }
      LastOpenIs(tokens[..toknext], i);
      if i >= 0 {
        toksuper := i;
      }
      ok := true;
    }

    /** The case of a comma: a key gives way to the container it is in. */
    method NextItem(tokens: array<Token>, num: nat)
      requires Valid(tokens, num)
      modifies this`toksuper
      ensures Valid(tokens, num)
      ensures Comma(old(View(tokens, num, 0)), Some(num)) == Next(View(tokens, num, 0).(pos := pos + 1))
    {
      if toksuper != -1 && tokens[toksuper].kind != Array && tokens[toksuper].kind != Object {
        var i := toknext - 1;
        while i >= 0 && !(Open(tokens[i]) && Container(tokens[i].kind))
          invariant -1 <= i < toknext && forall j :: i < j < toknext ==> !(Open(tokens[j]) && Container(tokens[j].kind))
        {
          i := i - 1;
        }
        LastOpenContainerIs(tokens[..toknext], i);
        if i >= 0 {
          toksuper := i;
        }
      }
    }

    /** `jsmn_parse` */
    method Parse(js: string, tokens: array?<Token>, num: nat) returns (r: int)
      requires Valid(tokens, num)
      modifies this, tokens
      ensures Valid(tokens, num)
      ensures var res := Run(js, old(View(tokens, num, toknext)), if tokens == null then None else Some(num));
        r == res.code && View(tokens, num, res.st.count) == res.st
    {
      var count := toknext;
      ghost var cap := if tokens == null then None else Some(num);
      while !AtEnd(js, pos)
        invariant Valid(tokens, num)
        invariant Run(js, View(tokens, num, count), cap) == Run(js, old(View(tokens, num, toknext)), cap)
        decreases |js| - pos
      {
        var code;
        code, count := Round(js, tokens, num, count);
        if code < 0 {
          return code;
        }
      }
      if tokens != null {
        var i := toknext - 1;
        while i >= 0
          invariant -1 <= i < toknext && forall j :: i < j < toknext ==> !Open(tokens[j])
        {
          if Open(tokens[i]) {
            LastOpenIs(tokens[..toknext], i);
            return PART;
          }
          i := i - 1;
        }
        LastOpenIs(tokens[..toknext], -1);
      }
      r := count;
    }

    /** Parser, tokens and counter after a round, or after the round that ended the loop with an error. */
    ghost predicate Does(o: Outcome, tokens: array?<Token>, num: nat, code: int, count: nat)
      reads this, tokens
    {
      && Valid(tokens, num)
      && match o
         case Next(st) => code >= 0 && View(tokens, num, count) == st
         case Stop(c, st) => code == c && code < 0 && View(tokens, num, st.count) == st
    }

    /** One round of the loop of `jsmn_parse`. */
    method Round(js: string, tokens: array?<Token>, num: nat, count0: nat) returns (code: int, count: nat)
      requires Valid(tokens, num) && !AtEnd(js, pos)
      modifies this, tokens
      ensures Does(Step(js, old(View(tokens, num, count0)), if tokens == null then None else Some(num)),
                   tokens, num, code, count)
    {
      code, count := 0, count0;
      var c := js[pos];
      if c == '{' || c == '[' {
        code, count := RoundOpen(tokens, num, count0, if c == '{' then Object else Array);
      } else if c == '}' || c == ']' {
        code := RoundClose(tokens, num, count0, if c == '}' then Object else Array);
      } else if c == '\"' {
        code, count := RoundString(js, tokens, num, count0);
      } else if Blank(c) {
        pos := pos + 1;
      } else if c == ':' {
        toksuper := toknext - 1;
        pos := pos + 1;
      } else if c == ',' {
        if tokens != null {
          NextItem(tokens, num);
        }
        pos := pos + 1;
      } else {
        code, count := RoundPrimitive(js, tokens, num, count0);
      }
    }

    method RoundOpen(tokens: array?<Token>, num: nat, count0: nat, k: Kind) returns (code: int, count: nat)
      requires Valid(tokens, num)
      modifies this, tokens
      ensures Does(OpenBracket(old(View(tokens, num, count0)), if tokens == null then None else Some(num), k),
                   tokens, num, code, count)
    {
      code, count := 0, count0 + 1;
      if tokens != null {
        var ok := BeginContainer(tokens, num, k);
        if !ok {
          return NOMEM, count;
        }
      }
      pos := pos + 1;
    }

    method RoundClose(tokens: array?<Token>, num: nat, count: nat, k: Kind) returns (code: int)
      requires Valid(tokens, num)
      modifies this, tokens
      ensures Does(CloseBracket(old(View(tokens, num, count)), if tokens == null then None else Some(num), k),
                   tokens, num, code, count)
    {
      code := 0;
      if tokens != null {
        var ok := EndContainer(tokens, num, k);
        if !ok {
          return INVAL;
        }
      }
      pos := pos + 1;
    }

    method RoundString(js: string, tokens: array?<Token>, num: nat, count0: nat) returns (code: int, count: nat)
      requires Valid(tokens, num) && !AtEnd(js, pos)
      modifies this, tokens
      ensures var st := old(View(tokens, num, count0));
        Does(match StringEnd(js, st.pos + 1)
             case Malformed => Stop(INVAL, st)
             case Unclosed => Stop(PART, st)
             case Closed(e) =>
               Emit(st, if tokens == null then None else Some(num), Token(Str, st.pos + 1, e, 0), e + 1),
             tokens, num, code, count)
    {
      count := count0;
      code := ParseString(js, tokens, num);
      if code < 0 {
        return;
      }
      count := count + 1;
      if tokens != null {
        CountChild(tokens, num);
      }
      pos := pos + 1;
    }

    method RoundPrimitive(js: string, tokens: array?<Token>, num: nat, count0: nat) returns (code: int, count: nat)
      requires Valid(tokens, num) && !AtEnd(js, pos) && !Delimiter(js[pos])
      modifies this, tokens
      ensures var st := old(View(tokens, num, count0));
        Does(match PrimEnd(js, st.pos)
             case None => Stop(INVAL, st)
             case Some(e) => Emit(st, if tokens == null then None else Some(num), Token(Primitive, st.pos, e, 0), e),
             tokens, num, code, count)
    {
      count := count0;
      code := ParsePrimitive(js, tokens, num);
      if code < 0 {
        return;
      }
      count := count + 1;
      if tokens != null {
        CountChild(tokens, num);
      }
      pos := pos + 1;
    }
  }

  lemma LastOpenIs(toks: seq<Token>, i: int)
    requires -1 <= i < |toks| && (i != -1 ==> Open(toks[i])) && forall j :: i < j < |toks| ==> !Open(toks[j])
    ensures LastOpen(toks) == i
  {
  }

  lemma LastOpenContainerIs(toks: seq<Token>, i: int)
    requires -1 <= i < |toks| && (i != -1 ==> Open(toks[i]) && Container(toks[i].kind))
    requires forall j :: i < j < |toks| ==> !(Open(toks[j]) && Container(toks[j].kind))
    ensures LastOpenContainer(toks) == i
  {
  }
}
