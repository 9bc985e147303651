/** jsmn against the JSON grammar of RFC 8259: for every JSON text the tokens are the preorder
    flattening of its tree. */
module JsmnGrammar {
  import opened Lists
  import opened Jsmn

  // ----- RFC 8259, sections 2 to 7 -----

  datatype Exponent = Exponent(e: char, sign: string, digits: string)

  datatype Number = Number(minus: bool, whole: string, fraction: Option<string>, exponent: Option<Exponent>)

  /** One character of a string: unescaped, a two-character escape, or \u with four hex digits. */
  datatype Piece = Plain(c: char) | Escape(c: char) | Unicode(a: char, b: char, c: char, d: char)

  datatype Value =
    | JFalse | JNull | JTrue
    | JNumber(n: Number)
    | JString(s: seq<Piece>)
    | JArray(pad: string, elems: Elems)
    | JObject(pad: string, members: Members)

  /** Elements with the white space around them; `rest` follows after a comma. */
  datatype Elems = NoElems | Elem(before: string, v: Value, after: string, rest: Elems)

  datatype Members =
    NoMembers
    | Member(before: string, key: seq<Piece>, mid: string, before2: string, v: Value, after: string, rest: Members)

  /** Section 2: space, horizontal tab, line feed, carriage return. */
  predicate WhiteSpace(c: char) {
    c == ' ' || c == '\t' || c == '\n' || c == '\r'
  }

  /** Section 7: the characters that make a two-character escape. */
  predicate ShortEscape(c: char) {
    c == '\"' || c == '\\' || c == '/' || c == 'b' || c == 'f' || c == 'n' || c == 'r' || c == 't'
  }

  /** Section 7: hexadecimal digits, in upper or lower case. */
  predicate HexDigit(c: char) {
    '0' <= c <= '9' || 'A' <= c <= 'F' || 'a' <= c <= 'f'
  }

  predicate Digits(s: string) {
    s != "" && forall i :: 0 <= i < |s| ==> '0' <= s[i] <= '9'
  }

  predicate ValidNumber(n: Number) {
    && Digits(n.whole) && (n.whole[0] == '0' ==> |n.whole| == 1)
    && (n.fraction.Some? ==> Digits(n.fraction.value))
    && (n.exponent.Some? ==>
          && (n.exponent.value.e == 'e' || n.exponent.value.e == 'E')
          && (n.exponent.value.sign == "" || n.exponent.value.sign == "-" || n.exponent.value.sign == "+")
          && Digits(n.exponent.value.digits))
  }

  predicate ValidPiece(p: Piece) {
    match p
    case Plain(c) => c as int >= 0x20 && c != '\"' && c != '\\'
    case Escape(c) => ShortEscape(c)
    case Unicode(a, b, c, d) => HexDigit(a) && HexDigit(b) && HexDigit(c) && HexDigit(d)
  }

  predicate Ws(s: string) {
    forall i :: 0 <= i < |s| ==> WhiteSpace(s[i])
  }

  predicate ValidPieces(s: seq<Piece>) {
    forall i :: 0 <= i < |s| ==> ValidPiece(s[i])
  }

  predicate Valid(v: Value) {
    match v
    case JNumber(n) => ValidNumber(n)
    case JString(s) => ValidPieces(s)
    case JArray(pad, es) => Ws(pad) && ValidElems(es)
    case JObject(pad, ms) => Ws(pad) && ValidMembers(ms)
    case _ => true
  }

  predicate ValidElems(es: Elems) {
    es.Elem? ==> Ws(es.before) && Valid(es.v) && Ws(es.after) && ValidElems(es.rest)
  }

  predicate ValidMembers(ms: Members) {
    ms.Member? ==>
      && Ws(ms.before) && ValidPieces(ms.key) && Ws(ms.mid) && Ws(ms.before2) && Valid(ms.v) && Ws(ms.after)
      && ValidMembers(ms.rest)
  }

  // ----- spelling -----

  function NumberText(n: Number): string {
    (if n.minus then "-" else "") + n.whole +
    (if n.fraction.Some? then "." + n.fraction.value else "") +
    (if n.exponent.Some? then [n.exponent.value.e] + n.exponent.value.sign + n.exponent.value.digits else "")
  }

  function PieceText(p: Piece): string {
    match p
    case Plain(c) => [c]
    case Escape(c) => ['\\', c]
    case Unicode(a, b, c, d) => ['\\', 'u', a, b, c, d]
  }

  function Body(s: seq<Piece>): string {
    if s == [] then "" else PieceText(s[0]) + Body(s[1..])
  }

  function Quote(s: seq<Piece>): string {
    "\"" + (Body(s) + "\"")
  }

  function Text(v: Value): string {
    match v
    case JFalse => "false"
    case JNull => "null"
    case JTrue => "true"
    case JNumber(n) => NumberText(n)
    case JString(s) => Quote(s)
    case JArray(pad, es) => "[" + ArrayText(pad, es)
    case JObject(pad, ms) => "{" + ObjectText(pad, ms)
  }

  /** An array behind its opening bracket. */
  function ArrayText(pad: string, es: Elems): (s: string)
    ensures s != ""
    decreases es, 2
  {
    if es.NoElems? then pad + "]" else ElemsText(es)
  }

  /** An object behind its opening bracket. */
  function ObjectText(pad: string, ms: Members): (s: string)
    ensures s != ""
    decreases ms, 3
  {
    if ms.NoMembers? then pad + "}" else MembersText(ms)
  }

  /** Elements up to and including the closing bracket. */
  function ElemsText(es: Elems): (s: string)
    requires es.Elem?
    ensures s != ""
    decreases es, 1
  {
    es.before + (Text(es.v) + (es.after + ElemsTail(es)))
  }

  function ElemsTail(es: Elems): (s: string)
    requires es.Elem?
    ensures s != ""
    decreases es, 0
  {
    if es.rest.Elem? then "," + ElemsText(es.rest) else "]"
  }

  /** Members up to and including the closing bracket. */
  function MembersText(ms: Members): (s: string)
    requires ms.Member?
    ensures s != ""
    decreases ms, 2
  {
    ms.before + (Quote(ms.key) + (ms.mid + (":" + ValueText(ms))))
  }

  /** The part of a member behind its colon, and what follows the member. */
  function ValueText(ms: Members): string
    requires ms.Member?
    decreases ms, 1
  {
    ms.before2 + (Text(ms.v) + (ms.after + MembersTail(ms)))
  }

  function MembersTail(ms: Members): (s: string)
    requires ms.Member?
    ensures s != ""
    decreases ms, 0
  {
    if ms.rest.Member? then "," + MembersText(ms.rest) else "}"
  }

  // ----- preorder flattening -----

  function CountElems(es: Elems): nat {
    if es.Elem? then 1 + CountElems(es.rest) else 0
  }

  function CountMembers(ms: Members): nat {
    if ms.Member? then 1 + CountMembers(ms.rest) else 0
  }

  /** The tokens of the value whose text begins at position `at`. */
  function Flatten(v: Value, at: nat): (toks: seq<Token>)
    ensures toks != []
  {
    match v
    case JString(s) => [Token(Str, at + 1, at + 1 + |Body(s)|, 0)]
    case JArray(_, es) => [Token(Array, at, at + |Text(v)|, CountElems(es))] + FlattenElems(es, at + 1)
    case JObject(_, ms) => [Token(Object, at, at + |Text(v)|, CountMembers(ms))] + FlattenMembers(ms, at + 1)
    case _ => [Token(Primitive, at, at + |Text(v)|, 0)]
  }

  function ElemLength(es: Elems): nat
    requires es.Elem?
  {
    |es.before| + |Text(es.v)| + |es.after|
  }

  function FlattenElems(es: Elems, at: nat): seq<Token> {
    if es.NoElems? then []
    else Flatten(es.v, at + |es.before|) + FlattenElems(es.rest, at + ElemLength(es) + 1)
  }

  /** Where the value of a member begins whose text begins at `at`. */
  function ValueAt(ms: Members, at: nat): nat
    requires ms.Member?
  {
    at + |ms.before| + |Body(ms.key)| + 2 + |ms.mid| + 1 + |ms.before2|
  }

  function MemberLength(ms: Members): nat
    requires ms.Member?
  {
    ValueAt(ms, 0) + |Text(ms.v)| + |ms.after|
  }

  /** A key is a string token of size 1: its value is its only child. */
  function MemberTokens(ms: Members, at: nat): seq<Token>
    requires ms.Member?
    decreases ms, 0
  {
    var key := at + |ms.before| + 1;
    [Token(Str, key, key + |Body(ms.key)|, 1)] + Flatten(ms.v, ValueAt(ms, at))
  }

  function FlattenMembers(ms: Members, at: nat): seq<Token>
    decreases ms, 1
  {
    if ms.NoMembers? then []
    else MemberTokens(ms, at) + FlattenMembers(ms.rest, at + MemberLength(ms) + 1)
  }

  /** The length of the text of an element list, its closing bracket not counted. */
  function ElemsLength(es: Elems): nat
    requires es.Elem?
  {
    ElemLength(es) + if es.rest.Elem? then 1 + ElemsLength(es.rest) else 0
  }

  lemma {:induction false} ElemsTextLength(es: Elems)
    requires es.Elem?
    ensures |ElemsText(es)| == ElemsLength(es) + 1
  {
    if es.rest.Elem? {
      ElemsTextLength(es.rest);
    }
  }

  function MembersLength(ms: Members): nat
    requires ms.Member?
  {
    MemberLength(ms) + if ms.rest.Member? then 1 + MembersLength(ms.rest) else 0
  }

  lemma {:induction false} MembersTextLength(ms: Members)
    requires ms.Member?
    ensures |MembersText(ms)| == MembersLength(ms) + 1
  {
    assert |ValueText(ms)| == |ms.before2| + |Text(ms.v)| + |ms.after| + |MembersTail(ms)|;
    assert |Quote(ms.key)| == |Body(ms.key)| + 2;
    if ms.rest.Member? {
      MembersTextLength(ms.rest);
    }
  }

  // ----- occurrences -----

  ghost predicate Occurs(js: string, pos: nat, s: string) {
    pos + |s| <= |js| && js[pos..pos + |s|] == s
  }

  lemma OccursConcat(js: string, pos: nat, a: string, b: string)
    requires Occurs(js, pos, a + b)
    ensures Occurs(js, pos, a) && Occurs(js, pos + |a|, b)
  {
    assert js[pos..pos + |a|] == (a + b)[..|a|];
    assert js[pos + |a|..pos + |a| + |b|] == (a + b)[|a|..];
  }

  lemma OccursAt(js: string, pos: nat, s: string, i: nat)
    requires Occurs(js, pos, s) && i < |s|
    ensures js[pos + i] == s[i]
  {
    assert js[pos..pos + |s|][i] == s[i];
  }

  /** A value must be followed by the end of the text, white space or a structural character. */
  ghost predicate Boundary(js: string, pos: nat) {
    AtEnd(js, pos) || Delimiter(js[pos])
  }

  // ----- scanning a literal or a string -----

  predicate Bare(c: char) { Printable(c) && !Delimiter(c) }

  lemma {:induction false} PrimEndText(js: string, pos: nat, s: string)
    requires Occurs(js, pos, s) && Boundary(js, pos + |s|) && forall i :: 0 <= i < |s| ==> Bare(s[i])
    ensures PrimEnd(js, pos) == Some(pos + |s|)
    decreases |s|
  {
    if s != "" {
      OccursAt(js, pos, s, 0);
      assert s == [s[0]] + s[1..];
      OccursConcat(js, pos, [s[0]], s[1..]);
      PrimEndText(js, pos + 1, s[1..]);
    }
  }

  lemma {:induction false} StringEndBody(js: string, pos: nat, s: seq<Piece>)
    requires ValidPieces(s) && Occurs(js, pos, Body(s) + "\"")
    ensures StringEnd(js, pos) == Closed(pos + |Body(s)|)
    decreases |s|
  {
    OccursAt(js, pos, Body(s) + "\"", 0);
    if s != [] {
      var p := PieceText(s[0]);
      var rest := Body(s[1..]) + "\"";
      assert Body(s) + "\"" == p + rest;
      OccursConcat(js, pos, p, rest);
      StringEndBody(js, pos + |p|, s[1..]);
      PieceScanned(js, pos, s[0]);
    }
  }

  lemma PieceScanned(js: string, pos: nat, p: Piece)
    requires ValidPiece(p) && Occurs(js, pos, PieceText(p)) && pos + |PieceText(p)| < |js|
    ensures StringEnd(js, pos) == StringEnd(js, pos + |PieceText(p)|)
  {
    var s := PieceText(p);
    forall i: nat | i < |s| ensures js[pos + i] == s[i] {
      OccursAt(js, pos, s, i);
    }
    match p
    case Plain(_) => assert js[pos + 0] == s[0];
    case Escape(_) => assert js[pos + 1] == s[1];
    case Unicode(_, _, _, _) =>
      assert js[pos + 1] == s[1];
      assert js[pos + 2] == s[2] && js[pos + 3] == s[3] && js[pos + 4] == s[4] && js[pos + 5] == s[5];
      assert HexEnd(js, pos + 5, 1) == Some(pos + 6);
      assert HexEnd(js, pos + 4, 2) == Some(pos + 6);
      assert HexEnd(js, pos + 3, 3) == Some(pos + 6);
  }

  lemma NumberIsBare(n: Number)
    requires ValidNumber(n)
    ensures var s := NumberText(n);
      s != "" && forall i :: 0 <= i < |s| ==> Bare(s[i]) && s[i] != '[' && s[i] != '{' && s[i] != '\"'
  {
  }

  // ----- the tokens in between -----

  ghost predicate AllClosed(toks: seq<Token>) {
    forall i :: 0 <= i < |toks| ==> !Open(toks[i])
  }

  lemma {:induction false} LastOpenAppend(toks: seq<Token>, more: seq<Token>)
    requires AllClosed(more)
    ensures LastOpen(toks + more) == LastOpen(toks)
  {
    var i, j := LastOpen(toks + more), LastOpen(toks);
    if i != -1 {
      assert forall k :: |toks| <= k < |toks + more| ==> (toks + more)[k] == more[k - |toks|];
      assert Open(toks[i]);
    }
    if j != -1 {
      assert Open((toks + more)[j]);
    }
  }

  lemma LastOpenIs(toks: seq<Token>, i: int)
    requires -1 <= i < |toks| && (i != -1 ==> Open(toks[i])) && forall j :: i < j < |toks| ==> !Open(toks[j])
    ensures LastOpen(toks) == i
  {
  }

  lemma LastOpenBump(toks: seq<Token>, super: int)
    requires -1 <= super < |toks|
    ensures LastOpen(Bump(toks, super)) == LastOpen(toks)
  {
    LastOpenIs(Bump(toks, super), LastOpen(toks));
  }

  lemma {:induction false} FlattenClosed(v: Value, at: nat)
    ensures AllClosed(Flatten(v, at))
    decreases v
  {
    match v
    case JArray(_, es) => FlattenElemsClosed(es, at + 1);
    case JObject(_, ms) => FlattenMembersClosed(ms, at + 1);
    case _ =>
  }

  lemma {:induction false} FlattenElemsClosed(es: Elems, at: nat)
    ensures AllClosed(FlattenElems(es, at))
    decreases es
  {
    if es.Elem? {
      FlattenClosed(es.v, at + |es.before|);
      FlattenElemsClosed(es.rest, at + ElemLength(es) + 1);
    }
  }

  lemma {:induction false} FlattenMembersClosed(ms: Members, at: nat)
    ensures AllClosed(FlattenMembers(ms, at))
    decreases ms
  {
    if ms.Member? {
      FlattenClosed(ms.v, ValueAt(ms, at));
      FlattenMembersClosed(ms.rest, at + MemberLength(ms) + 1);
    }
  }

  // ----- running over pieces of the text -----

  ghost predicate StepAt(js: string, n: nat, run: seq<State>, i: nat)
    requires i + 1 < |run|
  {
    SuperOk(run[i]) && !AtEnd(js, run[i].pos) && Step(js, run[i], Some(n)) == Next(run[i + 1])
  }

  ghost predicate Path(js: string, n: nat, run: seq<State>) {
    run != [] && forall i {:trigger StepAt(js, n, run, i)} :: 0 <= i < |run| - 1 ==> StepAt(js, n, run, i)
  }

  /** The loop of the parser gets from st to st1. */
  ghost predicate Reaches(js: string, n: nat, st: State, st1: State) {
    exists run {:trigger Path(js, n, run)} :: Path(js, n, run) && run[0] == st && run[|run| - 1] == st1
  }

  lemma ReachesSelf(js: string, n: nat, st: State)
    ensures Reaches(js, n, st, st)
  {
    assert Path(js, n, [st]);
  }

  lemma RunStep(js: string, n: nat, st: State, st1: State)
    requires SuperOk(st) && !AtEnd(js, st.pos) && Step(js, st, Some(n)) == Next(st1)
    ensures Reaches(js, n, st, st1)
  {
    assert Path(js, n, [st, st1]);
  }

  lemma Then(js: string, n: nat, a: State, b: State, c: State)
    requires Reaches(js, n, a, b) && Reaches(js, n, b, c)
    ensures Reaches(js, n, a, c)
  {
    var p :| Path(js, n, p) && p[0] == a && p[|p| - 1] == b;
    var q :| Path(js, n, q) && q[0] == b && q[|q| - 1] == c;
    var r := p + q[1..];
    forall i | 0 <= i < |r| - 1 ensures StepAt(js, n, r, i) {
      if i < |p| - 1 {
        assert StepAt(js, n, p, i);
      } else {
        assert StepAt(js, n, q, i - (|p| - 1));
      }
    }
    assert Path(js, n, r);
  }

  /** Getting somewhere is part of the run. */
  lemma {:induction false} ReachesRun(js: string, n: nat, st: State, st1: State, run: seq<State>)
    requires SuperOk(st1) && Path(js, n, run) && run[0] == st && run[|run| - 1] == st1
    ensures SuperOk(st) && Run(js, st, Some(n)) == Run(js, st1, Some(n))
    decreases |run|
  {
    if |run| > 1 {
      assert StepAt(js, n, run, 0);
      forall i | 0 <= i < |run| - 2 ensures StepAt(js, n, run[1..], i) {
        assert StepAt(js, n, run, i + 1);
      }
      ReachesRun(js, n, run[1], st1, run[1..]);
    }
  }

  lemma ReachesResult(js: string, n: nat, st: State, st1: State)
    requires SuperOk(st1) && Reaches(js, n, st, st1)
    ensures SuperOk(st) && Run(js, st, Some(n)) == Run(js, st1, Some(n))
  {
    var run :| Path(js, n, run) && run[0] == st && run[|run| - 1] == st1;
    ReachesRun(js, n, st, st1, run);
  }

  lemma Finished(js: string, n: nat, st: State)
    requires SuperOk(st) && AtEnd(js, st.pos) && AllClosed(st.toks)
    ensures Run(js, st, Some(n)) == Result(st.count, st)
  {
  }

  lemma RunsTo(js: string, n: nat, toks: seq<Token>)
    requires Reaches(js, n, FRESH, State(|js|, toks, -1, |toks|)) && AllClosed(toks)
    ensures Run(js, FRESH, Some(n)) == Result(|toks|, State(|js|, toks, -1, |toks|))
  {
    ReachesResult(js, n, FRESH, State(|js|, toks, -1, |toks|));
    Finished(js, n, State(|js|, toks, -1, |toks|));
  }

  lemma {:induction false} RunWs(js: string, n: nat, st: State, s: string)
    requires SuperOk(st) && Ws(s) && Occurs(js, st.pos, s)
    ensures Reaches(js, n, st, st.(pos := st.pos + |s|))
    decreases |s|
  {
    if s != "" {
      OccursAt(js, st.pos, s, 0);
      assert s == [s[0]] + s[1..];
      OccursConcat(js, st.pos, [s[0]], s[1..]);
      var st1 := st.(pos := st.pos + 1);
      RunStep(js, n, st, st1);
      RunWs(js, n, st1, s[1..]);
      Then(js, n, st, st1, st.(pos := st.pos + |s|));
    } else {
      ReachesSelf(js, n, st);
    }
  }

  function Emitted(st: State, toks: seq<Token>, len: nat, super: int): State
    requires SuperOk(st)
  {
    State(st.pos + len, Bump(st.toks, st.super) + toks, super, st.count + |toks|)
  }

  /** The state behind a quoted string with a body of the given length. */
  function AfterString(st: State, len: nat): State
    requires SuperOk(st)
  {
    Emitted(st, [Token(Str, st.pos + 1, st.pos + 1 + len, 0)], len + 2, st.super)
  }

  lemma EmitIs(st: State, n: nat, t: Token, len: nat)
    requires SuperOk(st) && |st.toks| < n
    ensures Emit(st, Some(n), t, st.pos + len) == Next(Emitted(st, [t], len, st.super))
  {
  }

  lemma StringStep(js: string, n: nat, st: State, e: nat)
    requires SuperOk(st) && st.pos < |js| && js[st.pos] == '\"' && StringEnd(js, st.pos + 1) == Closed(e)
    ensures !AtEnd(js, st.pos) && Step(js, st, Some(n)) == Emit(st, Some(n), Token(Str, st.pos + 1, e, 0), e + 1)
  {
  }

  lemma StepString(js: string, n: nat, st: State, len: nat)
    requires SuperOk(st) && st.pos < |js| && js[st.pos] == '\"' && |st.toks| < n
    requires StringEnd(js, st.pos + 1) == Closed(st.pos + 1 + len)
    ensures Reaches(js, n, st, AfterString(st, len))
  {
    StringStep(js, n, st, st.pos + 1 + len);
    EmitIs(st, n, Token(Str, st.pos + 1, st.pos + 1 + len, 0), len + 2);
    RunStep(js, n, st, AfterString(st, len));
  }

  lemma RunString(js: string, n: nat, st: State, s: seq<Piece>)
    requires SuperOk(st) && ValidPieces(s) && Occurs(js, st.pos, Quote(s)) && |st.toks| < n
    ensures Reaches(js, n, st, AfterString(st, |Body(s)|))
  {
    OccursConcat(js, st.pos, "\"", Body(s) + "\"");
    OccursAt(js, st.pos, "\"", 0);
    StringEndBody(js, st.pos + 1, s);
    StepString(js, n, st, |Body(s)|);
  }

  predicate BareLiteral(s: string) {
    s != "" && (forall i :: 0 <= i < |s| ==> Bare(s[i])) && s[0] != '[' && s[0] != '{' && s[0] != '\"'
  }

  lemma RunPrimitive(js: string, n: nat, st: State, s: string)
    requires SuperOk(st) && BareLiteral(s) && Occurs(js, st.pos, s) && Boundary(js, st.pos + |s|) && |st.toks| < n
    ensures Reaches(js, n, st, Emitted(st, [Token(Primitive, st.pos, st.pos + |s|, 0)], |s|, st.super))
  {
    OccursAt(js, st.pos, s, 0);
    PrimEndText(js, st.pos, s);
    EmitIs(st, n, Token(Primitive, st.pos, st.pos + |s|, 0), |s|);
    RunStep(js, n, st, Emitted(st, [Token(Primitive, st.pos, st.pos + |s|, 0)], |s|, st.super));
  }

  lemma RunOpen(js: string, n: nat, st: State, k: Kind)
    requires SuperOk(st) && Container(k) && Occurs(js, st.pos, if k == Object then "{" else "[") && |st.toks| < n
    ensures Reaches(js, n, st, Emitted(st, [Token(k, st.pos, -1, 0)], 1, |st.toks|))
  {
    OccursAt(js, st.pos, if k == Object then "{" else "[", 0);
    RunStep(js, n, st, Emitted(st, [Token(k, st.pos, -1, 0)], 1, |st.toks|));
  }

  lemma CloseLast(before: seq<Token>, t: Token, inner: seq<Token>)
    requires AllClosed(inner)
    ensures LastOpen(before + [t] + inner) == if Open(t) then |before| else LastOpen(before)
  {
    LastOpenAppend(before + [t], inner);
    if !Open(t) {
      LastOpenAppend(before, [t]);
    }
  }

  /** The closing bracket of the container that was opened as token number |before|. */
  lemma RunClose(js: string, n: nat, st: State, before: seq<Token>, t: Token, inner: seq<Token>)
    requires SuperOk(st) && Container(t.kind) && Open(t) && AllClosed(inner) && st.toks == before + [t] + inner
    requires st.pos < |js| && js[st.pos] == if t.kind == Object then '}' else ']'
    ensures Reaches(js, n, st,
                    State(st.pos + 1, before + [t.(end := st.pos + 1)] + inner, LastOpen(before), st.count))
  {
    CloseLast(before, t, inner);
    CloseLast(before, t.(end := st.pos + 1), inner);
    assert st.toks[|before| := t.(end := st.pos + 1)] == before + [t.(end := st.pos + 1)] + inner;
    RunStep(js, n, st, State(st.pos + 1, before + [t.(end := st.pos + 1)] + inner, LastOpen(before), st.count));
  }

  lemma {:induction false} ElemsLast(es: Elems)
    requires es.Elem?
    ensures ElemsText(es) != "" && ElemsText(es)[|ElemsText(es)| - 1] == ']'
    decreases es
  {
    if es.rest.Elem? {
      ElemsLast(es.rest);
    }
    LastOfConcat(es.after, ElemsTail(es));
    LastOfConcat(Text(es.v), es.after + ElemsTail(es));
    LastOfConcat(es.before, Text(es.v) + (es.after + ElemsTail(es)));
  }

  lemma {:induction false} MembersLast(ms: Members)
    requires ms.Member?
    ensures MembersText(ms) != "" && MembersText(ms)[|MembersText(ms)| - 1] == '}'
    decreases ms
  {
    if ms.rest.Member? {
      MembersLast(ms.rest);
    }
    LastOfConcat(ms.after, MembersTail(ms));
    LastOfConcat(Text(ms.v), ms.after + MembersTail(ms));
    LastOfConcat(ms.before2, Text(ms.v) + (ms.after + MembersTail(ms)));
    LastOfConcat(":", ValueText(ms));
    LastOfConcat(ms.mid, ":" + ValueText(ms));
    LastOfConcat(Quote(ms.key), ms.mid + (":" + ValueText(ms)));
    LastOfConcat(ms.before, Quote(ms.key) + (ms.mid + (":" + ValueText(ms))));
  }

  lemma LastOfConcat(a: string, b: string)
    requires b != ""
    ensures a + b != "" && (a + b)[|a + b| - 1] == b[|b| - 1]
  {
  }

  // ----- values, elements, members -----

  lemma BoundaryAfter(js: string, pos: nat, ws: string, rest: string)
    requires Ws(ws) && rest != "" && Delimiter(rest[0]) && Occurs(js, pos, ws + rest)
    ensures Boundary(js, pos)
  {
    OccursAt(js, pos, ws + rest, 0);
  }

  function BumpBy(toks: seq<Token>, a: nat, k: nat): (r: seq<Token>)
    requires a < |toks|
    ensures |r| == |toks|
  {
    toks[a := toks[a].(size := toks[a].size + k)]
  }

  lemma LastOpenBumpBy(toks: seq<Token>, a: nat, k: nat, more: seq<Token>)
    requires a < |toks| && AllClosed(more)
    ensures LastOpen(BumpBy(toks, a, k) + more) == LastOpen(toks)
  {
    var b := BumpBy(toks, a, k);
    assert forall i :: 0 <= i < |toks| ==> (Open(b[i]) <==> Open(toks[i]));
    LastOpenAppend(b, more);
  }

  function AfterValue(st: State, v: Value): State
    requires SuperOk(st)
  {
    Emitted(st, Flatten(v, st.pos), |Text(v)|, if v.JArray? || v.JObject? then LastOpen(st.toks) else st.super)
  }

  lemma LiteralIsBare(v: Value)
    requires Valid(v) && !v.JString? && !v.JArray? && !v.JObject?
    ensures BareLiteral(Text(v))
  {
    if v.JNumber? {
      NumberIsBare(v.n);
    }
  }

  lemma {:induction false} RunValue(js: string, n: nat, st: State, v: Value)
    requires SuperOk(st) && Valid(v) && Occurs(js, st.pos, Text(v)) && Boundary(js, st.pos + |Text(v)|)
    requires |st.toks| + |Flatten(v, st.pos)| <= n
    ensures Reaches(js, n, st, AfterValue(st, v))
    decreases v, 1
  {
    match v
    case JString(s) => RunString(js, n, st, s);
    case JArray(_, _) => RunArray(js, n, st, v);
    case JObject(_, _) => RunObject(js, n, st, v);
    case _ =>
      LiteralIsBare(v);
      RunPrimitive(js, n, st, Text(v));
  }

  /** The state behind the opening bracket. */
  function Opened(st: State, k: Kind): State
    requires SuperOk(st)
  {
    Emitted(st, [Token(k, st.pos, -1, 0)], 1, |st.toks|)
  }

  lemma OpenedLast(st: State, k: Kind)
    requires SuperOk(st)
    ensures LastOpen(Opened(st, k).toks) == |st.toks| && LastOpen(Bump(st.toks, st.super)) == LastOpen(st.toks)
  {
    LastOpenBump(st.toks, st.super);
  }

  /** From the inside of a container to behind its closing bracket. */
  lemma RunRest(js: string, n: nat, st: State, k: Kind, size: nat, inner: seq<Token>, len: nat, super: int)
    requires SuperOk(st) && Container(k) && AllClosed(inner)
    requires Reaches(js, n, st, Opened(st, k))
    requires var st1 := Opened(st, k);
      Reaches(js, n, st1, State(st1.pos + len, BumpBy(st1.toks, |st.toks|, size) + inner, super, st1.count + |inner|))
    requires -1 <= super <= |st.toks| + |inner|
    requires st.pos + 1 + len < |js| && js[st.pos + 1 + len] == if k == Object then '}' else ']'
    ensures Reaches(js, n, st,
      Emitted(st, [Token(k, st.pos, st.pos + len + 2, size)] + inner, len + 2, LastOpen(st.toks)))
  {
    var st1 := Opened(st, k);
    var st2 := State(st1.pos + len, BumpBy(st1.toks, |st.toks|, size) + inner, super, st1.count + |inner|);
    var before := Bump(st.toks, st.super);
    var t := Token(k, st.pos, -1, size);
    assert st2.toks == before + [t] + inner;
    RunClose(js, n, st2, before, t, inner);
    OpenedLast(st, k);
    var st3 := Emitted(st, [t.(end := st2.pos + 1)] + inner, len + 2, LastOpen(st.toks));
    assert before + [t.(end := st2.pos + 1)] + inner == st3.toks;
    Then(js, n, st, st1, st2);
    Then(js, n, st, st2, st3);
  }

  lemma {:induction false} RunArray(js: string, n: nat, st: State, v: Value)
    requires SuperOk(st) && Valid(v) && v.JArray? && Occurs(js, st.pos, Text(v))
    requires |st.toks| + |Flatten(v, st.pos)| <= n
    ensures Reaches(js, n, st, AfterValue(st, v))
    decreases v, 0
  {
    OccursConcat(js, st.pos, "[", ArrayText(v.pad, v.elems));
    RunOpen(js, n, st, Array);
    OpenedLast(st, Array);
    var super := RunInArray(js, n, Opened(st, Array), v.pad, v.elems, |st.toks|);
    FlattenElemsClosed(v.elems, st.pos + 1);
    RunRest(js, n, st, Array, CountElems(v.elems), FlattenElems(v.elems, st.pos + 1),
            |ArrayText(v.pad, v.elems)| - 1, super);
  }

  lemma TextEnd(js: string, pos: nat, text: string, len: nat, c: char)
    requires |text| == len + 1 && text[len] == c && Occurs(js, pos, text)
    ensures pos + len < |js| && js[pos + len] == c
  {
    OccursAt(js, pos, text, len);
  }

  /** The text of the elements ends with the closing bracket. */
  lemma ElemsEnd(js: string, pos: nat, es: Elems)
    requires es.Elem? && Occurs(js, pos, ElemsText(es))
    ensures |ElemsText(es)| == ElemsLength(es) + 1 && pos + ElemsLength(es) < |js| && js[pos + ElemsLength(es)] == ']'
  {
    ElemsLast(es);
    ElemsTextLength(es);
    TextEnd(js, pos, ElemsText(es), ElemsLength(es), ']');
  }

  lemma MembersEnd(js: string, pos: nat, ms: Members)
    requires ms.Member? && Occurs(js, pos, MembersText(ms))
    ensures |MembersText(ms)| == MembersLength(ms) + 1
    ensures pos + MembersLength(ms) < |js| && js[pos + MembersLength(ms)] == '}'
  {
    MembersLast(ms);
    MembersTextLength(ms);
    TextEnd(js, pos, MembersText(ms), MembersLength(ms), '}');
  }

  /** The inside of a container without children. */
  lemma RunEmpty(js: string, n: nat, st: State, pad: string, c: char, a: nat)
    requires SuperOk(st) && Ws(pad) && Occurs(js, st.pos, pad + [c]) && a < |st.toks|
    ensures Reaches(js, n, st, State(st.pos + |pad|, BumpBy(st.toks, a, 0) + [], st.super, st.count))
    ensures js[st.pos + |pad|] == c
  {
    OccursConcat(js, st.pos, pad, [c]);
    OccursAt(js, st.pos + |pad|, [c], 0);
    RunWs(js, n, st, pad);
    assert BumpBy(st.toks, a, 0) + [] == st.toks;
  }

  /** Up to the closing bracket of the container whose open token is number a. */
  lemma {:induction false} RunInArray(js: string, n: nat, st: State, pad: string, es: Elems, a: nat)
    returns (super: int)
    requires Ws(pad) && ValidElems(es) && Occurs(js, st.pos, ArrayText(pad, es))
    requires a < |st.toks| && st.super == a == LastOpen(st.toks) && st.toks[a].kind == Array
    requires |st.toks| + |FlattenElems(es, st.pos)| <= n
    ensures -1 <= super < |st.toks| + |FlattenElems(es, st.pos)|
    ensures var len := |ArrayText(pad, es)| - 1; var inner := FlattenElems(es, st.pos);
      && Reaches(js, n, st, State(st.pos + len, BumpBy(st.toks, a, CountElems(es)) + inner, super, st.count + |inner|))
      && js[st.pos + len] == ']'
    decreases es, 4
  {
    super := a;
    if es.NoElems? {
      RunEmpty(js, n, st, pad, ']', a);
    } else {
      ElemsEnd(js, st.pos, es);
      RunElems(js, n, st, es, a);
    }
  }

  lemma {:induction false} RunObject(js: string, n: nat, st: State, v: Value)
    requires SuperOk(st) && Valid(v) && v.JObject? && Occurs(js, st.pos, Text(v))
    requires |st.toks| + |Flatten(v, st.pos)| <= n
    ensures Reaches(js, n, st, AfterValue(st, v))
    decreases v, 0
  {
    var len, inner := |ObjectText(v.pad, v.members)| - 1, FlattenMembers(v.members, st.pos + 1);
    ObjectParts(js, st.pos, v);
    ObjectLength(v);
    AfterObject(st, v, len);
    RunOpen(js, n, st, Object);
    OpenedLast(st, Object);
    var super := RunInObject(js, n, Opened(st, Object), v.pad, v.members, |st.toks|);
    FlattenMembersClosed(v.members, st.pos + 1);
    RunRest(js, n, st, Object, CountMembers(v.members), inner, len, super);
  }

  lemma ObjectParts(js: string, pos: nat, v: Value)
    requires v.JObject? && Occurs(js, pos, Text(v))
    ensures Occurs(js, pos, "{") && Occurs(js, pos + 1, ObjectText(v.pad, v.members))
  {
    OccursConcat(js, pos, "{", ObjectText(v.pad, v.members));
  }

  lemma ObjectLength(v: Value)
    requires v.JObject?
    ensures |Text(v)| == |ObjectText(v.pad, v.members)| + 1 && |ObjectText(v.pad, v.members)| > 0
  {
  }

  lemma AfterObject(st: State, v: Value, len: nat)
    requires SuperOk(st) && v.JObject? && |Text(v)| == len + 2
    ensures var toks := [Token(Object, st.pos, st.pos + len + 2, CountMembers(v.members))]
                        + FlattenMembers(v.members, st.pos + 1);
      Flatten(v, st.pos) == toks && AfterValue(st, v) == Emitted(st, toks, len + 2, LastOpen(st.toks))
  {
  }
  /** The same for the members of an object. */
  lemma {:induction false} RunInObject(js: string, n: nat, st: State, pad: string, ms: Members, a: nat)
    returns (super: int)
    requires Ws(pad) && ValidMembers(ms) && Occurs(js, st.pos, ObjectText(pad, ms))
    requires a < |st.toks| && st.super == a == LastOpen(st.toks) && st.toks[a].kind == Object
    requires |st.toks| + |FlattenMembers(ms, st.pos)| <= n
    ensures -1 <= super < |st.toks| + |FlattenMembers(ms, st.pos)|
    ensures var len := |ObjectText(pad, ms)| - 1; var inner := FlattenMembers(ms, st.pos);
      && Reaches(js, n, st,
          State(st.pos + len, BumpBy(st.toks, a, CountMembers(ms)) + inner, super, st.count + |inner|))
      && js[st.pos + len] == '}'
    decreases ms, 4
  {
    super := a;
    if ms.NoMembers? {
      RunEmpty(js, n, st, pad, '}', a);
    } else {
      MembersEnd(js, st.pos, ms);
      super := RunMembers(js, n, st, ms, a);
    }
  }

  lemma JoinTokens(toks: seq<Token>, a: nat, k: nat, more: seq<Token>, rest: seq<Token>)
    requires a < |toks|
    ensures BumpBy(BumpBy(toks, a, 1) + more, a, k) + rest == BumpBy(toks, a, 1 + k) + (more + rest)
  {
    assert BumpBy(BumpBy(toks, a, 1) + more, a, k) == BumpBy(toks, a, 1 + k) + more;
  }

  /** The state behind k children of token a: their text, their tokens, and the count of a. */
  function Grown(st: State, length: nat, a: nat, k: nat, more: seq<Token>, super: int): State
    requires a < |st.toks|
  {
    State(st.pos + length, BumpBy(st.toks, a, k) + more, super, st.count + |more|)
  }

  /** One child, a comma and k more children are 1 + k children. */
  lemma GrownTwice(st: State, a: nat, length: nat, more: seq<Token>, super: int,
                   length1: nat, k: nat, rest: seq<Token>, super1: int, super2: int)
    requires a < |st.toks|
    ensures var st1 := Grown(st, length, a, 1, more, super);
      Grown(st1.(pos := st1.pos + 1, super := super1), length1, a, k, rest, super2)
      == Grown(st, length + 1 + length1, a, 1 + k, more + rest, super2)
  {
    JoinTokens(st.toks, a, k, more, rest);
  }

  lemma FourOccur(js: string, pos: nat, a: string, b: string, c: string, d: string)
    requires Occurs(js, pos, a + (b + (c + d)))
    ensures Occurs(js, pos, a) && Occurs(js, pos + |a|, b) && Occurs(js, pos + |a| + |b|, c + d)
    ensures Occurs(js, pos + |a| + |b|, c) && Occurs(js, pos + |a| + |b| + |c|, d)
  {
    OccursConcat(js, pos, a, b + (c + d));
    OccursConcat(js, pos + |a|, b, c + d);
    OccursConcat(js, pos + |a| + |b|, c, d);
  }

  /** A value with the white space around it and what follows. */
  lemma PaddedOccurs(js: string, pos: nat, before: string, text: string, ws: string, rest: string)
    requires Occurs(js, pos, before + (text + (ws + rest))) && Ws(ws) && rest != "" && Delimiter(rest[0])
    ensures var p1 := pos + |before|; var p2 := p1 + |text|; var p3 := p2 + |ws|;
      && Occurs(js, pos, before) && Occurs(js, p1, text) && Boundary(js, p2)
      && Occurs(js, p2, ws) && Occurs(js, p3, rest)
  {
    FourOccur(js, pos, before, text, ws, rest);
    BoundaryAfter(js, pos + |before| + |text|, ws, rest);
  }

  /** The parts of the text of an element list. */
  lemma ElemOccurs(js: string, pos: nat, es: Elems)
    requires es.Elem? && ValidElems(es) && Occurs(js, pos, ElemsText(es))
    ensures Occurs(js, pos, es.before)
    ensures var p1 := pos + |es.before|; var p2 := p1 + |Text(es.v)|; var p3 := p2 + |es.after|;
      Occurs(js, p1, Text(es.v)) && Boundary(js, p2) && Occurs(js, p2, es.after) && Occurs(js, p3, ElemsTail(es))
  {
    PaddedOccurs(js, pos, es.before, Text(es.v), es.after, ElemsTail(es));
  }

  lemma ElemsTailOccurs(js: string, pos: nat, es: Elems)
    requires es.Elem? && Occurs(js, pos, ElemsTail(es))
    ensures pos < |js|
    ensures if es.rest.Elem? then js[pos] == ',' && Occurs(js, pos + 1, ElemsText(es.rest)) else js[pos] == ']'
    ensures |ElemsText(es)| == ElemLength(es) + |ElemsTail(es)|
  {
    OccursAt(js, pos, ElemsTail(es), 0);
    if es.rest.Elem? {
      OccursConcat(js, pos, ",", ElemsText(es.rest));
    }
  }

  /** After the elements of the array whose open token is number a. */
  function AfterElems(st: State, es: Elems, a: nat): State
    requires es.Elem? && a < |st.toks|
  {
    Grown(st, ElemsLength(es), a, CountElems(es), FlattenElems(es, st.pos), a)
  }

  function AfterElem(st: State, es: Elems, a: nat): State
    requires es.Elem? && a < |st.toks|
  {
    Grown(st, ElemLength(es), a, 1, Flatten(es.v, st.pos + |es.before|), a)
  }

  /** A value with the white space around it. */
  lemma RunPadded(js: string, n: nat, st: State, before: string, v: Value, after: string)
    requires SuperOk(st) && Valid(v) && Ws(before) && Ws(after)
    requires Occurs(js, st.pos, before) && Occurs(js, st.pos + |before|, Text(v))
    requires Boundary(js, st.pos + |before| + |Text(v)|) && Occurs(js, st.pos + |before| + |Text(v)|, after)
    requires |st.toks| + |Flatten(v, st.pos + |before|)| <= n
    ensures Reaches(js, n, st, Padded(st, before, v, after))
    decreases v, 2
  {
    var st1 := st.(pos := st.pos + |before|);
    RunWs(js, n, st, before);
    RunValue(js, n, st1, v);
    var st2 := AfterValue(st1, v);
    Then(js, n, st, st1, st2);
    RunWs(js, n, st2, after);
    Then(js, n, st, st2, Padded(st, before, v, after));
  }

  function Padded(st: State, before: string, v: Value, after: string): State
    requires SuperOk(st)
  {
    Emitted(st, Flatten(v, st.pos + |before|), |before| + |Text(v)| + |after|,
            if v.JArray? || v.JObject? then LastOpen(st.toks) else st.super)
  }

  /** One element with the white space around it. */
  lemma RunElem(js: string, n: nat, st: State, es: Elems, a: nat)
    requires es.Elem? && ValidElems(es) && Occurs(js, st.pos, ElemsText(es))
    requires a < |st.toks| && st.super == a == LastOpen(st.toks)
    requires |AfterElem(st, es, a).toks| <= n
    ensures Reaches(js, n, st, AfterElem(st, es, a))
    decreases es, 0
  {
    ElemOccurs(js, st.pos, es);
    RunPadded(js, n, st, es.before, es.v, es.after);
    PaddedElem(st, es, a);
  }

  lemma PaddedElem(st: State, es: Elems, a: nat)
    requires es.Elem? && a < |st.toks| && st.super == a == LastOpen(st.toks)
    ensures Padded(st, es.before, es.v, es.after) == AfterElem(st, es, a)
  {
  }

  lemma AfterElemLast(st: State, es: Elems, a: nat)
    requires es.Elem? && a < |st.toks| && LastOpen(st.toks) == a
    ensures LastOpen(AfterElem(st, es, a).toks) == a && AfterElem(st, es, a).toks[a].kind == st.toks[a].kind
  {
    FlattenClosed(es.v, st.pos + |es.before|);
    LastOpenBumpBy(st.toks, a, 1, Flatten(es.v, st.pos + |es.before|));
  }

  /** Whether the value was a container or not, a comma makes the enclosing container superior again. */
  lemma RunComma(js: string, n: nat, st: State, a: nat)
    requires SuperOk(st) && a == LastOpen(st.toks) && Container(st.toks[a].kind) && st.super != -1
    requires st.super == a || !Container(st.toks[st.super].kind)
    requires st.pos < |js| && js[st.pos] == ','
    ensures Reaches(js, n, st, st.(pos := st.pos + 1, super := a))
  {
    RunStep(js, n, st, st.(pos := st.pos + 1, super := a));
  }

  /** The comma behind an element. */
  lemma RunElemComma(js: string, n: nat, st: State, es: Elems, a: nat)
    requires es.Elem? && es.rest.Elem? && ValidElems(es) && Occurs(js, st.pos, ElemsText(es))
    requires a < |st.toks| && LastOpen(st.toks) == a && st.toks[a].kind == Array
    ensures var st1 := AfterElem(st, es, a); var st2 := st1.(pos := st1.pos + 1);
      Reaches(js, n, st1, st2) && Occurs(js, st2.pos, ElemsText(es.rest))
  {
    ElemOccurs(js, st.pos, es);
    ElemsTailOccurs(js, st.pos + ElemLength(es), es);
    AfterElemLast(st, es, a);
    var st1 := AfterElem(st, es, a);
    RunComma(js, n, st1, a);
  }

  lemma ElemsSplit(es: Elems, at: nat)
    requires es.Elem?
    ensures FlattenElems(es, at) == Flatten(es.v, at + |es.before|) + FlattenElems(es.rest, at + ElemLength(es) + 1)
    ensures CountElems(es) == 1 + CountElems(es.rest)
    ensures es.rest.NoElems? ==> CountElems(es) == 1 && FlattenElems(es, at) == Flatten(es.v, at + |es.before|)
  {
  }

  lemma ElemsJoin(st: State, es: Elems, a: nat)
    requires es.Elem? && es.rest.Elem? && a < |st.toks|
    ensures var st1 := AfterElem(st, es, a);
      AfterElems(st1.(pos := st1.pos + 1), es.rest, a) == AfterElems(st, es, a)
  {
    ElemsSplit(es, st.pos);
    GrownTwice(st, a, ElemLength(es), Flatten(es.v, st.pos + |es.before|), a,
               ElemsLength(es.rest), CountElems(es.rest), FlattenElems(es.rest, st.pos + ElemLength(es) + 1), a, a);
  }

  lemma {:induction false} RunElems(js: string, n: nat, st: State, es: Elems, a: nat)
    requires es.Elem? && ValidElems(es) && Occurs(js, st.pos, ElemsText(es))
    requires a < |st.toks| && st.super == a == LastOpen(st.toks) && st.toks[a].kind == Array
    requires |st.toks| + |FlattenElems(es, st.pos)| <= n
    ensures Reaches(js, n, st, AfterElems(st, es, a))
    decreases es, 2
  {
    ElemsFit(st, es, a, n);
    if es.rest.NoElems? {
      RunElem(js, n, st, es, a);
    } else {
      var st1 := AfterElem(st, es, a);
      var st2 := st1.(pos := st1.pos + 1);
      RunToNextElem(js, n, st, es, a);
      RunElems(js, n, st2, es.rest, a);
      ElemsJoin(st, es, a);
      Then(js, n, st, st2, AfterElems(st2, es.rest, a));
    }
  }

  lemma ElemsFit(st: State, es: Elems, a: nat, n: nat)
    requires es.Elem? && a < |st.toks| && |st.toks| + |FlattenElems(es, st.pos)| <= n
    ensures var st1 := AfterElem(st, es, a);
      && |st1.toks| + |FlattenElems(es.rest, st1.pos + 1)| <= n
      && (es.rest.NoElems? ==> AfterElems(st, es, a) == st1)
  {
    ElemsSplit(es, st.pos);
  }

  /** One element and the comma behind it. */
  lemma RunToNextElem(js: string, n: nat, st: State, es: Elems, a: nat)
    requires es.Elem? && es.rest.Elem? && ValidElems(es) && Occurs(js, st.pos, ElemsText(es))
    requires a < |st.toks| && st.super == a == LastOpen(st.toks) && st.toks[a].kind == Array
    requires |AfterElem(st, es, a).toks| <= n
    ensures var st1 := AfterElem(st, es, a); var st2 := st1.(pos := st1.pos + 1);
      && Reaches(js, n, st, st2) && Occurs(js, st2.pos, ElemsText(es.rest))
      && st2.super == a == LastOpen(st2.toks) && st2.toks[a].kind == Array
    decreases es, 1
  {
    var st1 := AfterElem(st, es, a);
    RunElem(js, n, st, es, a);
    RunElemComma(js, n, st, es, a);
    Then(js, n, st, st1, st1.(pos := st1.pos + 1));
    AfterElemLast(st, es, a);
  }

  function KeyToken(st: State, ms: Members): Token
    requires ms.Member?
  {
    var at := st.pos + |ms.before| + 1;
    Token(Str, at, at + |Body(ms.key)|, 0)
  }

  lemma ColonOccurs(js: string, pos: nat, rest: string)
    requires Occurs(js, pos, ":" + rest)
    ensures pos < |js| && js[pos] == ':' && Occurs(js, pos + 1, rest)
  {
    OccursConcat(js, pos, ":", rest);
    OccursAt(js, pos, ":" + rest, 0);
  }

  /** The parts of the text of a member list. */
  lemma KeyOccurs(js: string, pos: nat, ms: Members)
    requires ms.Member? && ValidMembers(ms) && Occurs(js, pos, MembersText(ms))
    ensures Occurs(js, pos, ms.before)
    ensures var p1 := pos + |ms.before|; var p2 := p1 + |Quote(ms.key)|; var p3 := p2 + |ms.mid|;
      && Occurs(js, p1, Quote(ms.key)) && Occurs(js, p2, ms.mid)
      && p3 < |js| && js[p3] == ':' && Occurs(js, p3 + 1, ValueText(ms))
  {
    FourOccur(js, pos, ms.before, Quote(ms.key), ms.mid, ":" + ValueText(ms));
    ColonOccurs(js, pos + |ms.before| + |Quote(ms.key)| + |ms.mid|, ValueText(ms));
  }

  lemma MemberOccurs(js: string, pos: nat, ms: Members)
    requires ms.Member? && ValidMembers(ms) && Occurs(js, pos, ValueText(ms))
    ensures Occurs(js, pos, ms.before2)
    ensures var p1 := pos + |ms.before2|; var p2 := p1 + |Text(ms.v)|; var p3 := p2 + |ms.after|;
      Occurs(js, p1, Text(ms.v)) && Boundary(js, p2) && Occurs(js, p2, ms.after) && Occurs(js, p3, MembersTail(ms))
  {
    PaddedOccurs(js, pos, ms.before2, Text(ms.v), ms.after, MembersTail(ms));
  }

  lemma MembersTailOccurs(js: string, pos: nat, ms: Members)
    requires ms.Member? && Occurs(js, pos, MembersTail(ms))
    ensures pos < |js|
    ensures if ms.rest.Member? then js[pos] == ',' && Occurs(js, pos + 1, MembersText(ms.rest)) else js[pos] == '}'
    ensures |MembersText(ms)| == MemberLength(ms) + |MembersTail(ms)|
  {
    OccursAt(js, pos, MembersTail(ms), 0);
    if ms.rest.Member? {
      OccursConcat(js, pos, ",", MembersText(ms.rest));
    }
  }

  function AfterKey(st: State, ms: Members, a: nat): State
    requires ms.Member? && a < |st.toks|
  {
    State(st.pos + |ms.before| + |Body(ms.key)| + 2 + |ms.mid| + 1,
          BumpBy(st.toks, a, 1) + [KeyToken(st, ms)], |st.toks|, st.count + 1)
  }

  lemma RunColon(js: string, n: nat, st: State)
    requires SuperOk(st) && st.pos < |js| && js[st.pos] == ':'
    ensures Reaches(js, n, st, st.(pos := st.pos + 1, super := |st.toks| - 1))
  {
    RunStep(js, n, st, st.(pos := st.pos + 1, super := |st.toks| - 1));
  }

  /** From the beginning of a member to just behind its colon. */
  lemma RunKey(js: string, n: nat, st: State, ms: Members, a: nat)
    requires ms.Member? && ValidMembers(ms) && a < |st.toks| < n && st.super == a
    requires Occurs(js, st.pos, MembersText(ms))
    ensures Reaches(js, n, st, AfterKey(st, ms, a))
  {
    KeyOccurs(js, st.pos, ms);
    var st1 := st.(pos := st.pos + |ms.before|);
    RunWs(js, n, st, ms.before);
    RunString(js, n, st1, ms.key);
    var st2 := Emitted(st1, [KeyToken(st, ms)], |Body(ms.key)| + 2, a);
    Then(js, n, st, st1, st2);
    RunWs(js, n, st2, ms.mid);
    var st3 := st2.(pos := st2.pos + |ms.mid|);
    Then(js, n, st, st2, st3);
    RunColon(js, n, st3);
    Then(js, n, st, st3, AfterKey(st, ms, a));
  }

  function AfterMember(st: State, ms: Members, a: nat, super: int): State
    requires ms.Member? && a < |st.toks|
  {
    Grown(st, MemberLength(ms), a, 1, MemberTokens(ms, st.pos), super)
  }

  /** From behind the colon of a member to the white space behind its value. */
  lemma RunMemberValue(js: string, n: nat, st: State, ms: Members) returns (super: int)
    requires ms.Member? && ValidMembers(ms) && Occurs(js, st.pos, ValueText(ms))
    requires SuperOk(st) && |st.toks| + |Flatten(ms.v, st.pos + |ms.before2|)| <= n
    ensures super == st.super || super == LastOpen(st.toks)
    ensures var more := Flatten(ms.v, st.pos + |ms.before2|);
      Reaches(js, n, st, Emitted(st, more, |ms.before2| + |Text(ms.v)| + |ms.after|, super))
    decreases ms, 0
  {
    MemberOccurs(js, st.pos, ms);
    RunPadded(js, n, st, ms.before2, ms.v, ms.after);
    super := Padded(st, ms.before2, ms.v, ms.after).super;
  }

  /** One member with the white space around it. */
  lemma RunMember(js: string, n: nat, st: State, ms: Members, a: nat) returns (super: int)
    requires ms.Member? && ValidMembers(ms) && Occurs(js, st.pos, MembersText(ms))
    requires a < |st.toks| && st.super == a == LastOpen(st.toks)
    requires |st.toks| + |MemberTokens(ms, st.pos)| <= n
    ensures super == a || super == |st.toks|
    ensures Reaches(js, n, st, AfterMember(st, ms, a, super))
    decreases ms, 1
  {
    RunKey(js, n, st, ms, a);
    KeyOccurs(js, st.pos, ms);
    var st1 := AfterKey(st, ms, a);
    LastOpenBumpBy(st.toks, a, 1, [KeyToken(st, ms)]);
    super := RunMemberValue(js, n, st1, ms);
    KeyBumped(st, ms, a, ValueAt(ms, st.pos));
    Then(js, n, st, st1, AfterMember(st, ms, a, super));
  }

  lemma AfterMemberLast(st: State, ms: Members, a: nat, super: int)
    requires ms.Member? && a < |st.toks| && LastOpen(st.toks) == a
    ensures var st1 := AfterMember(st, ms, a, super);
      LastOpen(st1.toks) == a && st1.toks[a].kind == st.toks[a].kind && st1.toks[|st.toks|].kind == Str
  {
    FlattenClosed(ms.v, ValueAt(ms, st.pos));
    LastOpenBumpBy(st.toks, a, 1, MemberTokens(ms, st.pos));
  }

  /** The comma behind a member. */
  lemma RunMemberComma(js: string, n: nat, st: State, ms: Members, a: nat, super: int)
    requires ms.Member? && ms.rest.Member? && ValidMembers(ms) && Occurs(js, st.pos, MembersText(ms))
    requires a < |st.toks| && LastOpen(st.toks) == a && st.toks[a].kind == Object
    requires super == a || super == |st.toks|
    ensures var st1 := AfterMember(st, ms, a, super); var st2 := st1.(pos := st1.pos + 1, super := a);
      Reaches(js, n, st1, st2) && Occurs(js, st2.pos, MembersText(ms.rest))
  {
    MemberTailOccurs(js, st.pos, ms);
    AfterMemberLast(st, ms, a, super);
    var st1 := AfterMember(st, ms, a, super);
    RunComma(js, n, st1, a);
  }

  lemma BumpLast(toks: seq<Token>, t: Token)
    ensures Bump(toks + [t], |toks|) == toks + [t.(size := t.size + 1)]
  {
  }

  lemma Regroup(a: seq<Token>, b: seq<Token>, c: seq<Token>)
    ensures a + b + c == a + (b + c)
  {
  }

  lemma KeyBumped(st: State, ms: Members, a: nat, at: nat)
    requires ms.Member? && a < |st.toks|
    requires at == st.pos + |ms.before| + |Body(ms.key)| + 2 + |ms.mid| + 1 + |ms.before2|
    ensures Bump(BumpBy(st.toks, a, 1) + [KeyToken(st, ms)], |st.toks|) + Flatten(ms.v, at)
         == BumpBy(st.toks, a, 1) + MemberTokens(ms, st.pos)
  {
    BumpLast(BumpBy(st.toks, a, 1), KeyToken(st, ms));
    Regroup(BumpBy(st.toks, a, 1), [KeyToken(st, ms).(size := 1)], Flatten(ms.v, at));
  }

  function AfterMembers(st: State, ms: Members, a: nat, super: int): State
    requires ms.Member? && a < |st.toks|
  {
    Grown(st, MembersLength(ms), a, CountMembers(ms), FlattenMembers(ms, st.pos), super)
  }

  /** The members of the object whose open token is number a. */
  lemma {:induction false} RunMembers(js: string, n: nat, st: State, ms: Members, a: nat) returns (super: int)
    requires ms.Member? && ValidMembers(ms) && Occurs(js, st.pos, MembersText(ms))
    requires a < |st.toks| && st.super == a == LastOpen(st.toks) && st.toks[a].kind == Object
    requires |st.toks| + |FlattenMembers(ms, st.pos)| <= n
    ensures Reaches(js, n, st, AfterMembers(st, ms, a, super)) && SuperOk(AfterMembers(st, ms, a, super))
    decreases ms, 3
  {
    MembersFit(st, ms, a, n);
    if ms.rest.NoMembers? {
      super := RunMember(js, n, st, ms, a);
    } else {
      var first := RunToNextMember(js, n, st, ms, a);
      var st1 := AfterMember(st, ms, a, first);
      var st2 := st1.(pos := st1.pos + 1, super := a);
      super := RunMembers(js, n, st2, ms.rest, a);
      MembersJoin(st, ms, a, first, super);
      Then(js, n, st, st2, AfterMembers(st2, ms.rest, a, super));
    }
  }

  lemma MembersFit(st: State, ms: Members, a: nat, n: nat)
    requires ms.Member? && a < |st.toks| && |st.toks| + |FlattenMembers(ms, st.pos)| <= n
    ensures |st.toks| + |MemberTokens(ms, st.pos)| + |FlattenMembers(ms.rest, st.pos + MemberLength(ms) + 1)| <= n
    ensures ms.rest.NoMembers? ==> forall super :: AfterMembers(st, ms, a, super) == AfterMember(st, ms, a, super)
  {
    MembersSplit(ms, st.pos);
  }

  /** One member and the comma behind it. */
  lemma RunToNextMember(js: string, n: nat, st: State, ms: Members, a: nat) returns (super: int)
    requires ms.Member? && ms.rest.Member? && ValidMembers(ms) && Occurs(js, st.pos, MembersText(ms))
    requires a < |st.toks| && st.super == a == LastOpen(st.toks) && st.toks[a].kind == Object
    requires |st.toks| + |MemberTokens(ms, st.pos)| <= n
    ensures var st1 := AfterMember(st, ms, a, super); var st2 := st1.(pos := st1.pos + 1, super := a);
      && Reaches(js, n, st, st2) && Occurs(js, st2.pos, MembersText(ms.rest))
      && a == LastOpen(st2.toks) && st2.toks[a].kind == Object
    decreases ms, 2
  {
    super := RunMember(js, n, st, ms, a);
    var st1 := AfterMember(st, ms, a, super);
    RunMemberComma(js, n, st, ms, a, super);
    Then(js, n, st, st1, st1.(pos := st1.pos + 1, super := a));
    AfterMemberLast(st, ms, a, super);
  }

  lemma MemberTailOccurs(js: string, pos: nat, ms: Members)
    requires ms.Member? && ValidMembers(ms) && Occurs(js, pos, MembersText(ms))
    ensures var p := pos + MemberLength(ms);
      p < |js| && if ms.rest.Member? then js[p] == ',' && Occurs(js, p + 1, MembersText(ms.rest)) else js[p] == '}'
  {
    KeyOccurs(js, pos, ms);
    var p := pos + |ms.before| + |Quote(ms.key)| + |ms.mid| + 1;
    MemberOccurs(js, p, ms);
    MembersTailOccurs(js, pos + MemberLength(ms), ms);
  }

  lemma MembersSplit(ms: Members, at: nat)
    requires ms.Member?
    ensures FlattenMembers(ms, at) == MemberTokens(ms, at) + FlattenMembers(ms.rest, at + MemberLength(ms) + 1)
    ensures CountMembers(ms) == 1 + CountMembers(ms.rest)
    ensures ms.rest.NoMembers? ==> CountMembers(ms) == 1 && FlattenMembers(ms, at) == MemberTokens(ms, at)
  {
  }

  lemma MembersJoin(st: State, ms: Members, a: nat, super: int, last: int)
    requires ms.Member? && ms.rest.Member? && a < |st.toks|
    ensures var st1 := AfterMember(st, ms, a, super);
      AfterMembers(st1.(pos := st1.pos + 1, super := a), ms.rest, a, last) == AfterMembers(st, ms, a, last)
  {
    MembersSplit(ms, st.pos);
    GrownTwice(st, a, MemberLength(ms), MemberTokens(ms, st.pos), super, MembersLength(ms.rest),
               CountMembers(ms.rest), FlattenMembers(ms.rest, st.pos + MemberLength(ms) + 1), a, last);
  }

  // ----- the whole text -----

  /** The parts of a text. */
  lemma ThreeOccur(js: string, a: string, b: string, c: string)
    requires js == a + (b + c)
    ensures Occurs(js, 0, a) && Occurs(js, |a|, b) && Occurs(js, |a| + |b|, c)
  {
    assert js[0..0 + |js|] == js;
    OccursConcat(js, 0, a, b + c);
    OccursConcat(js, |a|, b, c);
  }

  lemma BoundaryWs(js: string, pos: nat, ws: string)
    requires Ws(ws) && Occurs(js, pos, ws) && pos + |ws| == |js|
    ensures Boundary(js, pos)
  {
    if ws != "" {
      OccursAt(js, pos, ws, 0);
    }
  }

  lemma PaddedText(before: string, v: Value, after: string)
    ensures var toks := Flatten(v, |before|);
      Padded(FRESH, before, v, after) == State(|before| + |Text(v)| + |after|, toks, -1, |toks|)
  {
    var none: seq<Token> := [];
    assert none + Flatten(v, |before|) == Flatten(v, |before|);
  }

  lemma RunText(js: string, before: string, v: Value, after: string, n: nat)
    requires Valid(v) && Ws(before) && Ws(after) && js == before + (Text(v) + after)
    requires |Flatten(v, |before|)| <= n
    ensures Reaches(js, n, FRESH, State(|js|, Flatten(v, |before|), -1, |Flatten(v, |before|)|))
  {
    ThreeOccur(js, before, Text(v), after);
    BoundaryWs(js, |before| + |Text(v)|, after);
    RunPadded(js, n, FRESH, before, v, after);
    PaddedText(before, v, after);
  }

  /** A JSON text, white space around it included, is tokenized into the preorder flattening of its tree. */
  lemma TokenizesJson(js: string, before: string, v: Value, after: string, n: nat)
    requires Valid(v) && Ws(before) && Ws(after) && js == before + Text(v) + after
    requires |Flatten(v, |before|)| <= n
    ensures var toks := Flatten(v, |before|);
      Run(js, FRESH, Some(n)) == Result(|toks|, State(|js|, toks, -1, |toks|))
  {
    var toks := Flatten(v, |before|);
    assert Reaches(js, n, FRESH, State(|js|, toks, -1, |toks|)) by {
      assert js == before + (Text(v) + after);
      RunText(js, before, v, after, n);
    }
    assert AllClosed(toks) by {
      FlattenClosed(v, |before|);
    }
    RunsTo(js, n, toks);
  }
}
