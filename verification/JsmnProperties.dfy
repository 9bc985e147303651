/** What jsmn keeps on any input at all: nesting of the tokens, resumption with more tokens, counting. */
module JsmnProperties {
  import opened Lists
  import opened Jsmn

  // ----- nesting -----

  predicate OpensWith(c: char, k: Kind) { (k == Object && c == '{') || (k == Array && c == '[') }

  predicate ClosesWith(c: char, k: Kind) { (k == Object && c == '}') || (k == Array && c == ']') }

  /** A token lies in the text read so far; a container begins and ends with its own kind of bracket. */
  ghost predicate TokenOk(js: string, pos: nat, t: Token)
    requires pos <= |js|
  {
    && 0 <= t.start
    && match t.kind
       case Undefined => false
       case Str => 0 < t.start <= t.end < pos && js[t.start - 1] == '\"' && js[t.end] == '\"'
       case Primitive => t.start < t.end <= pos
       case _ =>
         && t.start < pos && OpensWith(js[t.start], t.kind)
         && (t.end == -1 || (t.start + 1 < t.end <= pos && ClosesWith(js[t.end - 1], t.kind)))
  }

  /** An earlier token ends before a later one begins, or contains it, or is not finished. */
  predicate Ordered(a: Token, b: Token) {
    a.start < b.start && (a.end == -1 || a.end <= b.start || (b.end != -1 && b.end <= a.end))
  }

  /** All tokens lie in the first pos characters, start in increasing order, and are nested or disjoint. */
  ghost predicate Nested(js: string, pos: nat, toks: seq<Token>) {
    && pos <= |js|
    && (forall i :: 0 <= i < |toks| ==> TokenOk(js, pos, toks[i]))
    && (forall i, j :: 0 <= i < j < |toks| ==> Ordered(toks[i], toks[j]))
  }

  lemma NestedLater(js: string, pos: nat, pos1: nat, toks: seq<Token>)
    requires Nested(js, pos, toks) && pos <= pos1 <= |js|
    ensures Nested(js, pos1, toks)
  {
    forall i | 0 <= i < |toks| ensures TokenOk(js, pos1, toks[i]) {
      assert TokenOk(js, pos, toks[i]);
    }
  }

  lemma NestedBump(js: string, pos: nat, toks: seq<Token>, super: int)
    requires Nested(js, pos, toks) && -1 <= super < |toks|
    ensures Nested(js, pos, Bump(toks, super))
  {
    var b := Bump(toks, super);
    forall i | 0 <= i < |toks| ensures TokenOk(js, pos, b[i]) {
      assert TokenOk(js, pos, toks[i]);
    }
    forall i, j | 0 <= i < j < |toks| ensures Ordered(b[i], b[j]) {
      assert Ordered(toks[i], toks[j]);
    }
  }

  lemma NestedAppend(js: string, pos: nat, pos1: nat, toks: seq<Token>, t: Token)
    requires Nested(js, pos, toks) && pos <= pos1 <= |js| && TokenOk(js, pos1, t) && pos <= t.start
    ensures Nested(js, pos1, toks + [t])
  {
    NestedLater(js, pos, pos1, toks);
    forall i | 0 <= i < |toks| ensures Ordered(toks[i], t) {
      assert TokenOk(js, pos, toks[i]);
    }
  }

  lemma NestedClose(js: string, pos: nat, toks: seq<Token>, i: nat)
    requires Nested(js, pos, toks) && pos < |js| && i == LastOpen(toks) && ClosesWith(js[pos], toks[i].kind)
    ensures Nested(js, pos + 1, toks[i := toks[i].(end := pos + 1)])
  {
    NestedLater(js, pos, pos + 1, toks);
    var c := toks[i := toks[i].(end := pos + 1)];
    assert TokenOk(js, pos, toks[i]);
    assert TokenOk(js, pos + 1, c[i]);
    forall j | i < j < |toks| ensures Ordered(c[i], c[j]) {
      assert TokenOk(js, pos, toks[j]) && Ordered(toks[i], toks[j]) && !Open(toks[j]);
    }
    forall j | 0 <= j < i ensures Ordered(c[j], c[i]) {
      assert TokenOk(js, pos, toks[j]) && Ordered(toks[j], toks[i]);
    }
  }

  /** One round of the loop keeps the nesting, whatever the text. */
  lemma StepNested(js: string, st: State, n: nat)
    requires Nested(js, st.pos, st.toks) && SuperOk(st) && !AtEnd(js, st.pos) && Step(js, st, Some(n)).Next?
    ensures Nested(js, Step(js, st, Some(n)).st.pos, Step(js, st, Some(n)).st.toks)
  {
    if js[st.pos] == '}' || js[st.pos] == ']' {
      StepNestedClose(js, st, n);
    } else {
      StepNestedOpen(js, st, n);
    }
  }

  lemma StepNestedClose(js: string, st: State, n: nat)
    requires Nested(js, st.pos, st.toks) && SuperOk(st) && !AtEnd(js, st.pos) && Step(js, st, Some(n)).Next?
    requires js[st.pos] == '}' || js[st.pos] == ']'
    ensures Nested(js, Step(js, st, Some(n)).st.pos, Step(js, st, Some(n)).st.toks)
  {
    NestedLater(js, st.pos, Step(js, st, Some(n)).st.pos, st.toks);
    NestedClose(js, st.pos, st.toks, LastOpen(st.toks));
  }

  lemma StepNestedOpen(js: string, st: State, n: nat)
    requires Nested(js, st.pos, st.toks) && SuperOk(st) && !AtEnd(js, st.pos) && Step(js, st, Some(n)).Next?
    requires js[st.pos] != '}' && js[st.pos] != ']'
    ensures Nested(js, Step(js, st, Some(n)).st.pos, Step(js, st, Some(n)).st.toks)
  {
    var next := Step(js, st, Some(n)).st;
    NestedBump(js, st.pos, st.toks, st.super);
    NestedLater(js, st.pos, next.pos, st.toks);
    if |next.toks| > |st.toks| {
      NestedAppend(js, st.pos, next.pos, Bump(st.toks, st.super), next.toks[|st.toks|]);
    }
  }

  lemma {:induction false} RunNested(js: string, st: State, n: nat)
    requires Nested(js, st.pos, st.toks) && SuperOk(st)
    ensures var r := Run(js, st, Some(n)); Nested(js, r.st.pos, r.st.toks) && SuperOk(r.st)
    ensures var r := Run(js, st, Some(n)); r.code >= 0 ==> AtEnd(js, r.st.pos) && LastOpen(r.st.toks) == -1
    decreases |js| - st.pos
  {
    if !AtEnd(js, st.pos) {
      StepStops(js, st, n);
      match Step(js, st, Some(n))
      case Stop(_, _) =>
      case Next(next) =>
        StepNested(js, st, n);
        RunNested(js, next, n);
    }
  }

  lemma StepStops(js: string, st: State, n: nat)
    requires SuperOk(st) && !AtEnd(js, st.pos)
    ensures var o := Step(js, st, Some(n)); o.Stop? ==> o.st == st && o.code < 0
  {
  }

  /** Two tokens of a finished run are disjoint or one contains the other, and the later one begins later. */
  ghost predicate Laminar(toks: seq<Token>) {
    forall i, j :: 0 <= i < j < |toks| ==>
      toks[i].start < toks[j].start && (toks[i].end <= toks[j].start || toks[j].end <= toks[i].end)
  }

  /** Every finished container runs from a bracket to a closing bracket of its own kind. */
  ghost predicate BracketsMatch(js: string, toks: seq<Token>) {
    forall i :: 0 <= i < |toks| && Container(toks[i].kind) ==>
      && 0 <= toks[i].start < toks[i].end - 1 < |js|
      && OpensWith(js[toks[i].start], toks[i].kind) && ClosesWith(js[toks[i].end - 1], toks[i].kind)
  }

  /** A non-negative result on any input whatsoever: the tokens form a well-bracketed forest. */
  lemma SuccessIsWellFormed(js: string, n: nat)
    requires Run(js, FRESH, Some(n)).code >= 0
    ensures var r := Run(js, FRESH, Some(n));
      && r.code == |r.st.toks| <= n && -1 <= r.st.super < |r.st.toks|
      && (forall i :: 0 <= i < |r.st.toks| ==> !Open(r.st.toks[i]))
      && Laminar(r.st.toks) && BracketsMatch(js, r.st.toks)
  {
    var r := Run(js, FRESH, Some(n));
    RunNested(js, FRESH, n);
    RunCounts(js, FRESH, n);
    forall i | 0 <= i < |r.st.toks| ensures r.st.toks[i].end != -1 {
      assert TokenOk(js, r.st.pos, r.st.toks[i]) && !Open(r.st.toks[i]);
    }
    forall i, j | 0 <= i < j < |r.st.toks|
      ensures r.st.toks[i].end <= r.st.toks[j].start || r.st.toks[j].end <= r.st.toks[i].end
    {
      assert Ordered(r.st.toks[i], r.st.toks[j]);
    }
  }

  /** With a token array the local counter is the number of tokens, which never exceeds the array. */
  lemma {:induction false} RunCounts(js: string, st: State, n: nat)
    requires SuperOk(st) && st.count == |st.toks| <= n
    ensures var r := Run(js, st, Some(n)); r.st.count == |r.st.toks| <= n && (r.code >= 0 ==> r.code == r.st.count)
    decreases |js| - st.pos
  {
    if !AtEnd(js, st.pos) {
      match Step(js, st, Some(n))
      case Stop(_, _) => StepStops(js, st, n);
      case Next(next) => RunCounts(js, next, n);
    }
  }

  // ----- counting without tokens -----

  /** The counting state that goes with a tokenizing state; tokens of earlier calls do not matter. */
  ghost predicate Counts(st: State, c: State) {
    c.pos == st.pos && c.count == st.count && SuperOk(c)
  }

  lemma StepCounts(js: string, st: State, c: State, n: nat)
    requires SuperOk(st) && Counts(st, c) && !AtEnd(js, st.pos) && Step(js, st, Some(n)).Next?
    ensures Step(js, c, None).Next? && Counts(Step(js, st, Some(n)).st, Step(js, c, None).st)
  {
  }

  /** Any successful run with tokens returns what the run without a token array returns. */
  lemma {:induction false} CountAgrees(js: string, st: State, c: State, n: nat)
    requires SuperOk(st) && Counts(st, c) && Run(js, st, Some(n)).code >= 0
    ensures Run(js, c, None).code == Run(js, st, Some(n)).code
    decreases |js| - st.pos
  {
    if !AtEnd(js, st.pos) {
      match Step(js, st, Some(n))
      case Stop(_, _) => StepStops(js, st, n);
      case Next(_) =>
        StepCounts(js, st, c, n);
        CountAgrees(js, Step(js, st, Some(n)).st, Step(js, c, None).st, n);
    }
  }

  // ----- more tokens -----

  /** A larger token array changes nothing but a failure for want of tokens. */
  lemma StepLarger(js: string, st: State, n: nat, m: nat)
    requires SuperOk(st) && !AtEnd(js, st.pos) && n <= m
    ensures var o := Step(js, st, Some(n)); o == Stop(NOMEM, st) || o == Step(js, st, Some(m))
    ensures Step(js, st, Some(n)).Stop? ==> Step(js, st, Some(n)).st == st
  {
  }

  /** After NOMEM, going on with a larger array is the same as having had it from the beginning;
      any other outcome does not depend on the size of the array. */
  lemma {:induction false} Resume(js: string, st: State, n: nat, m: nat)
    requires SuperOk(st) && n <= m
    ensures var r := Run(js, st, Some(n));
      SuperOk(r.st) && Run(js, st, Some(m)) == if r.code == NOMEM then Run(js, r.st, Some(m)) else r
    decreases |js| - st.pos
  {
    if !AtEnd(js, st.pos) {
      StepLarger(js, st, n, m);
      match Step(js, st, Some(n))
      case Stop(_, _) =>
      case Next(next) => Resume(js, next, n, m);
    }
  }

  /** A run that is given one array after the other, each at least as large, until it has enough tokens.
      Every call counts from the tokens that are already there. */
  function Growing(js: string, st: State, n: nat, more: seq<nat>): Result
    requires SuperOk(st)
    decreases |more|
  {
    var r := Run(js, st.(count := |st.toks|), Some(n));
    if more == [] || r.code != NOMEM || !SuperOk(r.st) then r else Growing(js, r.st, more[0], more[1..])
  }

  function Last(n: nat, more: seq<nat>): nat {
    if more == [] then n else more[|more| - 1]
  }

  /** Any number of growths: the result, the tokens and the parser are those of one run with the last array. */
  lemma {:induction false} GrowingIsOneRun(js: string, st: State, n: nat, more: seq<nat>)
    requires SuperOk(st) && st.count == |st.toks| <= n
    requires (more != [] ==> n <= more[0]) && forall i, j :: 0 <= i < j < |more| ==> more[i] <= more[j]
    ensures Growing(js, st, n, more) == Run(js, st, Some(Last(n, more)))
    decreases |more|
  {
    Resume(js, st, n, Last(n, more));
    RunCounts(js, st, n);
    if more != [] {
      var r := Run(js, st, Some(n));
      if r.code == NOMEM {
        GrowingIsOneRun(js, r.st, more[0], more[1..]);
      }
    }
  }

  // ----- why a run stops, on any text -----

  ghost predicate TextEnds(js: string, p: nat) {
    p >= |js| || js[p] == '\0'
  }

  /** The characters from pos up to e are printable and none of them ends a primitive. */
  ghost predicate BareUpTo(js: string, pos: nat, e: nat) {
    && pos <= e <= |js|
    && forall i :: pos <= i < e ==>
         ' ' < js[i] <= '~' && js[i] != ':' && js[i] != ',' && js[i] != ']' && js[i] != '}'
  }

  ghost predicate EndsPrimitive(js: string, p: nat) {
    TextEnds(js, p) || js[p] in {'\t', '\r', '\n', ' ', ':', ',', ']', '}'}
  }

  /** A primitive ends in front of the first delimiter; a character that is not printable spoils it. */
  lemma {:induction false} PrimEndIs(js: string, pos: nat)
    requires pos <= |js|
    ensures match PrimEnd(js, pos)
            case Some(e) => BareUpTo(js, pos, e) && EndsPrimitive(js, e)
            case None => exists e: nat :: BareUpTo(js, pos, e) && !EndsPrimitive(js, e) && !(' ' < js[e] <= '~')
    decreases |js| - pos
  {
    if AtEnd(js, pos) || Delimiter(js[pos]) {
    } else if !Printable(js[pos]) {
      assert BareUpTo(js, pos, pos);
    } else {
      PrimEndIs(js, pos + 1);
      if PrimEnd(js, pos) == None {
        var e: nat :| BareUpTo(js, pos + 1, e) && !EndsPrimitive(js, e) && !(' ' < js[e] <= '~');
        assert BareUpTo(js, pos, e);
      }
    }
  }

  ghost predicate HexAt(js: string, p: nat) {
    p < |js| && ('0' <= js[p] <= '9' || 'A' <= js[p] <= 'F' || 'a' <= js[p] <= 'f')
  }

  /** From pos up to e there are whole string characters: ordinary ones and escapes. */
  ghost predicate InString(js: string, pos: nat, e: nat)
    decreases e - pos
  {
    pos <= e <= |js| &&
    (pos < e ==>
      if js[pos] == '\\' then
        pos + 1 < e &&
        if js[pos + 1] == 'u' then
          && HexAt(js, pos + 2) && HexAt(js, pos + 3) && HexAt(js, pos + 4) && HexAt(js, pos + 5)
          && pos + 6 <= e && InString(js, pos + 6, e)
        else js[pos + 1] in {'\"', '\\', '/', 'b', 'f', 'n', 'r', 't'} && InString(js, pos + 2, e)
      else js[pos] != '\"' && js[pos] != '\0' && InString(js, pos + 1, e))
  }

  /** Behind \u at p there are hex digits up to q, less than four. */
  ghost predicate ShortOf(js: string, p: nat, q: nat) {
    p + 1 < |js| && js[p] == '\\' && js[p + 1] == 'u' && p + 2 <= q < p + 6 && q <= |js| &&
    forall x :: p + 2 <= x < q ==> HexAt(js, x)
  }

  /** At p there is a backslash that begins no escape. */
  ghost predicate BadEscape(js: string, p: nat) {
    p + 1 < |js| && js[p] == '\\' &&
    if js[p + 1] == 'u' then exists q: nat :: ShortOf(js, p, q) && !HexAt(js, q) && !TextEnds(js, q)
    else js[p + 1] !in {'\"', '\\', '/', 'b', 'f', 'n', 'r', 't'}
  }

  /** At p the text ends, or in the middle of an escape that begins there. */
  ghost predicate CutOff(js: string, p: nat) {
    || TextEnds(js, p)
    || (p + 1 == |js| && js[p] == '\\')
    || exists q: nat :: ShortOf(js, p, q) && TextEnds(js, q)
  }

  /** From p up to q there are hex digits. */
  ghost predicate HexUpTo(js: string, p: nat, q: nat) {
    p <= q <= |js| && forall x :: p <= x < q ==> HexAt(js, x)
  }

  /** n hex digits, or fewer in front of the end of the text, or fewer in front of something else. */
  lemma {:induction false} HexEndIs(js: string, pos: nat, n: nat) returns (q: nat)
    requires pos <= |js|
    ensures HexUpTo(js, pos, q) && q <= pos + n
    ensures match HexEnd(js, pos, n)
            case Some(e) => e == q && (q < pos + n ==> TextEnds(js, q))
            case None => q < pos + n && !HexAt(js, q) && !TextEnds(js, q)
    decreases n
  {
    q := pos;
    if n > 0 && !AtEnd(js, pos) && Hex(js[pos]) {
      q := HexEndIs(js, pos + 1, n - 1);
    }
  }

  lemma {:induction false} HexStops(js: string, p: nat, q: nat, n: nat)
    requires HexUpTo(js, p, q) && q < p + n && !HexAt(js, q)
    ensures HexEnd(js, p, n) == if TextEnds(js, q) then Some(q) else None
    decreases n
  {
    if p < q {
      assert HexAt(js, p);
      HexStops(js, p + 1, q, n - 1);
    }
  }

  /** What the scan of a string finds at the place where it stops. */
  ghost predicate StopsAt(js: string, pos: nat, e: nat, q: Quoted) {
    && InString(js, pos, e)
    && match q
       case Closed(at) => at == e && e < |js| && js[e] == '\"'
       case Unclosed => CutOff(js, e)
       case Malformed => BadEscape(js, e)
  }

  lemma EscapeStops(js: string, pos: nat)
    requires pos + 1 < |js| && js[pos] == '\\' && js[pos + 1] == 'u'
    ensures match HexEnd(js, pos + 2, 4)
            case None => BadEscape(js, pos)
            case Some(e) =>
              if e == pos + 6 then HexAt(js, pos + 2) && HexAt(js, pos + 3) && HexAt(js, pos + 4) && HexAt(js, pos + 5)
              else CutOff(js, pos) && TextEnds(js, e)
  {
    var q := HexEndIs(js, pos + 2, 4);
    assert q < pos + 6 ==> ShortOf(js, pos, q);
    assert q == pos + 6 ==> HexAt(js, pos + 2) && HexAt(js, pos + 3) && HexAt(js, pos + 4) && HexAt(js, pos + 5);
  }

  /** A string is closed, cut off or malformed by what stands behind its last whole character. */
  lemma {:induction false} StringEndIs(js: string, pos: nat) returns (e: nat)
    requires pos <= |js|
    ensures StopsAt(js, pos, e, StringEnd(js, pos))
    decreases |js| - pos
  {
    e := pos;
    if AtEnd(js, pos) || js[pos] == '\"' {
    } else if js[pos] == '\\' && pos + 1 < |js| {
      if SimpleEscape(js[pos + 1]) {
        e := StringEndIs(js, pos + 2);
        assert InString(js, pos, e);
      } else if js[pos + 1] == 'u' {
        EscapeStops(js, pos);
        var end := HexEnd(js, pos + 2, 4);
        if end == Some(pos + 6) {
          e := StringEndIs(js, pos + 6);
          assert InString(js, pos, e);
        } else if end.Some? {
          assert StringEnd(js, end.value) == Unclosed;
        }
      }
    } else if js[pos] != '\\' {
      e := StringEndIs(js, pos + 1);
      assert InString(js, pos, e);
    } else {
      assert StringEnd(js, pos + 1) == Unclosed;
    }
  }

  /** The three are told apart by the text alone. */
  lemma {:induction false} StopsOnce(js: string, pos: nat, e: nat, q: Quoted)
    requires StopsAt(js, pos, e, q)
    ensures StringEnd(js, pos) == q
    decreases e - pos
  {
    if pos < e {
      if js[pos] == '\\' && js[pos + 1] == 'u' {
        AllHex(js, pos + 2);
        StopsOnce(js, pos + 6, e, q);
      } else {
        StopsOnce(js, if js[pos] == '\\' then pos + 2 else pos + 1, e, q);
      }
    } else if q != Closed(e) && !TextEnds(js, e) && e + 1 < |js| {
      StopsHere(js, e);
    }
  }

  lemma AllHex(js: string, p: nat)
    requires HexAt(js, p) && HexAt(js, p + 1) && HexAt(js, p + 2) && HexAt(js, p + 3)
    ensures HexEnd(js, p, 4) == Some(p + 4)
  {
    assert HexEnd(js, p + 3, 1) == Some(p + 4);
    assert HexEnd(js, p + 2, 2) == Some(p + 4);
  }

  lemma StopsHere(js: string, p: nat)
    requires p + 1 < |js|
    ensures BadEscape(js, p) ==> StringEnd(js, p) == Malformed
    ensures CutOff(js, p) ==> StringEnd(js, p) == Unclosed
  {
    if q: nat :| ShortOf(js, p, q) && !HexAt(js, q) {
      HexStops(js, p + 2, q, 4);
      forall r: nat | ShortOf(js, p, r) && !HexAt(js, r) ensures r == q {
        assert r < q ==> HexAt(js, r);
        assert q < r ==> HexAt(js, q);
      }
    }
  }

  ghost predicate StringAt(js: string, p: nat) {
    !TextEnds(js, p) && js[p] == '\"'
  }

  ghost predicate ClosedString(js: string, p: nat) {
    StringAt(js, p) && exists e: nat :: InString(js, p + 1, e) && StringAt(js, e)
  }

  ghost predicate CutString(js: string, p: nat) {
    StringAt(js, p) && exists e: nat :: InString(js, p + 1, e) && CutOff(js, e)
  }

  ghost predicate BadString(js: string, p: nat) {
    StringAt(js, p) && exists e: nat :: InString(js, p + 1, e) && BadEscape(js, e)
  }

  /** Every string is exactly one of the three. */
  lemma StringKinds(js: string, p: nat)
    requires StringAt(js, p)
    ensures ClosedString(js, p) <==> StringEnd(js, p + 1).Closed?
    ensures CutString(js, p) <==> StringEnd(js, p + 1).Unclosed?
    ensures BadString(js, p) <==> StringEnd(js, p + 1).Malformed?
  {
    var q := StringEnd(js, p + 1);
    var e := StringEndIs(js, p + 1);
    assert q.Closed? ==> StringAt(js, e);
    if e1: nat :| InString(js, p + 1, e1) && StringAt(js, e1) {
      StopsOnce(js, p + 1, e1, Closed(e1));
    }
    if e1: nat :| InString(js, p + 1, e1) && CutOff(js, e1) {
      StopsOnce(js, p + 1, e1, Unclosed);
    }
    if e1: nat :| InString(js, p + 1, e1) && BadEscape(js, e1) {
      StopsOnce(js, p + 1, e1, Malformed);
    }
  }

  ghost predicate PrimitiveAt(js: string, p: nat) {
    !TextEnds(js, p) && js[p] !in {'{', '[', '}', ']', '\"', '\t', '\r', '\n', ' ', ':', ','}
  }

  ghost predicate WholePrimitive(js: string, p: nat) {
    PrimitiveAt(js, p) && exists e: nat :: BareUpTo(js, p, e) && EndsPrimitive(js, e)
  }

  ghost predicate BadPrimitive(js: string, p: nat) {
    PrimitiveAt(js, p) && exists e: nat :: BareUpTo(js, p, e) && !EndsPrimitive(js, e) && !(' ' < js[e] <= '~')
  }

  /** Every primitive is exactly one of the two. */
  lemma PrimitiveKinds(js: string, p: nat)
    requires PrimitiveAt(js, p)
    ensures WholePrimitive(js, p) <==> PrimEnd(js, p).Some?
    ensures BadPrimitive(js, p) <==> PrimEnd(js, p).None?
  {
    PrimEndIs(js, p);
    if WholePrimitive(js, p) && BadPrimitive(js, p) {
      var e: nat :| BareUpTo(js, p, e) && EndsPrimitive(js, e);
      var e1: nat :| BareUpTo(js, p, e1) && !EndsPrimitive(js, e1) && !(' ' < js[e1] <= '~');
      assert false;
    }
  }

  /** A closing bracket that is not that of the innermost open one. */
  ghost predicate BadBracket(js: string, p: nat, toks: seq<Token>) {
    && !TextEnds(js, p) && (js[p] == '}' || js[p] == ']')
    && forall i :: 0 <= i < |toks| && Open(toks[i]) && (forall j :: i < j < |toks| ==> !Open(toks[j])) ==>
         !ClosesWith(js[p], toks[i].kind)
  }

  /** Only containers are ever open. */
  ghost predicate OnlyContainersOpen(toks: seq<Token>) {
    forall i :: 0 <= i < |toks| && Open(toks[i]) ==> Container(toks[i].kind)
  }

  lemma BracketKinds(js: string, p: nat, toks: seq<Token>)
    requires !TextEnds(js, p) && (js[p] == '}' || js[p] == ']') && OnlyContainersOpen(toks)
    ensures var i := LastOpen(toks);
      BadBracket(js, p, toks) <==> i == -1 || toks[i].kind != (if js[p] == '}' then Object else Array)
  {
    var i := LastOpen(toks);
    forall j | 0 <= j < |toks| && Open(toks[j]) && (forall k :: j < k < |toks| ==> !Open(toks[k])) ensures j == i {}
  }

  /** The text ends inside a string or with something open. */
  ghost predicate EndsTooEarly(js: string, p: nat, toks: seq<Token>) {
    (TextEnds(js, p) && exists i :: 0 <= i < |toks| && Open(toks[i])) || CutString(js, p)
  }

  ghost predicate Invalid(js: string, p: nat, toks: seq<Token>) {
    BadString(js, p) || BadPrimitive(js, p) || BadBracket(js, p, toks)
  }

  /** At p a token begins for which there is no room. */
  ghost predicate NoRoom(js: string, p: nat, toks: seq<Token>, n: nat) {
    && !TextEnds(js, p) && |toks| >= n
    && (js[p] == '{' || js[p] == '[' || ClosedString(js, p) || WholePrimitive(js, p))
  }

  ghost predicate Because(js: string, st: State, n: nat, code: int) {
    && (code == PART <==> EndsTooEarly(js, st.pos, st.toks))
    && (code == INVAL <==> Invalid(js, st.pos, st.toks))
    && (code == NOMEM <==> NoRoom(js, st.pos, st.toks, n))
    && (code < 0 ==> code == PART || code == INVAL || code == NOMEM)
  }

  lemma StepStopsBecause(js: string, st: State, n: nat)
    requires SuperOk(st) && !AtEnd(js, st.pos) && OnlyContainersOpen(st.toks)
    ensures var o := Step(js, st, Some(n));
      if o.Stop? then o.st == st && Because(js, st, n, o.code) && o.code < 0 else OnlyContainersOpen(o.st.toks)
  {
    if StringAt(js, st.pos) {
      StringKinds(js, st.pos);
    } else if PrimitiveAt(js, st.pos) {
      PrimitiveKinds(js, st.pos);
    } else if js[st.pos] == '}' || js[st.pos] == ']' {
      BracketKinds(js, st.pos, st.toks);
    }
  }

  /** On any text whatsoever a run fails for exactly one of three reasons, which can be read off the text and the open
      tokens where it stops; with none of them it succeeds. */
  lemma {:induction false} StopsBecause(js: string, st: State, n: nat)
    requires SuperOk(st) && OnlyContainersOpen(st.toks) && st.count >= 0
    ensures var r := Run(js, st, Some(n)); Because(js, r.st, n, r.code)
    decreases |js| - st.pos
  {
    if AtEnd(js, st.pos) {
      var i := LastOpen(st.toks);
      assert i != -1 ==> Open(st.toks[i]);
    } else {
      StepStopsBecause(js, st, n);
      match Step(js, st, Some(n))
      case Stop(_, _) =>
      case Next(next) => StopsBecause(js, next, n);
    }
  }
}
