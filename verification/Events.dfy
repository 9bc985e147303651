/**
 * Event objects (rt-thread/src/ipc.c): 32 flag bits and the threads waiting for some or all of the bits they name.
 * A word of flags is the set of its one bits: * is the source's &, + its | and - its & ~.
 */
module Events {
  import opened Lists
  import PriorityInheritance

  type ThreadId = PriorityInheritance.ThreadId
  type Bits = set<nat>

  /** A thread's event_set and event_info: the AND flag is looked at first. */
  datatype Demand = Demand(want: Bits, all: bool, any: bool, clear: bool) {
    /** What rt_event_recv insists on: some event, and one of the two flags. */
    predicate Legal(): (r: bool)
      ensures r <==> (exists b :: b in want) && (!all ==> any)
    {
      want != {} && (all || any)
    }

    predicate Met(s: Bits) {
      if all then s * want == want else s * want != {}
    }
  }

  /** With the AND flag a wanted bit is missing, without it every one is: the thread has to wait. */
  ghost predicate Lacks(s: Bits, d: Demand) {
    if d.all then exists b :: b in d.want && b !in s else forall b :: b in d.want ==> b !in s
  }

  /** What a demand asks for, bit by bit. */
  lemma MetIs(s: Bits, d: Demand)
    ensures d.Met(s) <==> !Lacks(s, d)
  {
    if d.all {
      assert d.Met(s) ==> forall b :: b in d.want ==> b in s * d.want;
      if !Lacks(s, d) {
        assert s * d.want == d.want;
      }
    } else {
      assert forall b :: b in s * d.want <==> b in s && b in d.want;
      assert d.Met(s) ==> exists b :: b in s * d.want;
    }
  }

  datatype Got = Got(thread: ThreadId, bits: Bits)

  datatype Status = Ok | Error | Timeout | Suspended

  function InfoOf(info: map<ThreadId, Demand>, t: ThreadId): Demand {
    if t in info then info[t] else Demand({}, true, false, false)
  }

  // ----- Sending as the list scan sees it -----

  /** The event_set a resumed thread is left with: an OR waiter keeps only what has come. */
  function Received(s: Bits, d: Demand): Bits {
    if d.all then d.want else d.want * s
  }

  function Cleared(s: Bits, d: Demand): Bits {
    if d.clear then s - Received(s, d) else s
  }

  datatype Scanned = Scanned(left: Bits, kept: seq<ThreadId>, woken: seq<Got>)

  function Scan(s: Bits, ws: seq<ThreadId>, info: map<ThreadId, Demand>): Scanned {
    if ws == [] then
      Scanned(s, [], [])
    else if InfoOf(info, ws[0]).Met(s) then
      var r := Scan(Cleared(s, InfoOf(info, ws[0])), ws[1..], info);
      Scanned(r.left, r.kept, [Got(ws[0], Received(s, InfoOf(info, ws[0])))] + r.woken)
    else
      var r := Scan(s, ws[1..], info);
      Scanned(r.left, [ws[0]] + r.kept, r.woken)
  }

  // ----- Receiving without waiting -----

  /** What a receive that does not block returns and leaves. */
  function TryRecv(s: Bits, d: Demand): (Option<Bits>, Bits) {
    if d.Met(s) then (Some(s * d.want), if d.clear then s - d.want else s) else (None, s)
  }

  /** Every thread of the list tries a receive, in list order. */
  function TryAll(s: Bits, ws: seq<ThreadId>, info: map<ThreadId, Demand>): Scanned {
    if ws == [] then
      Scanned(s, [], [])
    else
      var (got, after) := TryRecv(s, InfoOf(info, ws[0]));
      var r := TryAll(after, ws[1..], info);
      match got
      case Some(bits) => Scanned(r.left, r.kept, [Got(ws[0], bits)] + r.woken)
      case None => Scanned(r.left, [ws[0]] + r.kept, r.woken)
  }

  /** Clearing bits meets no demand that was not met. */
  lemma FewerBits(s: Bits, r: Bits, d: Demand)
    requires r <= s && d.Met(r)
    ensures d.Met(s)
  {
    if !d.all {
      var b :| b in r * d.want;
      assert b in s * d.want;
    }
  }

  /**
   * Waiting first and sending afterwards is the same as sending first and receiving afterwards, for any number of
   * waiters with any mix of options: the same threads get the same bits, and the same set is left.
   */
  lemma {:induction false} SendThenRecvIsRecvThenSend(s: Bits, ws: seq<ThreadId>, info: map<ThreadId, Demand>)
    ensures Scan(s, ws, info) == TryAll(s, ws, info)
  {
    if ws != [] {
      var d := InfoOf(info, ws[0]);
      if d.Met(s) {
        OneWaiter(s, d);
        SendThenRecvIsRecvThenSend(Cleared(s, d), ws[1..], info);
      } else {
        SendThenRecvIsRecvThenSend(s, ws[1..], info);
      }
    }
  }

  lemma OneWaiter(s: Bits, d: Demand)
    requires d.Met(s)
    ensures Received(s, d) == s * d.want
    ensures Cleared(s, d) == if d.clear then s - d.want else s
  {}

  lemma {:induction false} ScanOnlyClears(s: Bits, ws: seq<ThreadId>, info: map<ThreadId, Demand>)
    ensures Scan(s, ws, info).left <= s
    ensures forall t :: t in Scan(s, ws, info).kept ==> t in ws
    ensures Distinct(ws) ==> Distinct(Scan(s, ws, info).kept)
  {
    if ws != [] {
      var d := InfoOf(info, ws[0]);
      var s1 := if d.Met(s) then Cleared(s, d) else s;
      ScanOnlyClears(s1, ws[1..], info);
      TailIn(ws);
      if Distinct(ws) {
        DistinctTail(ws);
      }
    }
  }

  /** Whoever stays on the list after a send is not satisfied by the set that is left, whatever was cleared
      after him. */
  lemma {:induction false} NobodyMissed(s: Bits, ws: seq<ThreadId>, info: map<ThreadId, Demand>, t: ThreadId)
    requires t in Scan(s, ws, info).kept
    ensures Lacks(Scan(s, ws, info).left, InfoOf(info, t))
  {
    var d := InfoOf(info, ws[0]);
    MetIs(Scan(s, ws, info).left, InfoOf(info, t));
    if d.Met(s) {
      NobodyMissed(Cleared(s, d), ws[1..], info, t);
    } else if t in Scan(s, ws[1..], info).kept {
      NobodyMissed(s, ws[1..], info, t);
    } else {
      ScanOnlyClears(s, ws[1..], info);
      var left := Scan(s, ws[1..], info).left;
      if d.Met(left) {
        FewerBits(s, left, d);
      }
    }
  }

  /** The loop of a send has kept ws[..n], woken `woken` and still has to look at the rest. */
  ghost predicate Progress(whole: Scanned, s: Bits, ws: seq<ThreadId>, n: nat, woken: seq<Got>,
                           info: map<ThreadId, Demand>)
    requires n <= |ws|
  {
    var r := Scan(s, ws[n..], info);
    whole == Scanned(r.left, ws[..n] + r.kept, woken + r.woken)
  }

  lemma ProgressKeep(whole: Scanned, s: Bits, ws: seq<ThreadId>, n: nat, woken: seq<Got>,
                           info: map<ThreadId, Demand>)
    requires n < |ws| && Progress(whole, s, ws, n, woken, info) && !InfoOf(info, ws[n]).Met(s)
    ensures Progress(whole, s, ws, n + 1, woken, info)
  {
    assert ws[n..][1..] == ws[n + 1..];
    var r := Scan(s, ws[n + 1..], info);
    assert ws[..n] + ([ws[n]] + r.kept) == ws[..n + 1] + r.kept;
  }

  lemma ProgressWake(whole: Scanned, s: Bits, ws: seq<ThreadId>, n: nat, woken: seq<Got>,
                           info: map<ThreadId, Demand>)
    requires n < |ws| && Progress(whole, s, ws, n, woken, info) && InfoOf(info, ws[n]).Met(s)
    ensures var d := InfoOf(info, ws[n]);
            Progress(whole, Cleared(s, d), ws[..n] + ws[n + 1..], n, woken + [Got(ws[n], Received(s, d))], info)
  {
    var d := InfoOf(info, ws[n]);
    var rest := ws[..n] + ws[n + 1..];
    assert ws[n..][1..] == ws[n + 1..] == rest[n..];
    assert rest[..n] == ws[..n];
    var r := Scan(Cleared(s, d), ws[n + 1..], info);
    assert woken + ([Got(ws[n], Received(s, d))] + r.woken) == woken + [Got(ws[n], Received(s, d))] + r.woken;
  }

  class Event {
    var bits: Bits
    var waiting: seq<ThreadId>
    var info: map<ThreadId, Demand>
    const fifo: bool

    /** In every reachable state nobody on the list is satisfied by the set. */
    ghost predicate Valid()
      reads this
    {
      && Distinct(waiting)
      && forall t :: t in waiting ==> t in info && info[t].Legal() && Lacks(bits, info[t])
    }

    constructor (f: bool)
      ensures Valid() && bits == {} && waiting == [] && fifo == f
    {
      bits, waiting, info, fifo := {}, [], map[], f;
    }

    /** rt_event_send: the new bits go in, then the list is gone through once. */
    method Send(more: Bits) returns (s: Status, resumed: seq<Got>)
      requires Valid()
      modifies this
      ensures Valid()
      ensures s == if more == {} then Error else Ok
      ensures more == {} ==> bits == old(bits) && waiting == old(waiting) && info == old(info) && resumed == []
      ensures more != {} ==> Scanned(bits, waiting, resumed) == Scan(old(bits) + more, old(waiting), old(info))
      ensures forall g :: g in resumed ==> g.thread in info && info[g.thread].want == g.bits
    {
      resumed := [];
      if more == {} {
        return Error, [];
      }
      bits := bits + more;
      ghost var whole := Scan(bits, waiting, info);
      var n := 0;
      while n < |waiting|
        invariant 0 <= n <= |waiting| && Distinct(waiting)
        invariant forall t :: t in waiting ==> t in old(waiting) && t in info && info[t] == old(info)[t]
        invariant forall g :: g in resumed ==> g.thread !in waiting && g.thread in info && info[g.thread].want == g.bits
        invariant Progress(whole, bits, waiting, n, resumed, old(info))
        decreases |waiting| - n
      {
        var thread := waiting[n];
        if info[thread].Met(bits) {
          ProgressWake(whole, bits, waiting, n, resumed, old(info));
          var got := Resume(n);
          resumed := resumed + [got];
        } else {
          ProgressKeep(whole, bits, waiting, n, resumed, old(info));
          n := n + 1;
        }
      }
      assert waiting[n..] == [] && waiting[..n] == waiting;
      s := Ok;
      forall t | t in waiting ensures Lacks(bits, info[t]) {
        NobodyMissed(old(bits) + more, old(waiting), old(info), t);
      }
    }

    /** The satisfied thread in place n leaves the list with its bits, and clears them if it asked to. */
    method Resume(n: nat) returns (got: Got)
      requires n < |waiting| && Distinct(waiting) && waiting[n] in info
      modifies this
      ensures got == Got(old(waiting[n]), Received(old(bits), old(info[waiting[n]])))
      ensures bits == Cleared(old(bits), old(info[waiting[n]]))
      ensures waiting == old(waiting[..n] + waiting[n + 1..]) && Distinct(waiting) && got.thread !in waiting
      ensures forall t :: t in waiting ==> t in old(waiting)
      ensures info == old(info)[got.thread := old(info[waiting[n]]).(want := got.bits)]
    {
      var thread := waiting[n];
      var d := info[thread];
      got := Got(thread, Received(bits, d));
      info := info[thread := d.(want := got.bits)];
      if d.clear {
        bits := bits - got.bits;
      }
      RemoveAt(waiting, n);
      waiting := waiting[..n] + waiting[n + 1..];
    }

    /** rt_event_recv by a thread that does not wait here yet. */
    method Recv(t: ThreadId, d: Demand, patient: bool, T: PriorityInheritance.Threads) returns (s: Status, recved: Bits)
      requires Valid() && t !in waiting && (d.want != {} ==> d.Legal())
      modifies this
      ensures Valid()
      ensures s == Error <==> d.want == {}
      ensures s == Error || s == Timeout ==> bits == old(bits) && waiting == old(waiting) && info == old(info)
      ensures d.want != {} ==>
                if Lacks(old(bits), d) then
                  bits == old(bits)
                  && if patient then s == Suspended && t in waiting && info == old(info)[t := d] else s == Timeout
                else
                  && s == Ok && (forall b :: b in recved <==> b in d.want && b in old(bits))
                  && (forall b :: b in bits <==> b in old(bits) && (d.clear ==> b !in d.want))
                  && waiting == old(waiting) && info == old(info)[t := d.(want := recved)]
      ensures d.want != {} ==>
                match TryRecv(old(bits), d)
                case (Some(got), left) => s == Ok && recved == got && bits == left
                case (None, _) => s != Ok && bits == old(bits)
      ensures s == Suspended ==>
                waiting == if fifo then old(waiting) + [t] else PriorityInheritance.Enqueued(T, old(waiting), t)
    {
      recved := {};
      if d.want == {} {
        return Error, {};
      }
      MetIs(bits, d);
      if d.Met(bits) {
        recved := bits * d.want;
        info := info[t := d.(want := recved)];
        if d.clear {
          var less := bits - d.want;
          assert forall u :: u in waiting ==> Lacks(less, info[u]);
          bits := less;
        }
        s := Ok;
      } else if !patient {
        s := Timeout;
      } else {
        info := info[t := d];
        PriorityInheritance.EnqueuedDistinct(T, waiting, t);
        waiting := if fifo then waiting + [t] else PriorityInheritance.Enqueued(T, waiting, t);
        s := Suspended;
      }
    }

    /** A waiting thread's timer takes it off the list. */
    method Expire(t: ThreadId)
      requires Valid()
      modifies this`waiting
      ensures Valid() && waiting == Without(old(waiting), t)
    {
      WithoutDistinct(waiting, t);
      waiting := Without(waiting, t);
    }

    // ----- Runs -----

    /** One step, and the deliveries it makes. */
    method Step(c: Call, T: PriorityInheritance.Threads) returns (log: seq<Got>)
      requires Valid()
      modifies this
      ensures Valid() && bits <= old(bits) + Sent(c)
      ensures forall g :: g in log ==> g.bits != {} && g.bits <= old(bits) + Sent(c)
      ensures c.RecvCall? && c.t !in old(waiting) && c.d.Legal() ==>
                if Lacks(old(bits), c.d) then log == [] && (c.t in waiting <==> c.patient)
                else |log| == 1 && log[0].thread == c.t
      ensures c.SendCall? && c.more != {} ==> log == Scan(old(bits) + c.more, old(waiting), old(info)).woken
    {
      log := [];
      match c
      case SendCall(more) =>
        ScanDelivers(bits + more, waiting, info);
        ScanOnlyClears(bits + more, waiting, info);
        var _, resumed := Send(more);
        log := resumed;
      case RecvCall(t, d, patient) =>
        if t !in waiting && (d.want == {} || d.Legal()) {
          var s, recved := Recv(t, d, patient, T);
          if s == Ok {
            log := [Got(t, recved)];
          }
        }
      case TimerCall(t) => Expire(t);
    }

    /**
     * After any run nobody waits for what is there. Every delivery hands out some bits, and no bit is delivered or left
     * that has not been sent.
     */
    method Run(script: seq<Call>, T: PriorityInheritance.Threads) returns (log: seq<Got>)
      requires Valid() && bits == {}
      modifies this
      ensures Valid() && bits <= SentBy(script)
      ensures forall g :: g in log ==> g.bits != {} && g.bits <= SentBy(script)
    {
      log := [];
      for i := 0 to |script|
        invariant Valid() && bits <= SentBy(script[..i])
        invariant forall g :: g in log ==> g.bits != {} && g.bits <= SentBy(script[..i])
      {
        assert script[..i + 1][..i] == script[..i];
        var more := Step(script[i], T);
        log := log + more;
      }
      assert script[..|script|] == script;
    }
  }

  datatype Call = SendCall(more: Bits) | RecvCall(t: ThreadId, d: Demand, patient: bool) | TimerCall(t: ThreadId)

  function Sent(c: Call): Bits {
    if c.SendCall? then c.more else {}
  }

  function SentBy(script: seq<Call>): Bits {
    if script == [] then {} else SentBy(script[..|script| - 1]) + Sent(script[|script| - 1])
  }

  /** A send delivers bits of the set, at least one to each thread it resumes, and takes nobody else off the list. */
  lemma {:induction false} ScanDelivers(s: Bits, ws: seq<ThreadId>, info: map<ThreadId, Demand>)
    requires forall t :: t in ws ==> InfoOf(info, t).Legal()
    ensures forall g :: g in Scan(s, ws, info).woken ==>
                          g.thread in ws && g.bits != {} && g.bits <= s && g.bits <= InfoOf(info, g.thread).want
    ensures forall t :: t in ws <==>
      t in Scan(s, ws, info).kept || exists g :: g in Scan(s, ws, info).woken && g.thread == t
  {
    if ws != [] {
      var d := InfoOf(info, ws[0]);
      var r := Scan(s, ws, info);
      assert ws == [ws[0]] + ws[1..];
      if d.Met(s) {
        assert d.all ==> d.want <= s by {
          if d.all {
            assert forall b :: b in d.want ==> b in s * d.want;
          }
        }
        ScanDelivers(Cleared(s, d), ws[1..], info);
        assert r.woken[0] == Got(ws[0], Received(s, d));
        assert r.woken == [r.woken[0]] + r.woken[1..];
      } else {
        ScanDelivers(s, ws[1..], info);
        assert r.kept == [ws[0]] + r.kept[1..];
      }
    }
  }

  lemma RemoveAt(ws: seq<ThreadId>, n: nat)
    requires Distinct(ws) && n < |ws|
    ensures Distinct(ws[..n] + ws[n + 1..]) && ws[n] !in ws[..n] + ws[n + 1..]
    ensures forall t :: t in ws[..n] + ws[n + 1..] ==> t in ws
  {}
}
