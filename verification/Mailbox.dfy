/** The mailbox (rt-thread/src/ipc.c): a ring of words with waiting senders and receivers. */
module Mailbox {
  import opened Lists
  import opened Wakeups
  import PriorityInheritance

  const RT_MB_ENTRY_MAX := 0xffff

  datatype Outcome = Suspended | Ok | Full | Timeout

  /** Position i places behind offset in a ring of the given size. */
  function Slot(size: nat, offset: nat, i: nat): nat {
    if offset + i < size then offset + i else offset + i - size
  }

  function Word(pool: seq<int>, i: int): int {
    if 0 <= i < |pool| then pool[i] else 0
  }

  /** The mails between the offsets, oldest first. */
  function Ring(pool: seq<int>, offset: nat, n: nat): (r: seq<int>)
    ensures |r| == n && forall i :: 0 <= i < n ==> r[i] == Word(pool, Slot(|pool|, offset, i))
  {
    seq(n, i requires 0 <= i < n => Word(pool, Slot(|pool|, offset, i)))
  }

  lemma RingAppend(pool: seq<int>, offset: nat, n: nat, v: int)
    requires n < |pool| && offset < |pool|
    ensures Slot(|pool|, offset, n) < |pool|
    ensures Ring(pool[Slot(|pool|, offset, n) := v], offset, n + 1) == Ring(pool, offset, n) + [v]
  {
    var r, s := Ring(pool[Slot(|pool|, offset, n) := v], offset, n + 1), Ring(pool, offset, n) + [v];
    forall i | 0 <= i < n + 1 ensures r[i] == s[i] {
      assert i < n ==> s[i] == Word(pool, Slot(|pool|, offset, i));
    }
  }

  lemma RingPrepend(pool: seq<int>, offset: nat, n: nat, v: int)
    requires n < |pool| && offset < |pool|
    ensures var o := if offset > 0 then offset - 1 else |pool| - 1;
            Ring(pool[o := v], o, n + 1) == [v] + Ring(pool, offset, n)
  {
    var o := if offset > 0 then offset - 1 else |pool| - 1;
    var r, s := Ring(pool[o := v], o, n + 1), [v] + Ring(pool, offset, n);
    forall i | 0 <= i < n + 1 ensures r[i] == s[i] {
      if i > 0 {
        assert Slot(|pool|, o, i) == Slot(|pool|, offset, i - 1);
        assert s[i] == Word(pool, Slot(|pool|, offset, i - 1));
      }
    }
  }

  lemma RingDrop(pool: seq<int>, offset: nat, n: nat)
    requires 0 < n <= |pool| && offset < |pool|
    ensures Ring(pool, offset, n)[1..] == Ring(pool, Slot(|pool|, offset, 1), n - 1)
    ensures Ring(pool, offset, n)[0] == pool[offset]
  {
    var r, s := Ring(pool, offset, n)[1..], Ring(pool, Slot(|pool|, offset, 1), n - 1);
    forall i | 0 <= i < n - 1 ensures r[i] == s[i] {
      assert r[i] == Word(pool, Slot(|pool|, offset, i + 1));
      assert Slot(|pool|, offset, i + 1) == Slot(|pool|, Slot(|pool|, offset, 1), i);
    }
  }

  class Box {
    const pool: array<int>
    const flag: Flag
    var entry: nat
    var inOffset: nat
    var outOffset: nat
    var receivers: Line
    var senders: Line

    /** The mails lie between the two offsets. */
    ghost predicate Ringed()
      reads this
    {
      && entry <= pool.Length <= RT_MB_ENTRY_MAX
      && (if pool.Length == 0 then outOffset == 0 else outOffset < pool.Length)
      && (if pool.Length == 0 then inOffset == 0 else inOffset == Slot(pool.Length, outOffset, entry))
    }

    ghost predicate Valid()
      reads this
    {
      && Ringed()
      && receivers.Valid() && receivers.Served(entry)
      && senders.Valid() && senders.Served(pool.Length - entry)
    }

    ghost function Mails(): seq<int>
      reads this, pool
    {
      Ring(pool[..], outOffset, entry)
    }

    /** A thread that is suspended nowhere, or has just been resumed for the list `mine`. */
    predicate MayRun(t: ThreadId, mine: Line, other: Line): (r: bool)
      reads this
      ensures r <==> t !in mine.waiting && t !in other.waiting && t !in other.resumed
    {
      t !in mine.waiting && !other.Has(t)
    }

    constructor (size: nat, f: Flag)
      requires size <= RT_MB_ENTRY_MAX
      ensures Valid() && fresh(pool) && pool.Length == size && Mails() == []
    {
      pool, flag := new int[size], f;
      entry, inOffset, outOffset := 0, 0, 0;
      receivers, senders := Line([], {}), Line([], {});
    }

    method Write(i: nat, value: int)
      requires i < pool.Length
      modifies pool
      ensures pool[..] == old(pool[..])[i := value]
    {
      pool[i] := value;
    }

    /** The ring's part of a send. */
    method Store(value: int)
      requires Ringed() && entry < pool.Length
      modifies this`inOffset, this`entry, pool
      ensures Ringed() && entry == old(entry) + 1 && Mails() == old(Mails()) + [value]
    {
      RingAppend(pool[..], outOffset, entry, value);
      Write(inOffset, value);
      inOffset := inOffset + 1;
      if inOffset >= pool.Length {
        inOffset := 0;
      }
      if entry < RT_MB_ENTRY_MAX {
        entry := entry + 1;
      } else {
        assert false; // the overflow return is never taken
      }
    }

    /** The ring's part of an urgent send. */
    method StoreFirst(value: int)
      requires Ringed() && entry < pool.Length
      modifies this`outOffset, this`entry, pool
      ensures Ringed() && entry == old(entry) + 1 && Mails() == [value] + old(Mails())
    {
      ghost var was, o := pool[..], outOffset;
      RingPrepend(was, o, entry, value);
      StepBack();
      Write(outOffset, value);
      entry := entry + 1;
      assert pool[..] == was[outOffset := value];
    }

    method StepBack()
      requires Ringed() && entry < pool.Length
      modifies this`outOffset
      ensures outOffset == if old(outOffset) > 0 then old(outOffset) - 1 else pool.Length - 1
      ensures inOffset == Slot(pool.Length, outOffset, entry + 1)
    {
      if outOffset > 0 {
        outOffset := outOffset - 1;
      } else {
        outOffset := pool.Length - 1;
      }
    }

    /** The ring's part of a receive. */
    method Fetch() returns (value: int)
      requires Ringed() && entry > 0
      modifies this`outOffset, this`entry
      ensures Ringed() && entry == old(entry) - 1
      ensures value == old(Mails())[0] && Mails() == old(Mails())[1..]
    {
      RingDrop(pool[..], outOffset, entry);
      value := pool[outOffset];
      outOffset := outOffset + 1;
      if outOffset >= pool.Length {
        outOffset := 0;
      }
      entry := entry - 1;
    }

    /** One pass of a send through its critical section. */
    method Send(t: ThreadId, value: int, patient: bool, T: PriorityInheritance.Threads) returns (s: Outcome)
      requires Valid() && MayRun(t, senders, receivers)
      modifies this, pool
      ensures Valid()
      ensures s == Ok <==> old(|Mails()|) < pool.Length
      ensures s == Suspended <==> old(|Mails()|) == pool.Length && patient
      ensures s == Full <==> old(|Mails()|) == pool.Length && !patient
      ensures Mails() == if s == Ok then old(Mails()) + [value] else old(Mails())
      ensures receivers == if s == Ok then old(receivers.Resume()) else old(receivers)
      ensures senders == if s == Suspended then old(senders.Runs(t).Suspend(T, flag, t)) else old(senders.Runs(t))
    {
      senders.TakeServes(pool.Length - entry, t);
      if entry == pool.Length {
        if !patient {
          senders := senders.Runs(t);
          return Full;
        }
        senders.Runs(t).SuspendServes(T, flag, t);
        senders := senders.Runs(t).Suspend(T, flag, t);
        return Suspended;
      }
      receivers.ResumeServes(entry);
      Store(value);
      senders := senders.Runs(t);
      receivers := receivers.Resume();
      s := Ok;
    }

    method Urgent(value: int) returns (s: Outcome)
      requires Valid()
      modifies this, pool
      ensures Valid() && senders == old(senders)
      ensures s == if old(|Mails()|) < pool.Length then Ok else Full
      ensures Mails() == if s == Ok then [value] + old(Mails()) else old(Mails())
      ensures receivers == if s == Ok then old(receivers.Resume()) else old(receivers)
    {
      if entry == pool.Length {
        return Full;
      }
      receivers.ResumeServes(entry);
      StoreFirst(value);
      receivers := receivers.Resume();
      s := Ok;
    }

    /** One pass of a receive through its critical section. */
    method Recv(t: ThreadId, patient: bool, T: PriorityInheritance.Threads) returns (s: Outcome, value: int)
      requires Valid() && MayRun(t, receivers, senders)
      modifies this
      ensures Valid()
      ensures s == Ok <==> old(Mails()) != []
      ensures s == Suspended <==> old(Mails()) == [] && patient
      ensures s == Timeout <==> old(Mails()) == [] && !patient
      ensures s == Ok ==> value == old(Mails())[0] && Mails() == old(Mails())[1..]
      ensures s != Ok ==> Mails() == []
      ensures senders == if s == Ok then old(senders.Resume()) else old(senders)
      ensures receivers == if s == Suspended then old(receivers.Runs(t).Suspend(T, flag, t)) else old(receivers.Runs(t))
    {
      value := 0;
      receivers.TakeServes(entry, t);
      if entry == 0 {
        receivers.NothingServes(t);
        if !patient {
          receivers := receivers.Runs(t);
          s := Timeout;
        } else {
          receivers.Runs(t).SuspendServes(T, flag, t);
          receivers := receivers.Runs(t).Suspend(T, flag, t);
          s := Suspended;
        }
        return;
      }
      senders.ResumeServes(pool.Length - entry);
      value := Fetch();
      receivers := receivers.Runs(t);
      senders := senders.Resume();
      s := Ok;
    }

    method Expire(t: ThreadId)
      requires Valid()
      modifies this`receivers, this`senders
      ensures Valid() && receivers == old(receivers.Expire(t)) && senders == old(senders.Expire(t))
    {
      receivers.ExpireServes(entry, t);
      senders.ExpireServes(pool.Length - entry, t);
      receivers := receivers.Expire(t);
      senders := senders.Expire(t);
    }

    method Reset()
      requires Valid()
      modifies this
      ensures Valid() && Mails() == []
      ensures receivers == old(receivers.Dismiss()) && senders == old(senders.Dismiss())
    {
      receivers := receivers.Dismiss();
      senders := senders.Dismiss();
      entry, inOffset, outOffset := 0, 0, 0;
    }

    // ----- Runs -----

    /** One step; what it put into the mailbox and what it took out. */
    method Step(e: Event, T: PriorityInheritance.Threads) returns (posted: seq<int>, fetched: seq<int>)
      requires Valid()
      modifies this, pool
      ensures Valid()
      ensures Ordinary(e) ==> old(Mails()) + posted == fetched + Mails()
      ensures !e.Clear? ==> multiset(old(Mails())) + multiset(posted) == multiset(fetched) + multiset(Mails())
      ensures e.Urgent? || (e.Send? && e.t !in old(senders.waiting) && !old(receivers.Has(e.t))) ==>
                posted == if old(|Mails()|) < pool.Length then [e.value] else []
      ensures e.Recv? && e.t !in old(receivers.waiting) && !old(senders.Has(e.t)) ==>
                fetched == if old(Mails()) != [] then [old(Mails())[0]] else []
    {
      posted, fetched := [], [];
      ghost var before := Mails();
      match e {
        case Send(t, value, patient) =>
          if MayRun(t, senders, receivers) {
            var s := Send(t, value, patient, T);
            if s == Ok {
              posted := [value];
            }
          }
        case Urgent(value) =>
          var s := Urgent(value);
          if s == Ok {
            posted := [value];
          }
        case Recv(t, patient) =>
          if MayRun(t, receivers, senders) {
            fetched := Take(t, patient, T);
          }
        case Timer(t) => Expire(t);
        case Clear => Reset();
      }
      if !e.Clear? {
        SameMails(before, posted, fetched, Mails());
      }
    }

    method Take(t: ThreadId, patient: bool, T: PriorityInheritance.Threads) returns (fetched: seq<int>)
      requires Valid() && MayRun(t, receivers, senders)
      modifies this
      ensures Valid() && old(Mails()) == fetched + Mails()
      ensures fetched == if old(Mails()) != [] then [old(Mails())[0]] else []
    {
      ghost var before := Mails();
      var s, value := Recv(t, patient, T);
      if s == Ok {
        assert before == [before[0]] + before[1..];
        return [value];
      }
      fetched := [];
    }

    /**
     * After any run no wakeup is lost. Without resets every mail is received once or still there, and without urgent
     * mails the mails come out in the order in which they went in.
     */
    method Run(script: seq<Event>, T: PriorityInheritance.Threads) returns (posted: seq<int>, fetched: seq<int>)
      requires Valid() && Mails() == []
      modifies this, pool
      ensures Valid()
      ensures (forall e :: e in script ==> !e.Clear?) ==> multiset(posted) == multiset(fetched) + multiset(Mails())
      ensures (forall e :: e in script ==> Ordinary(e)) ==> posted == fetched + Mails()
    {
      posted, fetched := [], [];
      for i := 0 to |script|
        invariant Valid()
        invariant (forall e :: e in script ==> !e.Clear?) ==> multiset(posted) == multiset(fetched) + multiset(Mails())
        invariant (forall e :: e in script ==> Ordinary(e)) ==> posted == fetched + Mails()
      {
        assert script[i] in script;
        ghost var before := Mails();
        var p, f := Step(script[i], T);
        InOrder(posted, fetched, before, p, f, Mails());
        posted, fetched := posted + p, fetched + f;
      }
    }
  }

  datatype Event =
    | Send(t: ThreadId, value: int, patient: bool)
    | Urgent(value: int)
    | Recv(t: ThreadId, patient: bool)
    | Timer(t: ThreadId)
    | Clear

  predicate Ordinary(e: Event) {
    !e.Clear? && !e.Urgent?
  }

  /** What goes in at either end, or comes out in front, is neither lost nor doubled. */
  lemma SameMails(before: seq<int>, p: seq<int>, f: seq<int>, after: seq<int>)
    requires before + p == f + after || (p + before == after && f == [])
    ensures multiset(before) + multiset(p) == multiset(f) + multiset(after)
  {
    if before + p == f + after {
      assert multiset(before + p) == multiset(before) + multiset(p);
      assert multiset(f + after) == multiset(f) + multiset(after);
    } else {
      assert multiset(p + before) == multiset(p) + multiset(before);
    }
  }

  lemma Balance(posted: multiset<int>, fetched: multiset<int>, before: multiset<int>,
                p: multiset<int>, f: multiset<int>, after: multiset<int>)
    requires posted == fetched + before && before + p == f + after
    ensures posted + p == fetched + f + after
  {
    assert fetched + before + p == fetched + (before + p);
    assert fetched + (f + after) == fetched + f + after;
  }

  lemma InOrder(posted: seq<int>, fetched: seq<int>, before: seq<int>, p: seq<int>, f: seq<int>, after: seq<int>)
    ensures posted == fetched + before && before + p == f + after ==> posted + p == fetched + f + after
    ensures multiset(posted) == multiset(fetched) + multiset(before)
            && multiset(before) + multiset(p) == multiset(f) + multiset(after) ==>
              multiset(posted + p) == multiset(fetched + f) + multiset(after)
  {
    assert posted == fetched + before && before + p == f + after ==> posted + p == fetched + (before + p);
    assert multiset(posted + p) == multiset(posted) + multiset(p);
    assert multiset(fetched + f) == multiset(fetched) + multiset(f);
    if multiset(posted) == multiset(fetched) + multiset(before) &&
      multiset(before) + multiset(p) == multiset(f) + multiset(after) {
      Balance(multiset(posted), multiset(fetched), multiset(before), multiset(p), multiset(f), multiset(after));
    }
  }
}
