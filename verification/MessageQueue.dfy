/**
 * The message queue (rt-thread/src/ipc.c), one method per critical section or private copy: between two of them any
 * other thread may run. A send is BeginSend, Fill, Link; a receive is BeginRecv, CopyOut, GiveBack. A step that
 * suspends is tried again from its beginning when the thread has been resumed.
 */
module MessageQueue {
  import opened Lists
  import opened Wakeups
  import opened MessageCells
  import opened MessageMoves
  import PriorityInheritance

  const RT_MQ_ENTRY_MAX := 0xffff

  /** How a step ends: the call goes on, or returns this status. */
  datatype Outcome = Goes | Suspended | Ok | Full | Timeout | Error

  class Queue {
    const max: nat
    const msgSize: nat
    const flag: Flag
    const next: array<int>
    const data: array<Message>
    var head: int
    var tail: int
    var freeHead: int
    var entry: nat
    var receivers: Line
    var senders: Line
    var held: Holds
    ghost var queue: seq<nat>
    ghost var free: seq<nat>
    ghost var place: seq<Place>

    /** The pointers describe the two chains, and every cell has one owner. */
    ghost predicate Chained()
      reads this, next
    {
      && next.Length == data.Length == |place| == max
      && 0 < max <= RT_MQ_ENTRY_MAX
      && Chain(next[..], head, queue)
      && Chain(next[..], freeHead, free)
      && tail == Last(queue)
      && Split(place, free, queue, held)
    }

    ghost predicate Wired()
      reads this, next
    {
      Chained() && entry == |queue|
    }

    /** What a thread holds is what it has written or unlinked, whatever ran in between. */
    ghost predicate Holding(t: ThreadId)
      requires t in held
      reads this, next, data
    {
      var h := held[t];
      && h.cell < next.Length && h.cell < data.Length
      && (h.Filled? ==> data[h.cell] == h.message && (!h.urgent ==> next[h.cell] == NIL))
      && (h.Taken? ==> data[h.cell] == h.message)
      && !receivers.Has(t) && !senders.Has(t)
    }

    /** Nobody sleeps while there is something for him: messages for receivers, free cells for senders. */
    ghost predicate NoLostWakeup()
      reads this
    {
      && receivers.Valid() && receivers.Served(entry)
      && senders.Valid() && senders.Served(|free|)
      && forall t :: !(receivers.Has(t) && senders.Has(t))
    }

    ghost predicate Valid()
      reads this, next, data
    {
      && Wired()
      && NoLostWakeup()
      && forall t: ThreadId {:trigger Holding(t)} :: t in held ==> Holding(t)
    }

    /** The stored messages in the order receives take them. */
    ghost function Messages(): seq<Message>
      reads this, data
    {
      Contents(data[..], queue)
    }

    /** A thread that is in none of the queue's operations, or has just been resumed for the list `mine`. */
    predicate MayRun(t: ThreadId, mine: Line, other: Line): (r: bool)
      reads this
      ensures r <==> t !in held && t !in mine.waiting && t !in other.waiting && t !in other.resumed
    {
      t !in held && t !in mine.waiting && !other.Has(t)
    }

    /** rt_mq_init over a pool of n cells. */
    constructor (n: nat, size: nat, f: Flag)
      requires 0 < n <= RT_MQ_ENTRY_MAX
      ensures Valid() && fresh(next) && fresh(data)
      ensures max == n && Messages() == [] && |free| == n && held == map[]
    {
      max, msgSize, flag := n, size, f;
      next := new int[n](i => NIL);
      data := new Message[n](i => []);
      head, tail, freeHead, entry := NIL, NIL, NIL, 0;
      receivers, senders := Line([], {}), Line([], {});
      held := map[];
      queue, free := [], [];
      place := seq(n, i => Queued);
      new;
      var temp := 0;
      while temp < n
        invariant 0 <= temp <= n
        invariant |free| == temp && Distinct(free)
        invariant forall c: nat :: c in free <==> c < temp
        invariant Chain(next[..], freeHead, free)
        invariant fresh(next) && fresh(data) && next.Length == data.Length == n
        invariant head == tail == NIL && entry == 0 && queue == [] && held == map[]
        invariant receivers == senders == Line([], {})
      {
        label Before:
        ChainPush(next[..], freeHead, free, temp);
        next[temp] := freeHead;
        assert next[..] == old@Before(next[..])[temp := freeHead];
        freeHead := temp;
        free := [temp] + free;
        temp := temp + 1;
      }
      place := seq(n, i => Free);
      forall c | 0 <= c < n ensures Placed(place, free, queue, held, c) {
      }
    }

    /**
     * The first critical section of a send (urgent or not): take a free cell, or with none left give up or wait.
     * patient says whether the remaining timeout is nonzero; an urgent send never waits.
     */
    method BeginSend(t: ThreadId, m: Message, urgent: bool, patient: bool, T: PriorityInheritance.Threads)
      returns (s: Outcome)
      requires Valid() && MayRun(t, senders, receivers) && (t in senders.resumed ==> |m| <= msgSize)
      modifies this
      ensures Valid() && Messages() == old(Messages()) && receivers == old(receivers)
      ensures s == Error <==> |m| > msgSize
      ensures s == Goes <==> |m| <= msgSize && old(free) != []
      ensures s == Suspended <==> |m| <= msgSize && old(free) == [] && patient && !urgent
      ensures s == Full <==> |m| <= msgSize && old(free) == [] && (urgent || !patient)
      ensures s == Error ==> senders == old(senders)
      ensures s == Goes || s == Full ==> senders == old(senders.Runs(t))
      ensures s == Suspended ==> senders == old(senders.Runs(t).Suspend(T, flag, t))
      ensures if s == Goes then held == old(held)[t := Grabbed(old(free[0]), m, urgent)] && free == old(free[1..])
              else held == old(held) && free == old(free)
    {
      if |m| > msgSize {
        return Error;
      }
      senders.TakeServes(|free|, t);
      if freeHead == NIL {
        if urgent || !patient {
          senders := senders.Runs(t);
          forall u | u in held ensures Holding(u) {
            assert old(Holding(u));
          }
          return Full;
        }
        senders.Runs(t).SuspendServes(T, flag, t);
        senders := senders.Runs(t).Suspend(T, flag, t);
        forall u | u in held ensures Holding(u) {
          assert old(Holding(u));
        }
        return Suspended;
      }
      Grab(t, Grabbed(freeHead, m, urgent));
      s := Goes;
    }

    /** msg_queue_free = msg->next. */
    method Grab(t: ThreadId, h: Hold)
      requires Valid() && MayRun(t, senders, receivers) && freeHead != NIL && h.Grabbed? && h.cell == freeHead
      modifies this
      ensures Valid() && Messages() == old(Messages()) && receivers == old(receivers)
      ensures senders == old(senders.Runs(t)) && held == old(held)[t := h]
      ensures free == old(free[1..]) && old(free[0]) == h.cell
    {
      senders.TakeServes(|free|, t);
      ChainTail(next[..], freeHead, free);
      SplitGrab(place, free, queue, held, t, h);
      senders := senders.Runs(t);
      place := place[h.cell := Held(t)];
      freeHead := next[freeHead];
      free := free[1..];
      held := held[t := h];
      forall u | u in held && u != t ensures Holding(u) {
        assert old(Holding(u));
      }
    }

    /** Outside any critical section: the thread writes the cell it has taken. */
    method Fill(t: ThreadId)
      requires Valid() && t in held && held[t].Grabbed?
      modifies this`held, next, data
      ensures Valid() && Messages() == old(Messages())
      ensures held == old(held)[t := Filled(old(held[t].cell), old(held[t].message), old(held[t].urgent))]
    {
      var c, m := held[t].cell, held[t].message;
      assert Holding(t);
      HeldApart(place, free, queue, held, t);
      ContentsFrame(data[..], queue, c, m);
      SplitSwap(place, free, queue, held, t, Filled(c, m, held[t].urgent));
      if !held[t].urgent {
        ChainFrame(next[..], head, queue, c, NIL);
        ChainFrame(next[..], freeHead, free, c, NIL);
        next[c] := NIL;
        assert next[..] == old(next[..])[c := NIL];
      }
      data[c] := m;
      assert data[..] == old(data[..])[c := m];
      held := held[t := Filled(c, m, held[t].urgent)];
      forall u | u in held && u != t ensures Holding(u) {
        assert old(Holding(u));
      }
    }

    /**
     * The second critical section of a send: an ordinary message becomes the last one, an urgent message the first,
     * and a waiting receiver is resumed. The return on counter overflow is never taken.
     */
    method Link(t: ThreadId) returns (s: Outcome)
      requires Valid() && t in held && held[t].Filled?
      modifies this, next
      ensures Valid() && s == Ok
      ensures var m := old(held[t].message);
              Messages() == if old(held[t].urgent) then [m] + old(Messages()) else old(Messages()) + [m]
      ensures receivers == old(receivers.Resume()) && senders == old(senders)
      ensures held == old(held) - {t} && free == old(free)
    {
      assert Holding(t);
      RoomToLink(place, free, queue, held, t);
      LinkedContents(data[..], queue, held[t].cell, held[t].urgent);
      Enchain(t);
      s := Announce();
    }

    /** The counter follows the queue, and one receiver is resumed. */
    method Announce() returns (s: Outcome)
      requires Chained() && |queue| == entry + 1 && entry < RT_MQ_ENTRY_MAX && NoLostWakeup()
      requires forall u: ThreadId {:trigger Holding(u)} :: u in held ==> Holding(u)
      modifies this`entry, this`receivers
      ensures Valid() && s == Ok && receivers == old(receivers.Resume())
    {
      receivers.ResumeServes(entry);
      if entry < RT_MQ_ENTRY_MAX {
        entry := entry + 1;
      } else {
        assert false;
        return Full;
      }
      receivers := receivers.Resume();
      s := Ok;
      forall u | u in held ensures Holding(u) {
        assert old(Holding(u));
      }
    }

    /** The cell joins the queue chain, at the front when the message is urgent; nobody else's cell changes. */
    method Enchain(t: ThreadId)
      requires Wired() && t in held && held[t].Filled? && held[t].cell < max
      requires !held[t].urgent ==> next[held[t].cell] == NIL
      requires forall u: ThreadId {:trigger Holding(u)} :: u in held ==> Holding(u)
      modifies this`head, this`tail, this`held, this`queue, this`place, next
      ensures Chained() && held == old(held) - {t}
      ensures queue ==
        if old(held[t].urgent) then [old(held[t].cell)] + old(queue) else old(queue) + [old(held[t].cell)]
      ensures forall u: ThreadId {:trigger Holding(u)} :: u in held ==> Holding(u)
    {
      if held[t].urgent {
        LinkFirstChains(next[..], head, freeHead, place, free, queue, held, t);
        LinkFirst(t);
      } else {
        LinkLastChains(next[..], head, freeHead, place, free, queue, held, t);
        LinkLast(t);
      }
      forall u | u in held ensures Holding(u) {
        assert old(Holding(u));
      }
    }

    /** The pointers of Link for an ordinary message. */
    method LinkLast(t: ThreadId)
      requires Wired() && t in held && held[t].cell < max && next[held[t].cell] == NIL
      modifies this`head, this`tail, this`held, this`queue, this`place, next
      ensures Chained() && queue == old(queue) + [old(held[t].cell)] && held == old(held) - {t}
      ensures Last(old(queue)) < max && next[..] == LinkedLast(old(next[..]), old(queue), old(held[t].cell))
    {
      var c := held[t].cell;
      SplitLink(place, free, queue, held, t, false);
      LinkLastChains(next[..], head, freeHead, place, free, queue, held, t);
      SetNextOfTail(c);
      place := place[c := Queued];
      queue := queue + [c];
      held := held - {t};
    }

    /** The tail's next, the tail, and the head of a queue that was empty. */
    method SetNextOfTail(c: nat)
      requires tail < next.Length && tail >= NIL
      modifies this`tail, this`head, next
      ensures next[..] == if old(tail) == NIL then old(next[..]) else old(next[..])[old(tail) := c]
      ensures tail == c && head == if old(head) == NIL then c else old(head)
    {
      if tail != NIL {
        next[tail] := c;
      }
      tail := c;
      if head == NIL {
        head := c;
      }
    }

    /** The pointers of Link for an urgent message. */
    method LinkFirst(t: ThreadId)
      requires Wired() && t in held && held[t].cell < max
      modifies this`head, this`tail, this`held, this`queue, this`place, next
      ensures Chained() && queue == [old(held[t].cell)] + old(queue) && held == old(held) - {t}
      ensures next[..] == old(next[..])[old(held[t].cell) := old(head)]
    {
      var c := held[t].cell;
      SplitLink(place, free, queue, held, t, true);
      LinkFirstChains(next[..], head, freeHead, place, free, queue, held, t);
      SetHead(c);
      place := place[c := Queued];
      queue := [c] + queue;
      held := held - {t};
    }

    /** The new cell's next, the head, and the tail of a queue that was empty. */
    method SetHead(c: nat)
      requires c < next.Length
      modifies this`tail, this`head, next
      ensures next[..] == old(next[..])[c := old(head)]
      ensures head == c && tail == if old(tail) == NIL then c else old(tail)
    {
      next[c] := head;
      head := c;
      if tail == NIL {
        tail := c;
      }
    }

    /** The first critical section of a receive: unlink the first message, or with none stored give up or wait. */
    method BeginRecv(t: ThreadId, patient: bool, T: PriorityInheritance.Threads) returns (s: Outcome)
      requires Valid() && MayRun(t, receivers, senders)
      modifies this
      ensures Valid() && senders == old(senders) && free == old(free)
      ensures s == Goes <==> old(Messages()) != []
      ensures s == Suspended <==> old(Messages()) == [] && patient
      ensures s == Timeout <==> old(Messages()) == [] && !patient
      ensures receivers == if s == Suspended then old(receivers.Runs(t).Suspend(T, flag, t)) else old(receivers.Runs(t))
      ensures s == Goes ==>
        Messages() == old(Messages())[1..] && held == old(held)[t := Taken(old(queue[0]), old(Messages())[0])]
      ensures s != Goes ==> Messages() == old(Messages()) && held == old(held)
    {
      if entry == 0 {
        receivers.NothingServes(t);
        if !patient {
          receivers := receivers.Runs(t);
          s := Timeout;
        } else {
          receivers.Runs(t).SuspendServes(T, flag, t);
          receivers := receivers.Runs(t).Suspend(T, flag, t);
          s := Suspended;
        }
        forall u | u in held ensures Holding(u) {
          assert old(Holding(u));
        }
        return;
      }
      Unlink(t);
      s := Goes;
    }

    /** msg_queue_head = msg->next, with the tail and the counter. */
    method Unlink(t: ThreadId)
      requires Valid() && MayRun(t, receivers, senders) && entry > 0
      modifies this
      ensures Valid() && senders == old(senders) && free == old(free) && receivers == old(receivers.Runs(t))
      ensures Messages() == old(Messages())[1..]
      ensures held == old(held)[t := Taken(old(queue[0]), old(Messages())[0])]
    {
      receivers.TakeServes(entry, t);
      DetachFirst(t);
      entry := entry - 1;
      receivers := receivers.Runs(t);
      forall u | u in held && u != t ensures Holding(u) {
        assert old(Holding(u));
      }
    }

    /** The pointers of Unlink. */
    method DetachFirst(t: ThreadId)
      requires Wired() && t !in held && entry > 0
      modifies this`head, this`tail, this`held, this`queue, this`place
      ensures Chained() && |queue| == entry - 1 && Messages() == old(Messages())[1..]
      ensures held == old(held)[t := Taken(old(queue[0]), old(Messages())[0])]
      ensures held[t].cell < max && data[held[t].cell] == held[t].message
    {
      UnlinkedFirst(next[..], head, data[..], free, queue, place, held, t);
      var msg := head;
      head := next[msg];
      if tail == msg {
        tail := NIL;
      }
      place := place[msg := Held(t)];
      queue := queue[1..];
      held := held[t := Taken(msg, data[msg])];
    }

    /** Outside any critical section: as much of the message as the caller's buffer takes. */
    method CopyOut(t: ThreadId, size: nat) returns (buffer: Message)
      requires Valid() && t in held && held[t].Taken?
      modifies this`held
      ensures Valid() && Messages() == old(Messages())
      ensures var m := old(held[t].message); buffer == if |m| > size then m[..size] else m
      ensures held == old(held)[t := Emptied(old(held[t].cell))]
    {
      assert Holding(t);
      var c := held[t].cell;
      var len := |data[c]|;
      if len > size {
        len := size;
      }
      buffer := data[c][..len];
      SplitSwap(place, free, queue, held, t, Emptied(c));
      held := held[t := Emptied(c)];
      forall u | u in held && u != t ensures Holding(u) {
        assert old(Holding(u));
      }
    }

    /** The second critical section of a receive: the cell becomes free and a waiting sender is resumed. */
    method GiveBack(t: ThreadId)
      requires Valid() && t in held && held[t].Emptied?
      modifies this, next
      ensures Valid() && Messages() == old(Messages()) && receivers == old(receivers)
      ensures senders == old(senders.Resume()) && held == old(held) - {t}
      ensures free == [old(held[t].cell)] + old(free)
    {
      var c := held[t].cell;
      assert Holding(t);
      senders.ResumeServes(|free|);
      HeldApart(place, free, queue, held, t);
      SplitFree(place, free, queue, held, t);
      ChainPush(next[..], freeHead, free, c);
      ChainFrame(next[..], head, queue, c, freeHead);
      next[c] := freeHead;
      assert next[..] == old(next[..])[c := freeHead];
      freeHead := c;
      place := place[c := Free];
      free := [c] + free;
      held := held - {t};
      senders := senders.Resume();
      forall u | u in held && u != t ensures Holding(u) {
        assert old(Holding(u));
      }
    }

    /** A waiting thread's timer: it returns an error and takes nothing. */
    method Expire(t: ThreadId)
      requires Valid() && (t in receivers.waiting || t in senders.waiting)
      modifies this`receivers, this`senders
      ensures Valid()
      ensures receivers == old(receivers.Expire(t)) && senders == old(senders.Expire(t))
    {
      receivers.ExpireServes(entry, t);
      senders.ExpireServes(|free|, t);
      receivers := receivers.Expire(t);
      senders := senders.Expire(t);
      forall u | u in held ensures Holding(u) {
        assert old(Holding(u));
      }
    }

    /** RT_IPC_CMD_RESET: every waiter is dismissed and every stored message dropped; cells in hand stay in hand. */
    method Reset()
      requires Valid()
      modifies this, next
      ensures Valid() && Messages() == [] && held == old(held) && |free| == old(|free| + |queue|)
      ensures receivers == old(receivers.Dismiss()) && senders == old(senders.Dismiss())
    {
      forall u | u in held ensures held[u].cell < max {
        assert Holding(u);
      }
      receivers.DismissServes(0);
      senders.DismissServes(|free| + |queue|);
      receivers := receivers.Dismiss();
      senders := senders.Dismiss();
      while head != NIL
        invariant Chained() && held == old(held) && |free| + |queue| == old(|free| + |queue|)
        invariant receivers == old(receivers.Dismiss()) && senders == old(senders.Dismiss())
        invariant forall u :: u in held ==> held[u].cell < max && next[held[u].cell] == old(next[..])[held[u].cell]
        decreases |queue|
      {
        DropFirst();
      }
      entry := 0;
      forall u | u in held ensures Holding(u) {
        assert old(Holding(u));
      }
    }

    method DropFirst()
      requires Chained() && head != NIL
      modifies this`head, this`tail, this`freeHead, this`queue, this`free, this`place, next
      ensures Chained() && queue == old(queue)[1..] && |free| == old(|free|) + 1
      ensures forall u :: u in held && held[u].cell < max ==> next[held[u].cell] == old(next[..])[held[u].cell]
    {
      var msg := head;
      SplitDrop(place, free, queue, held);
      FreeApart(place, free, queue, held, queue[0]);
      ChainTail(next[..], head, queue);
      DistinctTail(queue);
      head := next[msg];
      TailOfRest(queue);
      if tail == msg {
        tail := NIL;
      }
      ChainPush(next[..], freeHead, free, msg);
      ChainFrame(next[..], head, queue[1..], msg, freeHead);
      next[msg] := freeHead;
      assert next[..] == old(next[..])[msg := freeHead];
      freeHead := msg;
      place := place[msg := Free];
      free := [msg] + free;
      queue := queue[1..];
    }

    /** One step of a sender; a step the thread is not in a position to take does nothing. */
    method SendStep(e: Event, T: PriorityInheritance.Threads) returns (ghost move: Option<Move>)
      requires Valid() && (e.Send? || e.Write? || e.Post?)
      modifies this, next, data
      ensures Valid() && Apply(old(Messages()), move) == Some(Messages())
      ensures Fits(e, old(held), move) && HandsFollow(e, old(held), held)
      ensures e.Send? && old(MayRun(e.t, senders, receivers)) && |e.message| <= msgSize && old(free) != [] ==>
        e.t in held
      ensures GoesOn(e, old(held), held)
    {
      move := None;
      if e.Send? {
        if MayRun(e.t, senders, receivers) && (e.t in senders.resumed ==> |e.message| <= msgSize) {
          var s := BeginSend(e.t, e.message, e.urgent, e.patient, T);
        }
      } else if e.Write? {
        if e.t in held && held[e.t].Grabbed? {
          Fill(e.t);
        }
      } else if e.t in held && held[e.t].Filled? {
        var m := held[e.t].message;
        move := Some(if held[e.t].urgent then ToFront(e.t, m) else ToBack(e.t, m));
        var s := Link(e.t);
      }
    }

    /** One step of a receiver. */
    method RecvStep(e: Event, T: PriorityInheritance.Threads) returns (ghost move: Option<Move>)
      requires Valid() && (e.Recv? || e.Read? || e.Return?)
      modifies this, next, data
      ensures Valid() && Apply(old(Messages()), move) == Some(Messages())
      ensures Fits(e, old(held), move) && HandsFollow(e, old(held), held)
      ensures e.Recv? && old(MayRun(e.t, receivers, senders)) ==> (move == None <==> old(Messages()) == [])
      ensures GoesOn(e, old(held), held)
    {
      move := None;
      if e.Recv? {
        if MayRun(e.t, receivers, senders) {
          ghost var before := Messages();
          var s := BeginRecv(e.t, e.patient, T);
          if s == Goes {
            move := Some(FromFront(e.t, before[0]));
          }
        }
      } else if e.Read? {
        if e.t in held && held[e.t].Taken? {
          var buffer := CopyOut(e.t, e.size);
        }
      } else if e.t in held && held[e.t].Emptied? {
        GiveBack(e.t);
      }
    }

    /** One step of whichever thread or interrupt runs: at most one move of a double-ended queue. */
    method Step(e: Event, T: PriorityInheritance.Threads) returns (ghost move: Option<Move>)
      requires Valid()
      modifies this, next, data
      ensures Valid() && Apply(old(Messages()), move) == Some(Messages())
      ensures Fits(e, old(held), move) && HandsFollow(e, old(held), held)
      ensures e.Recv? && old(MayRun(e.t, receivers, senders)) ==> (move == None <==> old(Messages()) == [])
      ensures e.Send? && old(MayRun(e.t, senders, receivers)) && |e.message| <= msgSize && old(free) != [] ==>
        e.t in held
      ensures GoesOn(e, old(held), held)
    {
      move := None;
      if e.Send? || e.Write? || e.Post? {
        move := SendStep(e, T);
      } else if e.Recv? || e.Read? || e.Return? {
        move := RecvStep(e, T);
      } else if e.Clear? {
        move := Some(Cleared);
        Reset();
      } else if e.t in receivers.waiting || e.t in senders.waiting {
        Expire(e.t);
      }
    }

    /** Any run keeps the queue valid and is a run of a double-ended queue, with one move at most for each event: a
        message goes in where its send says when it is linked, and every receive takes the one that is first then. */
    method Run(script: seq<Event>, T: PriorityInheritance.Threads) returns (ghost moves: seq<Option<Move>>)
      requires Valid() && held == map[] && Messages() == []
      modifies this, next, data
      ensures Valid() && |moves| == |script|
      ensures Replay(moves) == Some(Messages())
      ensures forall i :: 0 <= i < |script| ==> Sent(script, moves, i)
    {
      moves := [];
      for i := 0 to |script|
        invariant Valid() && |moves| == i
        invariant Replay(moves) == Some(Messages())
        invariant Backed(script, i, held)
        invariant forall j :: 0 <= j < i ==> Sent(script, moves, j)
      {
        ghost var before := held;
        ghost var move := Step(script[i], T);
        ReplayMore(moves, move);
        Follows(script, i, before, held, moves, move);
        moves := moves + [move];
      }
    }
  }

  /** Who runs next, and which step of which call it takes. */
  datatype Event =
    | Send(t: ThreadId, message: Message, urgent: bool, patient: bool)
    | Write(t: ThreadId)
    | Post(t: ThreadId)
    | Recv(t: ThreadId, patient: bool)
    | Read(t: ThreadId, size: nat)
    | Return(t: ThreadId)
    | Timer(t: ThreadId)
    | Clear

  // ----- whose messages they are -----

  ghost predicate Carries(held: Holds, t: ThreadId, message: Message, urgent: bool) {
    && t in held && (held[t].Grabbed? || held[t].Filled?)
    && held[t].message == message && held[t].urgent == urgent
  }

  /** The move is one that the event makes in the state of the calls before it. */
  ghost predicate Fits(e: Event, held: Holds, move: Option<Move>) {
    && (move == Some(Cleared) <==> e.Clear?)
    && (move.Some? && (move.value.ToBack? || move.value.ToFront?) <==> e.Post? && e.t in held && held[e.t].Filled?)
    && match move
       case None => true
       case Some(ToBack(t, m)) => t == e.t && Carries(held, t, m, false)
       case Some(ToFront(t, m)) => t == e.t && Carries(held, t, m, true)
       case Some(FromFront(t, _)) => e.Recv? && t == e.t
       case Some(Cleared) => true
  }

  /** A call that has been begun goes on with its next step. */
  ghost predicate GoesOn(e: Event, held: Holds, held1: Holds) {
    !e.Clear? && e.t in held ==>
      match held[e.t]
      case Grabbed(c, m, urgent) => e.Write? ==> e.t in held1 && held1[e.t] == Filled(c, m, urgent)
      case Filled(_, _, _) => e.Post? ==> e.t !in held1
      case Taken(c, _) => e.Read? ==> e.t in held1 && held1[e.t] == Emptied(c)
      case Emptied(_) => e.Return? ==> e.t !in held1
  }

  /** Nobody carries a message that he has not just begun to send or carried before. */
  ghost predicate HandsFollow(e: Event, held: Holds, held1: Holds) {
    forall t, m, urgent {:trigger Carries(held1, t, m, urgent)} :: Carries(held1, t, m, urgent) ==>
      Carries(held, t, m, urgent) || (e.Send? && e.t == t && e.message == m && e.urgent == urgent)
  }

  ghost predicate Begun(script: seq<Event>, n: nat, t: ThreadId, m: Message, urgent: bool) {
    exists j :: 0 <= j < n && j < |script|
      && script[j].Send? && script[j].t == t && script[j].message == m && script[j].urgent == urgent
  }

  ghost predicate Backed(script: seq<Event>, n: nat, held: Holds) {
    forall t, m, urgent {:trigger Carries(held, t, m, urgent)} :: Carries(held, t, m, urgent) ==>
      Begun(script, n, t, m, urgent)
  }

  /** What event i links, the same thread has begun to send before, urgent or not; what it takes,
      it takes for itself. */
  ghost predicate Sent(script: seq<Event>, moves: seq<Option<Move>>, i: nat) {
    && i < |script| && i < |moves|
    && (moves[i] == Some(Cleared) <==> script[i].Clear?)
    && match moves[i]
       case Some(ToBack(t, m)) => script[i] == Post(t) && Begun(script, i, t, m, false)
       case Some(ToFront(t, m)) => script[i] == Post(t) && Begun(script, i, t, m, true)
       case Some(FromFront(t, _)) => script[i].Recv? && script[i].t == t
       case _ => true
  }

  lemma Follows(script: seq<Event>, i: nat, held: Holds, held1: Holds, moves: seq<Option<Move>>, move: Option<Move>)
    requires i < |script| && i == |moves| && Backed(script, i, held)
    requires Fits(script[i], held, move) && HandsFollow(script[i], held, held1)
    ensures Backed(script, i + 1, held1) && Sent(script, moves + [move], i)
    ensures forall j: nat :: j < i && Sent(script, moves, j) ==> Sent(script, moves + [move], j)
  {
    forall t, m, urgent | Carries(held1, t, m, urgent) ensures Begun(script, i + 1, t, m, urgent) {
      if Carries(held, t, m, urgent) {
        assert Begun(script, i, t, m, urgent);
      }
    }
  }
}
