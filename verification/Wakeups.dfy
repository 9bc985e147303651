/**
 * The two wait lists of a queue or mailbox (rt-thread/src/ipc.c): suspended receivers and suspended senders, and the
 * threads that have been resumed but have not run yet.
 */
module Wakeups {
  import opened Lists
  import PriorityInheritance

  type ThreadId = PriorityInheritance.ThreadId

  /** RT_IPC_FLAG_FIFO or RT_IPC_FLAG_PRIO. */
  datatype Flag = Fifo | Prio

  /** One wait list and the threads taken off it that have not run since. */
  datatype Line = Line(waiting: seq<ThreadId>, resumed: set<ThreadId>) {
    ghost predicate Valid() {
      Distinct(waiting) && forall t :: t in waiting ==> t !in resumed
    }

    predicate Has(t: ThreadId) {
      t in waiting || t in resumed
    }

    /** No lost wakeup: whoever still waits can be served only after the threads already resumed. */
    ghost predicate Served(units: int) {
      waiting != [] ==> units <= |resumed|
    }

    /** `_ipc_list_suspend` at the place the flag gives. */
    function Suspend(T: PriorityInheritance.Threads, flag: Flag, t: ThreadId): Line {
      Line(if flag == Fifo then waiting + [t] else PriorityInheritance.Enqueued(T, waiting, t), resumed)
    }

    /** `_ipc_list_resume` when the list is not empty: the first thread becomes ready. */
    function Resume(): Line {
      if waiting == [] then this else Line(waiting[1..], resumed + {waiting[0]})
    }

    /** The resumed thread t runs again. */
    function Runs(t: ThreadId): Line {
      Line(waiting, resumed - {t})
    }

    /** The timer of the suspended thread t takes it off the list. */
    function Expire(t: ThreadId): Line {
      Line(Without(waiting, t), resumed)
    }

    /** `_ipc_list_resume_all`: the waiters return an error and take nothing. */
    function Dismiss(): Line {
      Line([], resumed)
    }

    /** One more unit and one thread resumed for it. */
    lemma ResumeServes(units: int)
      requires Valid() && Served(units)
      ensures Resume().Valid() && Resume().Served(units + 1)
      ensures forall t :: Resume().Has(t) <==> Has(t)
    {
      if waiting != [] {
        DistinctTail(waiting);
      }
    }

    /** One unit less, taken by a thread that ran: it may or may not have been resumed for it. */
    lemma TakeServes(units: int, t: ThreadId)
      requires Valid() && Served(units)
      ensures Runs(t).Valid() && Runs(t).Served(units - 1)
      ensures forall u :: Runs(t).Has(u) ==> Has(u)
      ensures t !in waiting ==> !Runs(t).Has(t)
    {
      if t in resumed {
        assert |resumed - {t}| == |resumed| - 1;
      } else {
        assert resumed - {t} == resumed;
      }
    }

    /** With nothing to take a thread may run, leave or wait: nobody misses anything. */
    lemma NothingServes(t: ThreadId)
      requires Valid()
      ensures Runs(t).Valid() && Runs(t).Served(0)
      ensures forall u :: Runs(t).Has(u) ==> Has(u)
      ensures t !in waiting ==> !Runs(t).Has(t)
    {}

    lemma SuspendServes(T: PriorityInheritance.Threads, flag: Flag, t: ThreadId)
      requires Valid() && !Has(t)
      ensures Suspend(T, flag, t).Valid() && Suspend(T, flag, t).Served(0)
      ensures forall u :: Suspend(T, flag, t).Has(u) <==> Has(u) || u == t
      ensures t in Suspend(T, flag, t).waiting
    {
      if flag == Prio {
        PriorityInheritance.EnqueuedDistinct(T, waiting, t);
      }
    }

    lemma ExpireServes(units: int, t: ThreadId)
      requires Valid() && Served(units)
      ensures Expire(t).Valid() && Expire(t).Served(units) && (t in waiting ==> !Expire(t).Has(t))
      ensures forall u :: Expire(t).Has(u) ==> Has(u)
      ensures forall u :: Has(u) && u != t ==> Expire(t).Has(u)
    {
      WithoutDistinct(waiting, t);
    }

    lemma DismissServes(units: int)
      requires Valid()
      ensures Dismiss().Valid() && Dismiss().Served(units)
      ensures forall u :: Dismiss().Has(u) ==> Has(u)
    {}
  }

  // ----- who is resumed first -----

  datatype Op = Joins(t: ThreadId) | Leads | Continues(t: ThreadId)

  /** A thread is suspended, the list resumes one, a resumed thread runs. */
  function After(l: Line, T: PriorityInheritance.Threads, flag: Flag, op: Op): Line {
    match op
    case Joins(t) => l.Suspend(T, flag, t)
    case Leads => l.Resume()
    case Continues(t) => l.Runs(t)
  }

  function AfterAll(l: Line, T: PriorityInheritance.Threads, flag: Flag, ops: seq<Op>): Line {
    if ops == [] then l else After(AfterAll(l, T, flag, ops[..|ops| - 1]), T, flag, ops[|ops| - 1])
  }

  /** The threads that were suspended, in order. */
  function Joined(ops: seq<Op>): seq<ThreadId> {
    if ops == [] then [] else Joined(ops[..|ops| - 1]) + if ops[|ops| - 1].Joins? then [ops[|ops| - 1].t] else []
  }

  /** How often one was resumed. */
  function Led(l: Line, T: PriorityInheritance.Threads, flag: Flag, ops: seq<Op>): nat {
    if ops == [] then 0
    else
      Led(l, T, flag, ops[..|ops| - 1]) +
      if ops[|ops| - 1].Leads? && AfterAll(l, T, flag, ops[..|ops| - 1]).waiting != [] then 1 else 0
  }

  /** First in, first out: with RT_IPC_FLAG_FIFO those who have been resumed are the ones who were suspended first. */
  lemma {:induction false} FirstInFirstOut(T: PriorityInheritance.Threads, ops: seq<Op>)
    ensures Led(Line([], {}), T, Fifo, ops) <= |Joined(ops)|
    ensures AfterAll(Line([], {}), T, Fifo, ops).waiting == Joined(ops)[Led(Line([], {}), T, Fifo, ops)..]
  {
    if ops != [] {
      FirstInFirstOut(T, ops[..|ops| - 1]);
    }
  }

  /** With RT_IPC_FLAG_PRIO nobody who waits is more urgent than the one who is resumed. */
  lemma {:induction false} MostUrgentFirst(T: PriorityInheritance.Threads, ops: seq<Op>)
    ensures var ws := AfterAll(Line([], {}), T, Prio, ops).waiting;
      && PriorityInheritance.Sorted(T, ws) && (forall t :: t in ws ==> t in Joined(ops))
      && forall t :: t in ws ==> PriorityInheritance.Prio(T, ws[0]) <= PriorityInheritance.Prio(T, t)
  {
    if ops != [] {
      var l := AfterAll(Line([], {}), T, Prio, ops[..|ops| - 1]);
      MostUrgentFirst(T, ops[..|ops| - 1]);
      if ops[|ops| - 1].Joins? {
        PriorityInheritance.EnqueuedSorted(T, l.waiting, ops[|ops| - 1].t);
      }
    }
  }

  /** A resumed thread is off the list and on its way, everybody else is where he was. */
  lemma ResumeMeans(l: Line)
    ensures l.waiting == [] ==> l.Resume() == l
    ensures l.waiting != [] ==>
      && l.Resume().resumed == l.resumed + {l.waiting[0]} && |l.Resume().waiting| == |l.waiting| - 1
      && forall i :: 0 <= i < |l.Resume().waiting| ==> l.Resume().waiting[i] == l.waiting[i + 1]
  {
  }
}
