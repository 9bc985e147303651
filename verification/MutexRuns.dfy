/** Runs of threads that take and release mutexes, with waits that fail: the part of rt-thread/src/ipc.c that
    spans several critical sections. A wait that fails takes two of them, `_thread_timeout`
    (rt-thread/src/thread.c) and the end of `_rt_mutex_take`, and other threads run in between. */
module MutexRuns {
  import opened Lists
  import opened PriorityInheritance
  import opened InheritedPriority

  datatype State = State(threads: Threads, mutexes: Mutexes)

  /** A wait fails in two calls: the timer ends it, and the thread ends its take when it runs again. */
  datatype Call = TakeCall(t: ThreadId, m: MutexId, wait: bool) | ReleaseCall(t: ThreadId, m: MutexId)
                | ExpireCall(t: ThreadId, m: MutexId) | FinishCall(t: ThreadId, m: MutexId)

  /** Calls are made by threads that run; one whose wait has failed first ends that take. */
  predicate MayCall(T: Threads, M: Mutexes, call: Call): (r: bool)
    ensures call.t in T && call.m in M && (call.TakeCall? || call.ReleaseCall?) ==>
              (r <==> !T[call.t].suspended && T[call.t].failing == None)
    ensures call.t in T && call.m in M && T[call.t].pending == Some(call.m) && call.ExpireCall? ==> r
    ensures call.t in T && call.m in M && T[call.t].failing == Some(call.m) && call.FinishCall? ==> r
  {
    && call.t in T && call.m in M
    && match call {
         case TakeCall(t, _, _) => !T[t].suspended && T[t].failing == None
         case ReleaseCall(t, _) => !T[t].suspended && T[t].failing == None
         case ExpireCall(t, m) => T[t].pending == Some(m)
         case FinishCall(t, m) => T[t].failing == Some(m)
       }
  }

  /** The call is a wait that closes a cycle. */
  ghost predicate Closes(T: Threads, M: Mutexes, call: Call) {
    && call.TakeCall? && MayCall(T, M, call)
    && TakeStatus(M[call.m], call.t, call.wait) == Blocked && Downstream(T, M, M[call.m].owner.value, call.t)
  }

  /** The call ends a failed take of a mutex that nobody owns any more: the source reads through a null owner. */
  predicate Faults(T: Threads, M: Mutexes, call: Call) {
    call.FinishCall? && MayCall(T, M, call) && M[call.m].owner == None
  }

  /** The call ends a failed take and leaves the owner with a priority that nobody asks for. */
  ghost predicate Spoils(T: Threads, M: Mutexes, call: Call) {
    && call.FinishCall? && MayCall(T, M, call)
    && M[call.m].owner.Some? && !Restores(T, M, call.t, call.m)
  }

  /** The mutexes for which some thread still has to end a failed take. */
  ghost function FailingAt(T: Threads): set<MutexId> {
    set t | t in T && T[t].failing.Some? :: T[t].failing.value
  }

  /** Exact but for the priorities cached on behalf of threads that still have to end a failed take. */
  ghost predicate Tidy(T: Threads, M: Mutexes) {
    ValidBut(T, M, FailingAt(T), {})
  }

  /** What no call takes away: nobody is less urgent than asked; there are no ceilings; a suspended thread
      waits for a mutex and has no other take to end. */
  ghost predicate Sound(T: Threads, M: Mutexes) {
    && Covered(T, M) && NoCeilings(M)
    && forall t :: t in T && T[t].suspended ==> T[t].pending.Some? && T[t].failing == None
  }

  // ----- what one call does -----

  ghost predicate TakeSteps(T: Threads, M: Mutexes, t: ThreadId, m: MutexId, wait: bool, T1: Threads, M1: Mutexes)
    requires t in T && m in M
  {
    match TakeStatus(M[m], t, wait)
    case Blocked => Rearranged(WithWait(T, t, m), WithWaiter(T, M, t, m), T1, M1, M[m].owner.value)
    case Ok =>
      if M[m].owner == None then
        T1 == WithMutex(T, t, m, Min(T[t].currentPriority, M[m].ceiling)) && M1 == Owned(M, m, t)
      else T1 == T && M1 == M[m := M[m].(hold := M[m].hold + 1)]
    case _ => T1 == T && M1 == M
  }

  ghost predicate ReleaseSteps(T: Threads, M: Mutexes, t: ThreadId, m: MutexId, T1: Threads, M1: Mutexes)
    requires t in T && m in M
  {
    if M[m].owner != Some(t) then T1 == T && M1 == M
    else if M[m].hold > 1 then T1 == T && M1 == M[m := M[m].(hold := M[m].hold - 1)]
    else if M[m].waiters == [] then T1 == Dropped(T, M, t, m) && M1 == Freed(M, m)
    else
      var n := M[m].waiters[0];
      && n in T && n != t
      && T1 == Woken(Dropped(T, M, t, m), n, m) && M1 == HandedOver(Dropped(T, M, t, m), M, m)
  }

  ghost predicate FinishSteps(T: Threads, M: Mutexes, t: ThreadId, m: MutexId, T1: Threads, M1: Mutexes)
    requires t in T && m in M
  {
    if M[m].owner == None then T1 == T && M1 == M
    else Rearranged(T[t := T[t].(failing := None)], Refreshed(T, M, m), T1, M1, M[m].owner.value)
  }

  ghost predicate Steps(T: Threads, M: Mutexes, call: Call, T1: Threads, M1: Mutexes) {
    if !MayCall(T, M, call) then T1 == T && M1 == M
    else
      match call
      case TakeCall(t, m, wait) => TakeSteps(T, M, t, m, wait, T1, M1)
      case ReleaseCall(t, m) => ReleaseSteps(T, M, t, m, T1, M1)
      case ExpireCall(t, m) => T1 == WithoutWait(T, t, Some(m)) && M1 == Unlinked(M, t, m)
      case FinishCall(t, m) => FinishSteps(T, M, t, m, T1, M1)
  }

  /** The initial priorities and ceilings are those of before, and suspended threads wait and have no other take
      to end. */
  ghost predicate Framed(T: Threads, M: Mutexes, T1: Threads, M1: Mutexes) {
    && SameObjects(T, M, T1, M1)
    && forall t :: t in T1 && T1[t].suspended ==> T1[t].pending.Some? && T1[t].failing == None
  }

  lemma TakeFrame(T: Threads, M: Mutexes, t: ThreadId, m: MutexId, wait: bool, T1: Threads, M1: Mutexes)
    requires Sound(T, M) && t in T && m in M && T[t].failing == None && TakeSteps(T, M, t, m, wait, T1, M1)
    ensures Framed(T, M, T1, M1)
  {
  }

  lemma ReleaseFrame(T: Threads, M: Mutexes, t: ThreadId, m: MutexId, T1: Threads, M1: Mutexes)
    requires Sound(T, M) && t in T && m in M && !T[t].suspended && ReleaseSteps(T, M, t, m, T1, M1)
    ensures Framed(T, M, T1, M1)
  {
  }

  lemma StepsFrame(T: Threads, M: Mutexes, call: Call, T1: Threads, M1: Mutexes)
    requires Sound(T, M) && Steps(T, M, call, T1, M1)
    ensures Framed(T, M, T1, M1)
  {
    if MayCall(T, M, call) {
      match call {
        case TakeCall(t, m, wait) => TakeFrame(T, M, t, m, wait, T1, M1);
        case ReleaseCall(t, m) => ReleaseFrame(T, M, t, m, T1, M1);
        case _ =>
      }
    }
  }

  /** Takes and releases end no failed take. */
  lemma StepsFailing(T: Threads, M: Mutexes, call: Call, T1: Threads, M1: Mutexes)
    requires Steps(T, M, call, T1, M1) && (call.TakeCall? || call.ReleaseCall?)
    ensures FailingAt(T1) == FailingAt(T)
  {
    assert T1.Keys == T.Keys && forall t :: t in T ==> T1[t].failing == T[t].failing;
    forall m ensures m in FailingAt(T1) <==> m in FailingAt(T) {
      if m in FailingAt(T) {
        var t :| t in T && T[t].failing == Some(m);
        assert T1[t].failing == Some(m);
      }
      if m in FailingAt(T1) {
        var t :| t in T1 && T1[t].failing == Some(m);
        assert T[t].failing == Some(m);
      }
    }
  }

  lemma ExpiryFails(T: Threads, t: ThreadId, m: MutexId)
    requires t in T && T[t].failing == None
    ensures FailingAt(WithoutWait(T, t, Some(m))) == FailingAt(T) + {m}
  {
    var T1 := WithoutWait(T, t, Some(m));
    assert T1[t].failing == Some(m);
    forall k ensures k in FailingAt(T1) <==> k in FailingAt(T) + {m} {
      if k in FailingAt(T) {
        var u :| u in T && T[u].failing == Some(k);
        assert T1[u].failing == Some(k);
      }
      if k in FailingAt(T1) {
        var u :| u in T1 && T1[u].failing == Some(k);
        assert u != t ==> T[u].failing == Some(k);
      }
    }
  }

  /** One thread fewer at the end of a failed take of m. */
  lemma FinishEnds(T: Threads, M: Mutexes, t: ThreadId, m: MutexId, T1: Threads, M1: Mutexes)
    requires t in T && T[t].failing == Some(m) && m in M && M[m].owner.Some?
    requires FinishSteps(T, M, t, m, T1, M1)
    ensures FailingAt(T) - {m} <= FailingAt(T1)
  {
    forall k | k in FailingAt(T) - {m} ensures k in FailingAt(T1) {
      var u :| u in T && T[u].failing == Some(k);
      assert T1[u].failing == Some(k);
    }
  }

  /** A deadlock begins with a wait that closes a cycle, and only so. */
  lemma StepsDeadlock(T: Threads, M: Mutexes, call: Call, T1: Threads, M1: Mutexes)
    requires Wired(T, M) && DeadlockFree(T, M) && Steps(T, M, call, T1, M1)
    ensures DeadlockFree(T1, M1) <==> !Closes(T, M, call)
  {
    if MayCall(T, M, call) {
      match call {
        case TakeCall(t, m, wait) => TakeDeadlock(T, M, t, m, wait, T1, M1);
        case ReleaseCall(t, m) => ReleaseDeadlock(T, M, t, m, T1, M1);
        case ExpireCall(t, m) =>
          LeftLinks(T, M, t, m);
          FewerLinksKeepDeadlockFree(T, M, T1, M1, t);
        case FinishCall(t, m) => FinishDeadlock(T, M, t, m, T1, M1);
      }
    }
  }

  lemma TakeDeadlock(T: Threads, M: Mutexes, t: ThreadId, m: MutexId, wait: bool, T1: Threads, M1: Mutexes)
    requires Wired(T, M) && DeadlockFree(T, M) && t in T && m in M && !T[t].suspended
    requires TakeSteps(T, M, t, m, wait, T1, M1)
    ensures DeadlockFree(T1, M1) <==>
      !(TakeStatus(M[m], t, wait) == Blocked && Downstream(T, M, M[m].owner.value, t))
  {
    match TakeStatus(M[m], t, wait) {
      case Blocked => TakeKeepsDeadlockFree(T, M, t, m, M[m].owner.value, T1, M1);
      case Ok =>
        if M[m].owner == None {
          TakenLinks(T, M, t, m, Min(T[t].currentPriority, M[m].ceiling));
          FewerLinksKeepDeadlockFree(T, M, T1, M1, t);
        } else {
          HoldLinks(T, M, m, M[m].hold + 1);
        }
      case _ =>
    }
  }

  lemma ReleaseDeadlock(T: Threads, M: Mutexes, t: ThreadId, m: MutexId, T1: Threads, M1: Mutexes)
    requires Wired(T, M) && DeadlockFree(T, M) && t in T && m in M && !T[t].suspended
    requires ReleaseSteps(T, M, t, m, T1, M1)
    ensures DeadlockFree(T1, M1)
  {
    assert MutexWired(T, M, m);
    if M[m].owner == Some(t) {
      if M[m].hold > 1 {
        HoldLinks(T, M, m, M[m].hold - 1);
      } else {
        ReleasedLinks(T, M, t, m);
        FewerLinksKeepDeadlockFree(T, M, T1, M1, if M[m].waiters == [] then t else M[m].waiters[0]);
      }
    }
  }

  lemma FinishDeadlock(T: Threads, M: Mutexes, t: ThreadId, m: MutexId, T1: Threads, M1: Mutexes)
    requires DeadlockFree(T, M) && t in T && m in M && FinishSteps(T, M, t, m, T1, M1)
    ensures DeadlockFree(T1, M1)
  {
    if M[m].owner.Some? {
      var T2, M2 := T[t := T[t].(failing := None)], Refreshed(T, M, m);
      forall u, k: nat ensures Follow(T2, M2, u, k) == Follow(T, M, u, k) {
        SameLinks(T, M, T2, M2, u, k);
      }
      SameShapeDeadlock(T2, M2, T1, M1);
    }
  }

  lemma {:induction false} SameLinks(T: Threads, M: Mutexes, T1: Threads, M1: Mutexes, t: ThreadId, k: nat)
    requires forall u {:trigger Next(T1, M1, u)} :: Next(T1, M1, u) == Next(T, M, u)
    ensures Follow(T1, M1, t, k) == Follow(T, M, t, k)
    decreases k
  {
    assert Next(T1, M1, t) == Next(T, M, t);
    if k > 0 && Next(T, M, t).Some? {
      SameLinks(T, M, T1, M1, Next(T, M, t).value, k - 1);
    }
  }

  lemma HoldLinks(T: Threads, M: Mutexes, m: MutexId, hold: nat)
    requires m in M
    ensures DeadlockFree(T, M[m := M[m].(hold := hold)]) <==> DeadlockFree(T, M)
  {
    var M1 := M[m := M[m].(hold := hold)];
    forall t, k: nat ensures Follow(T, M1, t, k) == Follow(T, M, t, k) {
      SameLinks(T, M, T, M1, t, k);
    }
  }

  // ----- one call -----

  /** One call. It leaves a tidy state tidy, unless it is one that spoils it. */
  method Step(k: Kernel, call: Call)
    requires Sound(k.threads, k.mutexes)
    modifies k
    ensures Steps(old(k.threads), old(k.mutexes), call, k.threads, k.mutexes)
    ensures Sound(k.threads, k.mutexes) && SameInitial(old(k.threads), k.threads)
    ensures old(Tidy(k.threads, k.mutexes)) ==>
      (Tidy(k.threads, k.mutexes) <==> !old(Spoils(k.threads, k.mutexes, call)))
    ensures old(DeadlockFree(k.threads, k.mutexes)) ==>
      (DeadlockFree(k.threads, k.mutexes) <==> !old(Closes(k.threads, k.mutexes, call)))
  {
    ghost var T, M := k.threads, k.mutexes;
    if MayCall(k.threads, k.mutexes, call) {
      ghost var stale := if Tidy(T, M) then FailingAt(T) else M.Keys;
      ghost var loose := if Tidy(T, M) then {} else T.Keys;
      match call {
        case TakeCall(t, m, wait) =>
          StepTake(k, t, m, wait, stale, loose);
        case ReleaseCall(t, m) =>
          StepRelease(k, t, m, stale, loose);
        case ExpireCall(t, m) =>
          StepExpire(k, t, m, stale, loose);
        case FinishCall(t, m) =>
          StepFinish(k, t, m, stale, loose);
      }
    }
    StepsFrame(T, M, call, k.threads, k.mutexes);
    if DeadlockFree(T, M) {
      StepsDeadlock(T, M, call, k.threads, k.mutexes);
    }
  }

  method StepTake(k: Kernel, t: ThreadId, m: MutexId, wait: bool, ghost stale: set<MutexId>, ghost loose: set<ThreadId>)
    requires ValidBut(k.threads, k.mutexes, stale, loose) && MayCall(k.threads, k.mutexes, TakeCall(t, m, wait))
    modifies k
    ensures Steps(old(k.threads), old(k.mutexes), TakeCall(t, m, wait), k.threads, k.mutexes)
    ensures Covered(k.threads, k.mutexes)
    ensures stale == old(FailingAt(k.threads)) && loose == {} ==> Tidy(k.threads, k.mutexes)
  {
    ghost var T, M := k.threads, k.mutexes;
    var r := k.Take(t, m, wait, stale, loose);
    assert TakeSteps(T, M, t, m, wait, k.threads, k.mutexes);
    StepsFailing(T, M, TakeCall(t, m, wait), k.threads, k.mutexes);
    Weaken(k.threads, k.mutexes, stale, loose, k.mutexes.Keys, k.threads.Keys);
  }

  method StepRelease(k: Kernel, t: ThreadId, m: MutexId, ghost stale: set<MutexId>, ghost loose: set<ThreadId>)
    requires Sound(k.threads, k.mutexes) && ValidBut(k.threads, k.mutexes, stale, loose)
    requires MayCall(k.threads, k.mutexes, ReleaseCall(t, m))
    modifies k
    ensures Steps(old(k.threads), old(k.mutexes), ReleaseCall(t, m), k.threads, k.mutexes)
    ensures Covered(k.threads, k.mutexes)
    ensures stale == old(FailingAt(k.threads)) && loose == {} ==> Tidy(k.threads, k.mutexes)
  {
    ghost var T, M := k.threads, k.mutexes;
    HandOverIsExact(T, M, t, m);
    assert MutexWired(T, M, m);
    var r := k.Release(t, m, stale, loose);
    assert ReleaseSteps(T, M, t, m, k.threads, k.mutexes);
    StepsFailing(T, M, ReleaseCall(t, m), k.threads, k.mutexes);
    Weaken(k.threads, k.mutexes, stale, loose, k.mutexes.Keys, k.threads.Keys);
  }

  method StepExpire(k: Kernel, t: ThreadId, m: MutexId, ghost stale: set<MutexId>, ghost loose: set<ThreadId>)
    requires Sound(k.threads, k.mutexes) && ValidBut(k.threads, k.mutexes, stale, loose)
    requires MayCall(k.threads, k.mutexes, ExpireCall(t, m))
    modifies k
    ensures Steps(old(k.threads), old(k.mutexes), ExpireCall(t, m), k.threads, k.mutexes)
    ensures Covered(k.threads, k.mutexes)
    ensures stale == old(FailingAt(k.threads)) && loose == {} ==> Tidy(k.threads, k.mutexes)
  {
    WaitingFacts(k.threads, k.mutexes, t);
    ExpiryFails(k.threads, t, m);
    k.Expire(t, m, stale, loose);
    Weaken(k.threads, k.mutexes, stale + {m}, loose, k.mutexes.Keys, k.threads.Keys);
  }

  method StepFinish(k: Kernel, t: ThreadId, m: MutexId, ghost stale: set<MutexId>, ghost loose: set<ThreadId>)
    requires Covered(k.threads, k.mutexes) && ValidBut(k.threads, k.mutexes, stale, loose)
    requires MayCall(k.threads, k.mutexes, FinishCall(t, m))
    modifies k
    ensures Steps(old(k.threads), old(k.mutexes), FinishCall(t, m), k.threads, k.mutexes)
    ensures Covered(k.threads, k.mutexes)
    ensures stale == old(FailingAt(k.threads)) && loose == {} ==>
      (Tidy(k.threads, k.mutexes) <==> !old(Spoils(k.threads, k.mutexes, FinishCall(t, m))))
  {
    ghost var T, M := k.threads, k.mutexes;
    var _ := k.Finish(t, m, Timeout, stale, loose);
    if M[m].owner.Some? {
      ghost var o := M[m].owner.value;
      Weaken(k.threads, k.mutexes, stale - {m}, loose + {o}, k.mutexes.Keys, k.threads.Keys);
      if stale == FailingAt(T) && loose == {} {
        FinishEnds(T, M, t, m, k.threads, k.mutexes);
        if Restores(T, M, t, m) {
          Weaken(k.threads, k.mutexes, stale - {m}, loose - {o}, FailingAt(k.threads), {});
        } else {
          assert !Settled(k.threads, k.mutexes, o, {});
        }
      }
    }
  }

  // ----- runs -----

  ghost predicate Initial(T: Threads, M: Mutexes) {
    && (forall t :: t in T ==> T[t].initPriority < PRIORITY_MAX && T[t] == Idle(T[t].initPriority))
    && (forall m :: m in M ==> M[m] == Free())
  }

  function Idle(priority: nat): Thread {
    Thread(priority, priority, [], None, false, None)
  }

  function Free(): Mutex {
    Mutex(None, LOWEST, 0, LOWEST, [])
  }

  lemma InitialSound(T: Threads, M: Mutexes)
    requires Initial(T, M)
    ensures Valid(T, M) && Sound(T, M) && Tidy(T, M) && DeadlockFree(T, M)
  {
    forall t | t in T ensures ThreadWired(T, M, t) && Settled(T, M, t, {}) {}
    forall m | m in M ensures MutexWired(T, M, m) && QueueOrdered(T, M, m, {}) {}
    ValidCovered(T, M);
    assert FailingAt(T) == {};
    forall t, k: nat | k > 0 ensures Follow(T, M, t, k) == None {}
  }

  /** Every state of a run: from the first on, nobody has ever been less urgent than whom it keeps waiting. */
  ghost predicate Safe(first: State, s: State) {
    && Sound(s.threads, s.mutexes) && SameInitial(first.threads, s.threads)
    && (forall t :: t in s.threads ==> BoundedByBlocked(s.threads, s.mutexes, t))
    && (forall t :: t in s.threads ==> SuspendedIffWaiting(s.threads, s.mutexes, t))
    && (forall m :: m in s.mutexes ==> OwnerCanGoOn(s.threads, s.mutexes, m))
  }

  /** A thread is suspended if and only if it is on a wait list, which then is that of the mutex it waits for. */
  ghost predicate SuspendedIffWaiting(T: Threads, M: Mutexes, t: ThreadId)
    requires t in T
  {
    && (T[t].suspended <==> exists m :: m in M && t in M[m].waiters)
    && forall m :: m in M && t in M[m].waiters ==> T[t].pending == Some(m)
  }

  /** Whoever owns a mutex is ready, or waits for another one. */
  ghost predicate OwnerCanGoOn(T: Threads, M: Mutexes, m: MutexId)
    requires m in M
  {
    M[m].owner.Some? ==>
      var o := M[m].owner.value;
      o in T && (!T[o].suspended || exists k :: k in M && k != m && o in M[k].waiters)
  }

  lemma SoundSafe(first: State, s: State)
    requires Sound(s.threads, s.mutexes) && SameInitial(first.threads, s.threads)
    ensures Safe(first, s)
  {
    forall t | t in s.threads
      ensures BoundedByBlocked(s.threads, s.mutexes, t) && SuspendedIffWaiting(s.threads, s.mutexes, t)
    {
      NeverLessUrgentThanBlocked(s.threads, s.mutexes, t);
      WaitingMeans(s.threads, s.mutexes, t);
    }
    forall m | m in s.mutexes ensures OwnerCanGoOn(s.threads, s.mutexes, m) {
      assert MutexWired(s.threads, s.mutexes, m);
      if s.mutexes[m].owner.Some? {
        WaitingMeans(s.threads, s.mutexes, s.mutexes[m].owner.value);
      }
    }
  }

  lemma WaitingMeans(T: Threads, M: Mutexes, t: ThreadId)
    requires Sound(T, M) && t in T
    ensures SuspendedIffWaiting(T, M, t)
  {
    assert ThreadWired(T, M, t);
    forall m | m in M && t in M[m].waiters ensures T[t].pending == Some(m) && T[t].suspended {
      assert MutexWired(T, M, m);
    }
  }

  ghost predicate StepAt(states: seq<State>, calls: seq<Call>, i: nat) {
    i + 1 < |states| && i < |calls| &&
    Steps(states[i].threads, states[i].mutexes, calls[i], states[i + 1].threads, states[i + 1].mutexes)
  }

  ghost predicate SpoilsAt(states: seq<State>, calls: seq<Call>, i: nat) {
    i + 1 < |states| && i < |calls| && Spoils(states[i].threads, states[i].mutexes, calls[i])
  }

  ghost predicate ClosesAt(states: seq<State>, calls: seq<Call>, i: nat) {
    i + 1 < |states| && i < |calls| && Closes(states[i].threads, states[i].mutexes, calls[i])
  }

  /** The states before and after each of the first calls, all of them safe. */
  ghost predicate IsRun(states: seq<State>, calls: seq<Call>) {
    && 0 < |states| <= |calls| + 1
    && (forall i: nat {:trigger StepAt(states, calls, i)} :: i + 1 < |states| ==> StepAt(states, calls, i))
    && (forall i :: 0 <= i < |states| ==> Safe(states[0], states[i]))
  }

  ghost predicate NoneSpoils(states: seq<State>, calls: seq<Call>) {
    forall i: nat :: !SpoilsAt(states, calls, i)
  }

  ghost predicate NoneCloses(states: seq<State>, calls: seq<Call>) {
    forall i: nat :: !ClosesAt(states, calls, i)
  }

  lemma OneMore(states: seq<State>, calls: seq<Call>, s: State)
    requires IsRun(states, calls) && |states| <= |calls| && Safe(states[0], s)
    requires StepAt(states + [s], calls, |states| - 1)
    ensures IsRun(states + [s], calls)
  {
    var states1, n := states + [s], |states| - 1;
    forall i: nat | i + 1 < |states1| ensures StepAt(states1, calls, i) {
      assert i < n ==> StepAt(states, calls, i);
    }
  }

  lemma Earlier(states: seq<State>, calls: seq<Call>, s: State)
    requires states != []
    ensures NoneSpoils(states + [s], calls) ==>
      NoneSpoils(states, calls) && !SpoilsAt(states + [s], calls, |states| - 1)
    ensures NoneCloses(states + [s], calls) ==>
      NoneCloses(states, calls) && !ClosesAt(states + [s], calls, |states| - 1)
  {
    forall i: nat ensures SpoilsAt(states, calls, i) ==> SpoilsAt(states + [s], calls, i) {}
    forall i: nat ensures ClosesAt(states, calls, i) ==> ClosesAt(states + [s], calls, i) {}
  }

  /** A run that has come to the given state, with what it promises about it. */
  ghost predicate Reached(states: seq<State>, calls: seq<Call>, T: Threads, M: Mutexes) {
    && IsRun(states, calls) && states[|states| - 1] == State(T, M)
    && (NoneSpoils(states, calls) ==> Tidy(T, M))
    && (NoneCloses(states, calls) ==> DeadlockFree(T, M))
  }

  lemma ReachedSound(states: seq<State>, calls: seq<Call>, T: Threads, M: Mutexes)
    requires Reached(states, calls, T, M)
    ensures Sound(T, M) && SameInitial(states[0].threads, T)
  {
    assert Safe(states[0], states[|states| - 1]);
  }

  lemma ReachedNext(states: seq<State>, calls: seq<Call>, T: Threads, M: Mutexes, T1: Threads, M1: Mutexes)
    requires Reached(states, calls, T, M) && |states| <= |calls|
    requires Steps(T, M, calls[|states| - 1], T1, M1) && Sound(T1, M1) && SameInitial(T, T1)
    requires Tidy(T, M) ==> Spoils(T, M, calls[|states| - 1]) || Tidy(T1, M1)
    requires DeadlockFree(T, M) ==> Closes(T, M, calls[|states| - 1]) || DeadlockFree(T1, M1)
    ensures Reached(states + [State(T1, M1)], calls, T1, M1)
  {
    var s := State(T1, M1);
    ReachedSound(states, calls, T, M);
    SoundSafe(states[0], s);
    assert StepAt(states + [s], calls, |states| - 1);
    OneMore(states, calls, s);
    Earlier(states, calls, s);
  }

  lemma ReachedFirst(calls: seq<Call>, T: Threads, M: Mutexes)
    requires Initial(T, M)
    ensures Reached([State(T, M)], calls, T, M)
  {
    InitialSound(T, M);
    SoundSafe(State(T, M), State(T, M));
  }

  /** A state in which everybody has ended its takes and inherits exactly. */
  lemma AllEnded(T: Threads, M: Mutexes)
    requires Tidy(T, M) && FailingAt(T) == {} && NoCeilings(M)
    ensures Valid(T, M)
    ensures DeadlockFree(T, M) ==> forall t :: t in T ==> InheritsInitial(T, M, t)
  {
    if DeadlockFree(T, M) {
      forall t | t in T ensures InheritsInitial(T, M, t) {
        InheritsFromInitial(T, M, t);
      }
    }
  }

  /** A mutex goes from hand to hand: after t's release the first waiter holds it, once and ready to run, and its own
      release gives the mutex on to the next one. */
  method HandOnTwice(k: Kernel, t: ThreadId, m: MutexId)
    requires Sound(k.threads, k.mutexes) && t in k.threads && !k.threads[t].suspended
    requires m in k.mutexes && k.mutexes[m].owner == Some(t) && k.mutexes[m].hold == 1 && k.mutexes[m].waiters != []
    modifies k
    ensures Sound(k.threads, k.mutexes) && m in k.mutexes
    ensures k.mutexes[m].owner ==
      if |old(k.mutexes)[m].waiters| > 1 then Some(old(k.mutexes)[m].waiters[1]) else None
    ensures |old(k.mutexes)[m].waiters| > 1 ==> k.mutexes[m].waiters == old(k.mutexes)[m].waiters[2..]
  {
    ghost var T, M := k.threads, k.mutexes;
    HandOverIsExact(T, M, t, m);
    var n := k.mutexes[m].waiters[0];
    var r := k.Release(t, m, M.Keys, T.Keys);
    ReleaseSound(T, M, t, m, k.threads, k.mutexes);
    T, M := k.threads, k.mutexes;
    HandOverIsExact(T, M, n, m);
    r := k.Release(n, m, M.Keys, T.Keys);
    ReleaseSound(T, M, n, m, k.threads, k.mutexes);
  }

  lemma ReleaseSound(T: Threads, M: Mutexes, t: ThreadId, m: MutexId, T1: Threads, M1: Mutexes)
    requires Sound(T, M) && t in T && m in M && !T[t].suspended && ReleaseSteps(T, M, t, m, T1, M1)
    requires ValidBut(T1, M1, M.Keys, T.Keys)
    ensures Sound(T1, M1)
  {
    ReleaseFrame(T, M, t, m, T1, M1);
  }

  /** Any run of blocking takes, try-takes, releases and failing waits, up to its end or to a read through a null
      owner. */
  method Run(k: Kernel, calls: seq<Call>) returns (done: nat, ghost states: seq<State>)
    requires Initial(k.threads, k.mutexes)
    modifies k
    ensures IsRun(states, calls) && |states| == done + 1
    ensures states[0] == old(State(k.threads, k.mutexes)) && states[done] == State(k.threads, k.mutexes)
    ensures done < |calls| ==> Faults(k.threads, k.mutexes, calls[done])
    ensures NoneSpoils(states, calls) ==> Tidy(k.threads, k.mutexes)
    ensures NoneCloses(states, calls) ==> DeadlockFree(k.threads, k.mutexes)
    ensures NoneSpoils(states, calls) && FailingAt(k.threads) == {} ==> Valid(k.threads, k.mutexes)
    ensures NoneSpoils(states, calls) && FailingAt(k.threads) == {} && DeadlockFree(k.threads, k.mutexes) ==>
      forall t :: t in k.threads ==> InheritsInitial(k.threads, k.mutexes, t)
  {
    ReachedFirst(calls, k.threads, k.mutexes);
    done, states := 0, [State(k.threads, k.mutexes)];
    while done < |calls| && !Faults(k.threads, k.mutexes, calls[done])
      invariant |states| == done + 1 && states[0] == old(State(k.threads, k.mutexes))
      invariant Reached(states, calls, k.threads, k.mutexes)
    {
      ghost var T, M := k.threads, k.mutexes;
      ReachedSound(states, calls, T, M);
      Step(k, calls[done]);
      ReachedNext(states, calls, T, M, k.threads, k.mutexes);
      states := states + [State(k.threads, k.mutexes)];
      done := done + 1;
    }
    ReachedSound(states, calls, k.threads, k.mutexes);
    if NoneSpoils(states, calls) && FailingAt(k.threads) == {} {
      AllEnded(k.threads, k.mutexes);
    }
  }

  // ----- what can happen between the expiry and the end of a take -----

  /** 0 owns mutex 7; 1 owns mutex 9 and waits for 7, so that 0 inherits 8. The wait of 1 expires, but before 1 runs,
      2 waits for 9 and 1 inherits 3. At the end of its take 1 does not find 0 at its own priority and leaves it
      alone: 0 keeps 8, even after it has released everything. */
  method FailedWaitKeepsPriority(k: Kernel)
    requires k.threads == map[0 := Idle(10), 1 := Idle(8), 2 := Idle(3)]
    requires k.mutexes == map[7 := Free(), 9 := Free()]
    modifies k
    ensures 0 in k.threads && k.threads[0].taken == [] && k.threads[0].initPriority == 10
    ensures k.threads[0].currentPriority == 8 && !Exact(k.threads, k.mutexes, 0)
  {
    TakesAndWait(k);
    ExpiryAndWait(k);
    var r := k.Finish(1, 7, Timeout, {7}, {});
    r := k.Release(0, 7, {7} - {7}, {} + {0});
  }

  method TakesAndWait(k: Kernel)
    requires k.threads == map[0 := Idle(10), 1 := Idle(8), 2 := Idle(3)]
    requires k.mutexes == map[7 := Free(), 9 := Free()]
    modifies k
    ensures Valid(k.threads, k.mutexes) && Inherited(k.threads, k.mutexes)
  {
    InitialSound(k.threads, k.mutexes);
    FirstTakes(k.threads, k.mutexes);
    var r := k.Take(0, 7, true);
    r := k.Take(1, 9, true);
    ghost var T, M := k.threads, k.mutexes;
    r := k.Take(1, 7, true);
    FirstWait(T, M, k.threads, k.mutexes);
  }

  /** 0 has taken 7 and runs at the priority of 1, which waits for 7 and has taken 9. */
  ghost predicate Inherited(T: Threads, M: Mutexes) {
    && T == map[0 := Thread(10, 8, [7], None, false, None), 1 := Thread(8, 8, [9], Some(7), true, None), 2 := Idle(3)]
    && M == map[7 := Mutex(Some(0), 8, 1, LOWEST, [1]), 9 := Mutex(Some(1), LOWEST, 1, LOWEST, [])]
  }

  /** 1 waits no longer and has been raised to 3; 7 still caches 8. */
  ghost predicate Overtaken(T: Threads, M: Mutexes) {
    && 0 in T && T[0] == Thread(10, 8, [7], None, false, None)
    && 1 in T && T[1] == Thread(8, 3, [9], None, false, Some(7))
    && 7 in M && M[7] == Mutex(Some(0), M[7].priority, 1, LOWEST, [])
  }

  /** 1 waits no longer, but the end of its take is still to come. */
  ghost predicate Expired(T: Threads, M: Mutexes) {
    && T == map[0 := Thread(10, 8, [7], None, false, None), 1 := Thread(8, 8, [9], None, false, Some(7)), 2 := Idle(3)]
    && M == map[7 := Mutex(Some(0), 8, 1, LOWEST, []), 9 := Mutex(Some(1), LOWEST, 1, LOWEST, [])]
  }

  lemma AfterExpiry(T: Threads, M: Mutexes)
    requires Inherited(T, M)
    ensures Expired(WithoutWait(T, 1, Some(7)), Unlinked(M, 1, 7))
  {
    assert Without([1], 1) == [];
  }

  method ExpiryAndWait(k: Kernel)
    requires Valid(k.threads, k.mutexes) && Inherited(k.threads, k.mutexes)
    modifies k
    ensures ValidBut(k.threads, k.mutexes, {7}, {}) && Overtaken(k.threads, k.mutexes)
  {
    AfterExpiry(k.threads, k.mutexes);
    k.Expire(1, 7);
    Weaken(k.threads, k.mutexes, {} + {7}, {}, {7}, {});
    ghost var T, M := k.threads, k.mutexes;
    var r := k.Take(2, 9, true, {7}, {});
    SecondWait(T, M, k.threads, k.mutexes);
  }

  lemma FirstTakes(T: Threads, M: Mutexes)
    requires T == map[0 := Idle(10), 1 := Idle(8), 2 := Idle(3)] && M == map[7 := Free(), 9 := Free()]
    ensures var T1, M1 := WithMutex(T, 0, 7, 10), Owned(M, 7, 0);
      && WithMutex(T1, 1, 9, 8) == map[0 := Idle(10).(taken := [7]), 1 := Idle(8).(taken := [9]), 2 := Idle(3)]
      && Owned(M1, 9, 1) == map[7 := Free().(owner := Some(0), hold := 1), 9 := Free().(owner := Some(1), hold := 1)]
  {
    var none: seq<MutexId> := [];
    assert [7] + none == [7] && [9] + none == [9];
  }

  lemma FirstWait(T: Threads, M: Mutexes, T1: Threads, M1: Mutexes)
    requires T == map[0 := Idle(10).(taken := [7]), 1 := Idle(8).(taken := [9]), 2 := Idle(3)]
    requires M == map[7 := Free().(owner := Some(0), hold := 1), 9 := Free().(owner := Some(1), hold := 1)]
    requires Rearranged(WithWait(T, 1, 7), WithWaiter(T, M, 1, 7), T1, M1, 0) && Valid(T1, M1)
    ensures Inherited(T1, M1)
  {
    var T2, M2 := WithWait(T, 1, 7), WithWaiter(T, M, 1, 7);
    OneWaiter(M2[7].waiters, M1[7].waiters, 1);
    NoWaiter(M2[9].waiters, M1[9].waiters);
    forall n: nat, u | u != 0 ensures Follow(T2, M2, 0, n) != Some(u) {}
    assert !Moved(T2, T1, 1) && !Moved(T2, T1, 2);
    assert QueueOrdered(T1, M1, 7, {}) && QueueOrdered(T1, M1, 9, {}) && Settled(T1, M1, 0, {});
    OneMutex(M1, 10, 7);
  }

  lemma SecondWait(T: Threads, M: Mutexes, T1: Threads, M1: Mutexes)
    requires Expired(T, M)
    requires Rearranged(WithWait(T, 2, 9), WithWaiter(T, M, 2, 9), T1, M1, 1) && ValidBut(T1, M1, {7}, {})
    ensures Overtaken(T1, M1)
  {
    var T2, M2 := WithWait(T, 2, 9), WithWaiter(T, M, 2, 9);
    OneWaiter(M2[9].waiters, M1[9].waiters, 2);
    NoWaiter(M2[7].waiters, M1[7].waiters);
    forall n: nat, u | u != 1 ensures Follow(T2, M2, 1, n) != Some(u) {}
    assert !Moved(T2, T1, 0) && !Moved(T2, T1, 2);
    assert QueueOrdered(T1, M1, 9, {7}) && Settled(T1, M1, 1, {});
    OneMutex(M1, 8, 9);
  }

  lemma HeadIn(ws: seq<ThreadId>)
    requires ws != []
    ensures exists w :: w in ws
  {
    assert ws[0] in ws;
  }

  lemma NoWaiter(ws: seq<ThreadId>, ws1: seq<ThreadId>)
    requires ws == [] && SameWaiters(ws, ws1)
    ensures ws1 == []
  {
    if ws1 != [] {
      HeadIn(ws1);
      assert false;
    }
  }

  lemma OneMutex(M: Mutexes, floor: nat, m: MutexId)
    ensures MinDemand(M, floor, [m]) == Min(floor, Demand(M, m))
  {
    assert [m][..0] == [];
    assert MinDemand(M, floor, []) == floor;
  }

  /** The owner releases the mutex before the thread whose wait expired runs: the end of its take finds no owner. */
  method OwnerGone(k: Kernel)
    requires k.threads == map[0 := Idle(10), 1 := Idle(8)] && k.mutexes == map[7 := Free()]
    modifies k
    ensures Faults(k.threads, k.mutexes, FinishCall(1, 7))
  {
    InitialSound(k.threads, k.mutexes);
    var r := k.Take(0, 7, true);
    ghost var T, M := k.threads, k.mutexes;
    r := k.Take(1, 7, true);
    WaitBehindOwner(T, M, k.threads, k.mutexes);
    k.Expire(1, 7);
    r := k.Release(0, 7, {} + {7}, {});
  }

  lemma WaitBehindOwner(T: Threads, M: Mutexes, T1: Threads, M1: Mutexes)
    requires 0 in T && !T[0].suspended && 1 in T && 7 in M && M[7] == Free().(owner := Some(0), hold := 1)
    requires Rearranged(WithWait(T, 1, 7), WithWaiter(T, M, 1, 7), T1, M1, 0)
    ensures 0 in T1 && !T1[0].suspended && 1 in T1 && T1[1].pending == Some(7)
    ensures 7 in M1 && M1[7].owner == Some(0) && M1[7].hold == 1 && M1[7].waiters == [1]
  {
    OneWaiter(WithWaiter(T, M, 1, 7)[7].waiters, M1[7].waiters, 1);
  }
}
