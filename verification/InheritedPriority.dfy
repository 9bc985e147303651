/** From the local rule to the global promise: a thread runs at the most urgent priority
    among itself and everybody who is blocked, directly or through others, on a mutex it holds. */
module InheritedPriority {
  import opened Lists
  import opened PriorityInheritance

  /** What thread u brings along itself: its own priority and the ceilings of the mutexes it holds. */
  function OwnUrgency(M: Mutexes, floor: nat, ms: seq<MutexId>): (p: nat)
    ensures p <= floor && forall m :: m in ms && m in M ==> p <= M[m].ceiling
    ensures p == floor || exists m :: m in ms && m in M && p == M[m].ceiling
  {
    if ms == [] then floor
    else
      var p := OwnUrgency(M, floor, ms[..|ms| - 1]);
      var m := ms[|ms| - 1];
      if m in M then Min(p, M[m].ceiling) else p
  }

  function Urgency(T: Threads, M: Mutexes, u: ThreadId): nat {
    if u in T then OwnUrgency(M, T[u].initPriority, T[u].taken) else LOWEST
  }

  /** No thread waits, directly or through others, for itself. */
  ghost predicate DeadlockFree(T: Threads, M: Mutexes) {
    forall t, k: nat :: t in T && k > 0 ==> Follow(T, M, t, k) != Some(t)
  }

  /** t is at least as urgent as everybody it keeps waiting. */
  ghost predicate BoundedByBlocked(T: Threads, M: Mutexes, t: ThreadId)
    requires t in T
  {
    forall u :: u in T && Downstream(T, M, u, t) ==> T[t].currentPriority <= Urgency(T, M, u)
  }

  /** t is exactly as urgent as the most urgent thread it keeps waiting, itself included. */
  ghost predicate Inherits(T: Threads, M: Mutexes, t: ThreadId)
    requires t in T
  {
    && BoundedByBlocked(T, M, t)
    && exists u :: u in T && Downstream(T, M, u, t) && T[t].currentPriority == Urgency(T, M, u)
  }

  // ----- chains -----

  lemma ValidCovered(T: Threads, M: Mutexes)
    requires Valid(T, M)
    ensures Covered(T, M)
  {
    Weaken(T, M, {}, {}, M.Keys, T.Keys);
  }

  lemma {:induction false} FollowAppend(T: Threads, M: Mutexes, u: ThreadId, k: nat, w: ThreadId, n: nat)
    requires Follow(T, M, u, k) == Some(w)
    ensures Follow(T, M, u, k + n) == Follow(T, M, w, n)
    decreases k
  {
    if k > 0 {
      FollowAppend(T, M, M[T[u].pending.value].owner.value, k - 1, w, n);
    }
  }

  /** A waiter is one step behind the owner, and the owner is at least as urgent. */
  lemma WaiterBehindOwner(T: Threads, M: Mutexes, w: ThreadId)
    requires Covered(T, M) && w in T && T[w].pending.Some?
    ensures T[w].pending.value in M && M[T[w].pending.value].owner.Some?
    ensures var o := M[T[w].pending.value].owner.value;
      o in T && T[o].currentPriority <= T[w].currentPriority && Follow(T, M, w, 1) == Some(o)
  {
    WaitingFacts(T, M, w);
    var m := T[w].pending.value;
    var o := M[m].owner.value;
    assert QueueOrdered(T, M, m, M.Keys) && MutexWired(T, M, m) && Settled(T, M, o, T.Keys);
    NoUrgency(T, M, m, o);
    HeadAtMost(T, M[m].waiters, w);
    assert Follow(T, M, o, 0) == Some(o);
  }

  lemma {:induction false} ChainDescends(T: Threads, M: Mutexes, u: ThreadId, k: nat, t: ThreadId)
    requires Covered(T, M) && u in T && Follow(T, M, u, k) == Some(t)
    ensures t in T && T[t].currentPriority <= T[u].currentPriority
    decreases k
  {
    if k > 0 {
      WaiterBehindOwner(T, M, u);
      ChainDescends(T, M, M[T[u].pending.value].owner.value, k - 1, t);
    }
  }

  lemma NoMoreUrgentThanOwn(T: Threads, M: Mutexes, u: ThreadId)
    requires Covered(T, M) && u in T
    ensures T[u].currentPriority <= Urgency(T, M, u)
  {
    assert Settled(T, M, u, T.Keys) && ThreadWired(T, M, u);
    forall m | m in T[u].taken ensures T[u].currentPriority <= M[m].ceiling {
      assert Required(T, M, u) <= Demand(M, m);
    }
  }

  /** On every wait-for graph, deadlocked ones included, and in the middle of failing waits. */
  lemma NeverLessUrgentThanBlocked(T: Threads, M: Mutexes, t: ThreadId)
    requires Covered(T, M) && t in T
    ensures BoundedByBlocked(T, M, t)
  {
    forall u | u in T && Downstream(T, M, u, t) ensures T[t].currentPriority <= Urgency(T, M, u) {
      var k: nat :| Follow(T, M, u, k) == Some(t);
      ChainDescends(T, M, u, k, t);
      NoMoreUrgentThanOwn(T, M, u);
    }
  }

  /** A thread more urgent than its own reasons has a waiter of exactly its priority. */
  lemma Donor(T: Threads, M: Mutexes, t: ThreadId) returns (w: ThreadId)
    requires Valid(T, M) && t in T && T[t].currentPriority != Urgency(T, M, t)
    ensures w in T && T[w].currentPriority == T[t].currentPriority && Follow(T, M, w, 1) == Some(t)
  {
    assert Settled(T, M, t, {}) && ThreadWired(T, M, t);
    ValidCovered(T, M);
    NoMoreUrgentThanOwn(T, M, t);
    var m :| m in T[t].taken && T[t].currentPriority == Demand(M, m);
    ValidBounded(T, M, {}, {});
    assert QueueOrdered(T, M, m, {}) && MutexWired(T, M, m);
    w := M[m].waiters[0];
    assert w in M[m].waiters;
    assert Follow(T, M, t, 0) == Some(t);
  }

  ghost predicate Ahead(T: Threads, M: Mutexes, t: ThreadId, v: ThreadId) {
    exists k: nat :: k > 0 && Follow(T, M, t, k) == Some(v)
  }

  /** Going from donor to donor ends: no thread is met twice, and there are finitely many. */
  lemma {:induction false} Source(T: Threads, M: Mutexes, t: ThreadId, seen: set<ThreadId>) returns (u: ThreadId)
    requires Valid(T, M) && DeadlockFree(T, M) && t in T && t !in seen && seen <= T.Keys
    requires forall v :: v in seen ==> Ahead(T, M, t, v)
    ensures u in T && Downstream(T, M, u, t) && T[t].currentPriority == Urgency(T, M, u)
    decreases |T.Keys - seen|
  {
    if T[t].currentPriority == Urgency(T, M, t) {
      u := t;
      assert Follow(T, M, t, 0) == Some(t);
    } else {
      var w := Donor(T, M, t);
      forall v | v in seen + {t} ensures v != w && Ahead(T, M, w, v) {
        var n: nat :| if v == t then n == 0 else n > 0 && Follow(T, M, t, n) == Some(v);
        FollowAppend(T, M, w, 1, t, n);
        assert Follow(T, M, w, 1 + n) == Some(v);
      }
      assert T.Keys - (seen + {t}) < T.Keys - seen;
      SmallerSet(T.Keys - (seen + {t}), T.Keys - seen);
      u := Source(T, M, w, seen + {t});
      var k: nat :| Follow(T, M, u, k) == Some(w);
      FollowAppend(T, M, u, k, w, 1);
      assert Follow(T, M, u, k + 1) == Some(t);
    }
  }

  lemma SmallerSet<X>(a: set<X>, b: set<X>)
    requires a < b
    ensures |a| < |b|
  {
    assert b == a + (b - a);
    assert |b| == |a| + |b - a|;
  }

  /** The promise of priority inheritance: without deadlock, the local rule gives every thread the
      minimum over itself and all threads transitively blocked on it. */
  lemma InheritanceIsTransitive(T: Threads, M: Mutexes, t: ThreadId)
    requires Valid(T, M) && DeadlockFree(T, M) && t in T
    ensures Inherits(T, M, t)
  {
    ValidCovered(T, M);
    NeverLessUrgentThanBlocked(T, M, t);
    var u := Source(T, M, t, {});
  }

  // ----- deadlock -----

  /** States before and after t starts to wait for m, owned by o. */
  ghost predicate StartsWaiting(T: Threads, M: Mutexes, T1: Threads, M1: Mutexes, t: ThreadId, m: MutexId,
                                o: ThreadId) {
    && t in T && T[t].pending == None && m in M && M[m].owner == Some(o)
    && T1 == WithWait(T, t, m) && M1 == WithWaiter(T, M, t, m)
  }

  lemma {:induction false} OldChainStays(T: Threads, M: Mutexes, T1: Threads, M1: Mutexes, t: ThreadId, m: MutexId,
                                         o: ThreadId, u: ThreadId, k: nat)
    requires StartsWaiting(T, M, T1, M1, t, m, o) && Follow(T, M, u, k) == Some(t)
    ensures Follow(T1, M1, u, k) == Some(t)
    decreases k
  {
    if k > 0 {
      OldChainStays(T, M, T1, M1, t, m, o, M[T[u].pending.value].owner.value, k - 1);
    }
  }

  lemma {:induction false} NewChainPassesCaller(T: Threads, M: Mutexes, T1: Threads, M1: Mutexes, t: ThreadId,
                                                m: MutexId, o: ThreadId, u: ThreadId, k: nat)
    requires StartsWaiting(T, M, T1, M1, t, m, o)
    ensures Follow(T1, M1, u, k) == Follow(T, M, u, k) || Downstream(T, M, u, t)
    decreases k
  {
    if u == t {
      assert Follow(T, M, u, 0) == Some(t);
    } else if k > 0 && u in T && T[u].pending.Some? && T[u].pending.value in M && M[T[u].pending.value].owner.Some? {
      var v := M[T[u].pending.value].owner.value;
      NewChainPassesCaller(T, M, T1, M1, t, m, o, v, k - 1);
      if Downstream(T, M, v, t) {
        var n: nat :| Follow(T, M, v, n) == Some(t);
        assert Follow(T, M, u, n + 1) == Some(t);
      }
    }
  }

  /** Waiting for m closes a cycle exactly when the owner of m already waits, in the end, for the caller. */
  lemma WaitKeepsDeadlockFree(T: Threads, M: Mutexes, t: ThreadId, m: MutexId, o: ThreadId)
    requires Wired(T, M) && DeadlockFree(T, M) && t in T && !T[t].suspended
    requires m in M && M[m].owner == Some(o) && o != t
    ensures DeadlockFree(WithWait(T, t, m), WithWaiter(T, M, t, m)) <==> !Downstream(T, M, o, t)
  {
    var T1, M1 := WithWait(T, t, m), WithWaiter(T, M, t, m);
    assert T[t].pending == None by {
      if T[t].pending.Some? { WaitingFacts(T, M, t); }
    }
    if Downstream(T, M, o, t) {
      var k: nat :| Follow(T, M, o, k) == Some(t);
      OldChainStays(T, M, T1, M1, t, m, o, o, k);
      assert Follow(T1, M1, t, k + 1) == Some(t);
    } else if !DeadlockFree(T1, M1) {
      var x, k: nat :| x in T1 && k > 0 && Follow(T1, M1, x, k) == Some(x);
      NewChainPassesCaller(T, M, T1, M1, t, m, o, x, k);
      var n: nat :| Follow(T, M, x, n) == Some(t);
      OldChainStays(T, M, T1, M1, t, m, o, x, n);
      FollowAppend(T1, M1, x, n, t, k);
      FollowAppend(T1, M1, x, k, x, n);
      assert Follow(T1, M1, o, k - 1) == Follow(T1, M1, t, k) == Some(t);
      NewChainPassesCaller(T, M, T1, M1, t, m, o, o, k - 1);
    }
  }

  /** The same for the state that a blocking take leaves, after the chain update. */
  lemma TakeKeepsDeadlockFree(T: Threads, M: Mutexes, t: ThreadId, m: MutexId, o: ThreadId, T1: Threads, M1: Mutexes)
    requires Wired(T, M) && DeadlockFree(T, M) && t in T && !T[t].suspended
    requires m in M && M[m].owner == Some(o) && o != t
    requires SameShape(WithWait(T, t, m), WithWaiter(T, M, t, m), T1, M1)
    ensures DeadlockFree(T1, M1) <==> !Downstream(T, M, o, t)
  {
    WaitKeepsDeadlockFree(T, M, t, m, o);
    SameShapeDeadlock(WithWait(T, t, m), WithWaiter(T, M, t, m), T1, M1);
  }

  /** Deadlock does not depend on priorities or on the order of wait lists. */
  lemma SameShapeDeadlock(T: Threads, M: Mutexes, T1: Threads, M1: Mutexes)
    requires SameShape(T, M, T1, M1)
    ensures DeadlockFree(T1, M1) <==> DeadlockFree(T, M)
  {
    forall t, k: nat ensures Follow(T1, M1, t, k) == Follow(T, M, t, k) {
      FollowSameShape(T, M, T1, M1, t, k);
    }
  }

  /** The next thread of a chain. */
  ghost function Next(T: Threads, M: Mutexes, u: ThreadId): Option<ThreadId> {
    if u in T && T[u].pending.Some? && T[u].pending.value in M then M[T[u].pending.value].owner else None
  }

  /** Links have only been taken away, or led to the end n of a chain. */
  ghost predicate FewerLinks(T: Threads, M: Mutexes, T1: Threads, M1: Mutexes, n: ThreadId) {
    && T1.Keys == T.Keys && Next(T1, M1, n) == None
    && forall u {:trigger Next(T1, M1, u)} :: Next(T1, M1, u) in {None, Some(n), Next(T, M, u)}
  }

  lemma {:induction false} OldChain(T: Threads, M: Mutexes, T1: Threads, M1: Mutexes, n: ThreadId, u: ThreadId, k: nat,
                                    v: ThreadId)
    requires FewerLinks(T, M, T1, M1, n) && Follow(T1, M1, u, k) == Some(v) && Next(T1, M1, v) != None
    ensures Follow(T, M, u, k) == Some(v)
    decreases k
  {
    if k > 0 {
      var w := Next(T1, M1, u).value;
      OldChain(T, M, T1, M1, n, w, k - 1, v);
    }
  }

  lemma FewerLinksKeepDeadlockFree(T: Threads, M: Mutexes, T1: Threads, M1: Mutexes, n: ThreadId)
    requires FewerLinks(T, M, T1, M1, n) && DeadlockFree(T, M)
    ensures DeadlockFree(T1, M1)
  {
    forall t, k: nat | t in T1 && k > 0 ensures Follow(T1, M1, t, k) != Some(t) {
      if Follow(T1, M1, t, k) == Some(t) {
        assert Next(T1, M1, t) != None;
        OldChain(T, M, T1, M1, n, t, k, t);
      }
    }
  }

  /** Taking a free mutex, or one's own again, adds no link. */
  lemma TakenLinks(T: Threads, M: Mutexes, t: ThreadId, m: MutexId, p: nat)
    requires Wired(T, M) && t in T && !T[t].suspended && m in M && M[m].owner == None
    ensures FewerLinks(T, M, WithMutex(T, t, m, p), Owned(M, m, t), t)
  {
    var T1, M1 := WithMutex(T, t, m, p), Owned(M, m, t);
    assert T[t].pending == None by {
      if T[t].pending.Some? { WaitingFacts(T, M, t); }
    }
    forall u ensures Next(T1, M1, u) in {None, Some(t), Next(T, M, u)} {}
  }

  /** A release takes the links of the mutex away, or leads them to its new owner, who waits for nothing. */
  lemma ReleasedLinks(T: Threads, M: Mutexes, t: ThreadId, m: MutexId)
    requires Wired(T, M) && t in T && !T[t].suspended && m in M && M[m].owner == Some(t)
    ensures M[m].waiters == [] ==> FewerLinks(T, M, Dropped(T, M, t, m), Freed(M, m), t)
    ensures M[m].waiters != [] ==>
      var n := M[m].waiters[0];
      n in T && n != t && FewerLinks(T, M, Woken(Dropped(T, M, t, m), n, m), HandedOver(Dropped(T, M, t, m), M, m), n)
  {
    assert MutexWired(T, M, m);
    assert M[m].waiters != [] ==> M[m].waiters[0] in M[m].waiters;
    assert T[t].pending == None by {
      if T[t].pending.Some? { WaitingFacts(T, M, t); }
    }
  }

  /** A thread that stops waiting takes its link away. */
  lemma LeftLinks(T: Threads, M: Mutexes, t: ThreadId, m: MutexId)
    requires Wired(T, M) && t in T && m in M
    ensures FewerLinks(T, M, WithoutWait(T, t, Some(m)), Unlinked(M, t, m), t)
  {
    var T1, M1 := WithoutWait(T, t, Some(m)), Unlinked(M, t, m);
    forall u ensures Next(T1, M1, u) in {None, Some(t), Next(T, M, u)} {}
  }

  // ----- ceilings -----

  ghost predicate NoCeilings(M: Mutexes) {
    forall m :: m in M ==> M[m].ceiling == LOWEST
  }

  /** Without ceilings, a thread's own urgency is its initial priority. */
  lemma UrgencyIsInitial(T: Threads, M: Mutexes, u: ThreadId)
    requires Wired(T, M) && NoCeilings(M) && u in T
    ensures Urgency(T, M, u) == T[u].initPriority
  {
    assert ThreadWired(T, M, u);
  }

  lemma HandOverIsExact(T: Threads, M: Mutexes, t: ThreadId, m: MutexId)
    requires Covered(T, M) && NoCeilings(M) && m in M
    ensures HandOverExact(T, M, t, m)
  {
    ValidBounded(T, M, M.Keys, T.Keys);
    assert MutexWired(T, M, m);
    assert M[m].waiters != [] ==> M[m].waiters[0] in T;
  }

  /** It happens: an owner with one waiter and a ceiling that is more urgent than the waiter. */
  lemma HandOverLosesCeiling() returns (T: Threads, M: Mutexes)
    ensures Valid(T, M) && 0 in T && 7 in M && M[7].owner == Some(0) && M[7].hold == 1 && M[7].waiters == [1]
    ensures !HandOverExact(T, M, 0, 7) && M[7].ceiling < PRIORITY_MAX
    ensures DeadlockFree(T, M)
  {
    T := map[0 := Thread(10, 5, [7], None, false, None), 1 := Thread(8, 8, [], Some(7), true, None)];
    M := map[7 := Mutex(Some(0), 8, 1, 5, [1])];
    forall t | t in T ensures ThreadWired(T, M, t) && Settled(T, M, t, {}) {
      assert Demand(M, 7) == 5;
      assert T[0].taken[..0] == [];
    }
    forall m | m in M ensures MutexWired(T, M, m) && QueueOrdered(T, M, m, {}) {}
    forall t, k: nat | t in T && k > 0 ensures Follow(T, M, t, k) != Some(t) {
      assert t == 1 ==> Follow(T, M, 1, k) == Follow(T, M, 0, k - 1);
    }
  }

  /** And a run leads to it: 0 takes the mutex and is raised by its ceiling, 1 waits, 0 releases. */
  method HandOverLosesCeilingRun(k: Kernel)
    requires k.threads == map[0 := Thread(10, 10, [], None, false, None), 1 := Thread(8, 8, [], None, false, None)]
    requires k.mutexes == map[7 := Mutex(None, LOWEST, 0, 5, [])]
    modifies k
    ensures 1 in k.threads && 7 in k.mutexes && k.mutexes[7].owner == Some(1) && !Valid(k.threads, k.mutexes)
  {
    CeilingStart(k.threads, k.mutexes);
    var r := k.Take(0, 7, true);
    CeilingWait(k);
    r := k.Release(0, 7);
  }

  method CeilingWait(k: Kernel)
    requires Valid(k.threads, k.mutexes) && k.mutexes == map[7 := Mutex(Some(0), LOWEST, 1, 5, [])]
    requires k.threads.Keys == {0, 1} && k.threads[0].pending == None && k.threads[1].currentPriority == 8
    requires !k.threads[0].suspended && !k.threads[1].suspended
    modifies k
    ensures Valid(k.threads, k.mutexes) && 0 in k.threads && !k.threads[0].suspended && Prio(k.threads, 1) == 8
    ensures 7 in k.mutexes && k.mutexes[7] == Mutex(Some(0), k.mutexes[7].priority, 1, 5, [1])
  {
    ghost var T, M := k.threads, k.mutexes;
    var r := k.Take(1, 7, true);
    WaiterBehindCeiling(T, M, k.threads, k.mutexes);
  }

  lemma CeilingStart(T: Threads, M: Mutexes)
    requires T == map[0 := Thread(10, 10, [], None, false, None), 1 := Thread(8, 8, [], None, false, None)]
    requires M == map[7 := Mutex(None, LOWEST, 0, 5, [])]
    ensures Valid(T, M)
  {
    forall t | t in T ensures ThreadWired(T, M, t) && Settled(T, M, t, {}) {}
    forall m | m in M ensures MutexWired(T, M, m) && QueueOrdered(T, M, m, {}) {}
  }

  lemma WaiterBehindCeiling(T: Threads, M: Mutexes, T1: Threads, M1: Mutexes)
    requires 0 in T && T[0].pending == None && 1 in T && T[1].currentPriority == 8
    requires M == map[7 := Mutex(Some(0), LOWEST, 1, 5, [])]
    requires Reranked(WithWait(T, 1, 7), WithWaiter(T, M, 1, 7), T1, M1, 0, true)
    ensures 7 in M1 && M1[7] == Mutex(Some(0), M1[7].priority, 1, 5, [1]) && Prio(T1, 1) == 8
  {
    var T2, M2 := WithWait(T, 1, 7), WithWaiter(T, M, 1, 7);
    OneWaiter(M2[7].waiters, M1[7].waiters, 1);
    forall n: nat ensures Follow(T2, M2, 0, n) != Some(1) {}
    assert !Moved(T2, T1, 1);
  }

  lemma OneWaiter(ws: seq<ThreadId>, ws1: seq<ThreadId>, t: ThreadId)
    requires ws == [t] && SameWaiters(ws, ws1)
    ensures ws1 == [t]
  {
    assert t in ws && t in ws1;
    if |ws1| > 1 {
      var a, b := TwoMembers(ws1);
      assert false;
    }
  }

  /** The initial priorities are those of before. */
  ghost predicate SameInitial(T: Threads, T1: Threads) {
    T1.Keys == T.Keys && forall t :: t in T ==> T1[t].initPriority == T[t].initPriority
  }

  /** t is exactly as urgent as the most urgent initial priority among the threads it keeps waiting and its own. */
  ghost predicate InheritsInitial(T: Threads, M: Mutexes, t: ThreadId)
    requires t in T
  {
    && (forall u :: u in T && Downstream(T, M, u, t) ==> T[t].currentPriority <= T[u].initPriority)
    && exists u :: u in T && Downstream(T, M, u, t) && T[t].currentPriority == T[u].initPriority
  }

  lemma InheritsFromInitial(T: Threads, M: Mutexes, t: ThreadId)
    requires Valid(T, M) && NoCeilings(M) && DeadlockFree(T, M) && t in T
    ensures InheritsInitial(T, M, t)
  {
    InheritanceIsTransitive(T, M, t);
    forall u | u in T ensures Urgency(T, M, u) == T[u].initPriority {
      UrgencyIsInitial(T, M, u);
    }
   }
}
