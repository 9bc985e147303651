/** Mutexes with nested priority inheritance: the mutex part of rt-thread/src/ipc.c.
    Smaller numbers are more urgent. */
module PriorityInheritance {
  import opened Lists

  /** The largest RT_THREAD_PRIORITY_MAX. */
  const PRIORITY_MAX: nat := 256
  const LOWEST: nat := 0xff
  const HOLD_MAX: nat := 0xff

  type ThreadId = nat
  type MutexId = nat

  /** `failing` is the mutex that the thread waited for in vain and whose take it still has to end. */
  datatype Thread = Thread(initPriority: nat, currentPriority: nat, taken: seq<MutexId>,
                           pending: Option<MutexId>, suspended: bool, failing: Option<MutexId>)

  datatype Mutex = Mutex(owner: Option<ThreadId>, priority: nat, hold: nat, ceiling: nat,
                         waiters: seq<ThreadId>)

  type Threads = map<ThreadId, Thread>
  type Mutexes = map<MutexId, Mutex>

  // ----- the local rules -----

  /** A thread owns exactly the mutexes on its taken list, and waits where its pending object says. */
  ghost predicate ThreadWired(T: Threads, M: Mutexes, t: ThreadId)
    requires t in T
  {
    && T[t].initPriority < PRIORITY_MAX
    && Distinct(T[t].taken)
    && (forall m :: m in T[t].taken ==> m in M && M[m].owner == Some(t))
    && (T[t].pending.Some? ==> T[t].pending.value in M && t in M[T[t].pending.value].waiters)
  }

  /** A mutex is on its owner's taken list; it is held iff it has an owner; only then does anybody wait. */
  ghost predicate MutexWired(T: Threads, M: Mutexes, m: MutexId)
    requires m in M
  {
    && (M[m].owner == None <==> M[m].hold == 0)
    && M[m].hold <= HOLD_MAX && M[m].ceiling <= LOWEST
    && (M[m].owner.Some? ==> M[m].owner.value in T && m in T[M[m].owner.value].taken)
    && Distinct(M[m].waiters)
    && (forall w :: w in M[m].waiters ==> w in T && T[w].suspended && T[w].pending == Some(m))
    && (M[m].waiters != [] ==> M[m].owner.Some? && M[m].owner.value !in M[m].waiters)
  }

  ghost predicate Wired(T: Threads, M: Mutexes) {
    && (forall t {:trigger ThreadWired(T, M, t)} :: t in T ==> ThreadWired(T, M, t))
    && (forall m {:trigger MutexWired(T, M, m)} :: m in M ==> MutexWired(T, M, m))
  }

  function Prio(T: Threads, t: ThreadId): nat {
    if t in T then T[t].currentPriority else LOWEST
  }

  ghost predicate Sorted(T: Threads, ws: seq<ThreadId>) {
    forall i, j :: 0 <= i < j < |ws| ==> Prio(T, ws[i]) <= Prio(T, ws[j])
  }

  function HeadPriority(T: Threads, ws: seq<ThreadId>): nat {
    if ws != [] then Prio(T, ws[0]) else LOWEST
  }

  /** A wait list is in priority order and the mutex caches the priority of its first waiter; a stale
      one may still cache that of a more urgent waiter which has left. */
  ghost predicate QueueOrdered(T: Threads, M: Mutexes, m: MutexId, stale: set<MutexId>)
    requires m in M
  {
    && Sorted(T, M[m].waiters)
    && M[m].priority <= HeadPriority(T, M[m].waiters)
    && (m !in stale ==> M[m].priority == HeadPriority(T, M[m].waiters))
  }

  ghost predicate Queued(T: Threads, M: Mutexes, stale: set<MutexId>) {
    forall m {:trigger QueueOrdered(T, M, m, stale)} :: m in M ==> QueueOrdered(T, M, m, stale)
  }

  function Min(a: nat, b: nat): nat { if a < b then a else b }

  lemma MinIs(a: nat, b: nat)
    ensures Min(a, b) <= a && Min(a, b) <= b && (Min(a, b) == a || Min(a, b) == b)
  {}

  /** What a held mutex asks of its owner: its most urgent waiter, but at least its ceiling. */
  function Demand(M: Mutexes, m: MutexId): nat {
    if m in M then Min(M[m].priority, M[m].ceiling) else LOWEST
  }

  function MinDemand(M: Mutexes, floor: nat, ms: seq<MutexId>): (p: nat)
    ensures p <= floor && forall m :: m in ms ==> p <= Demand(M, m)
    ensures p == floor || exists m :: m in ms && p == Demand(M, m)
  {
    if ms == [] then floor
    else Min(MinDemand(M, floor, ms[..|ms| - 1]), Demand(M, ms[|ms| - 1]))
  }

  function Required(T: Threads, M: Mutexes, t: ThreadId): nat
    requires t in T
  {
    MinDemand(M, T[t].initPriority, T[t].taken)
  }

  ghost predicate Exact(T: Threads, M: Mutexes, t: ThreadId)
    requires t in T
  {
    T[t].currentPriority == Required(T, M, t)
  }

  /** A thread is never less urgent than it is asked to be; a loose one may be more urgent. */
  ghost predicate Settled(T: Threads, M: Mutexes, t: ThreadId, loose: set<ThreadId>)
    requires t in T
  {
    T[t].currentPriority <= Required(T, M, t) && (t !in loose ==> Exact(T, M, t))
  }

  ghost predicate SettledBut(T: Threads, M: Mutexes, t: ThreadId, loose: set<ThreadId>) {
    forall u {:trigger Settled(T, M, u, loose)} :: u in T && u != t ==> Settled(T, M, u, loose)
  }

  /** The invariant, but for the mutexes whose cached priority may be stale and the threads that may
      have kept a priority nobody asks for any more. */
  ghost predicate ValidBut(T: Threads, M: Mutexes, stale: set<MutexId>, loose: set<ThreadId>) {
    Wired(T, M) && Queued(T, M, stale) &&
    forall t {:trigger Settled(T, M, t, loose)} :: t in T ==> Settled(T, M, t, loose)
  }

  /** The invariant: structure, ordered queues, and the local inheritance rule for all threads. */
  ghost predicate Valid(T: Threads, M: Mutexes) {
    ValidBut(T, M, {}, {})
  }

  /** The half that no failing wait breaks: nobody is less urgent than asked. */
  ghost predicate Covered(T: Threads, M: Mutexes) {
    ValidBut(T, M, M.Keys, T.Keys)
  }

  lemma Weaken(T: Threads, M: Mutexes, stale: set<MutexId>, loose: set<ThreadId>,
               stale1: set<MutexId>, loose1: set<ThreadId>)
    requires ValidBut(T, M, stale, loose)
    requires forall m :: m in M && m in stale ==> m in stale1
    requires forall t :: t in T && t in loose ==> t in loose1
    ensures ValidBut(T, M, stale1, loose1)
  {
    forall m | m in M ensures QueueOrdered(T, M, m, stale1) {
      assert QueueOrdered(T, M, m, stale);
    }
    forall t | t in T ensures Settled(T, M, t, loose1) {
      assert Settled(T, M, t, loose);
    }
  }

  // ----- wait lists -----

  /** Where a thread of priority p goes: before the first waiter that is strictly less urgent. */
  function Place(T: Threads, ws: seq<ThreadId>, p: nat): (k: nat)
    ensures k <= |ws| && (k < |ws| ==> p < Prio(T, ws[k]))
    ensures forall i :: 0 <= i < k ==> Prio(T, ws[i]) <= p
  {
    if ws == [] || p < Prio(T, ws[0]) then 0 else 1 + Place(T, ws[1..], p)
  }

  lemma {:induction false} PlaceIs(T: Threads, ws: seq<ThreadId>, p: nat, n: nat)
    requires n <= |ws| && (n < |ws| ==> p < Prio(T, ws[n]))
    requires forall i :: 0 <= i < n ==> Prio(T, ws[i]) <= p
    ensures Place(T, ws, p) == n
  {
    if n > 0 {
      PlaceIs(T, ws[1..], p, n - 1);
    }
  }

  /** The wait list after `_ipc_list_suspend` has put thread t on it. */
  function Enqueued(T: Threads, ws: seq<ThreadId>, t: ThreadId): (r: seq<ThreadId>)
    ensures forall w :: w in r <==> w in ws || w == t
  {
    var k := Place(T, ws, Prio(T, t));
    assert ws == ws[..k] + ws[k..];
    ws[..k] + [t] + ws[k..]
  }

  /** The list r is ws with t behind all that are at least as urgent and in front of the others. */
  ghost predicate Behind(T: Threads, ws: seq<ThreadId>, t: ThreadId, r: seq<ThreadId>) {
    exists k: nat :: k <= |ws| && r == ws[..k] + [t] + ws[k..]
                     && (forall i :: 0 <= i < k ==> Prio(T, ws[i]) <= Prio(T, t))
                     && (k < |ws| ==> Prio(T, t) < Prio(T, ws[k]))
  }

  lemma {:induction false} EnqueuedSorted(T: Threads, ws: seq<ThreadId>, t: ThreadId)
    requires Sorted(T, ws)
    ensures Sorted(T, Enqueued(T, ws, t))
    ensures HeadPriority(T, Enqueued(T, ws, t)) == if ws == [] then Prio(T, t) else Min(HeadPriority(T, ws), Prio(T, t))
  {
    var k := Place(T, ws, Prio(T, t));
    var r := Enqueued(T, ws, t);
    forall i, j | 0 <= i < j < |r| ensures Prio(T, r[i]) <= Prio(T, r[j]) {
      if j > k {
        assert r[j] == ws[j - 1] && Prio(T, ws[k]) <= Prio(T, ws[j - 1]);
        assert i < k ==> r[i] == ws[i];
        assert i > k ==> r[i] == ws[i - 1];
      }
    }
  }

  lemma EnqueuedDistinct(T: Threads, ws: seq<ThreadId>, t: ThreadId)
    requires Distinct(ws) && t !in ws
    ensures Distinct(Enqueued(T, ws, t))
  {
    DistinctInsert(ws, Place(T, ws, Prio(T, t)), t);
  }

  lemma {:induction false} WithoutSorted(T: Threads, ws: seq<ThreadId>, t: ThreadId)
    requires Sorted(T, ws)
    ensures Sorted(T, Without(ws, t))
  {
    if ws != [] && ws[0] != t {
      assert forall j :: 0 < j < |ws| ==> ws[j] == ws[1..][j - 1];
      WithoutSorted(T, ws[1..], t);
      var r := Without(ws[1..], t);
      forall j | 0 <= j < |r| ensures Prio(T, ws[0]) <= Prio(T, r[j]) {
        assert r[j] in ws[1..];
      }
    }
  }

  lemma SortedFrame(T: Threads, T1: Threads, ws: seq<ThreadId>)
    requires Sorted(T, ws) && forall w :: w in ws ==> Prio(T1, w) == Prio(T, w)
    ensures Sorted(T1, ws) && HeadPriority(T1, ws) == HeadPriority(T, ws)
  {
    forall i, j | 0 <= i < j < |ws| ensures Prio(T1, ws[i]) <= Prio(T1, ws[j]) {
      assert ws[i] in ws && ws[j] in ws;
    }
  }

  // ----- demands -----

  lemma MinDemandFrame(M: Mutexes, M1: Mutexes, floor: nat, ms: seq<MutexId>)
    requires forall m :: m in ms ==> Demand(M1, m) == Demand(M, m)
    ensures MinDemand(M1, floor, ms) == MinDemand(M, floor, ms)
  {
  }

  lemma MinDemandMonotone(M: Mutexes, M1: Mutexes, floor: nat, ms: seq<MutexId>)
    requires forall m :: m in ms ==> Demand(M1, m) <= Demand(M, m)
    ensures MinDemand(M1, floor, ms) <= MinDemand(M, floor, ms)
  {
  }

  /** A thread stays settled when its own row keeps what matters and no demand on it changes. */
  lemma SettledFrame(T: Threads, M: Mutexes, T1: Threads, M1: Mutexes, u: ThreadId, loose: set<ThreadId>)
    requires u in T && u in T1 && Settled(T, M, u, loose)
    requires T1[u].currentPriority == T[u].currentPriority && T1[u].initPriority == T[u].initPriority
    requires T1[u].taken == T[u].taken && forall m :: m in T[u].taken ==> Demand(M1, m) == Demand(M, m)
    ensures Settled(T1, M1, u, loose)
  {
    MinDemandFrame(M, M1, T[u].initPriority, T[u].taken);
  }

  // ----- one link of a chain -----

  function WithPriority(T: Threads, t: ThreadId, p: nat): Threads
    requires t in T
  {
    T[t := T[t].(currentPriority := p)]
  }

  /** Mutex m with thread t re-linked at the place its priority now gives it. */
  function Relinked(T: Threads, m: Mutex, t: ThreadId): Mutex {
    var ws := Enqueued(T, Without(m.waiters, t), t);
    m.(waiters := ws, priority := HeadPriority(T, ws))
  }

  /** Two states that differ only in priorities and in the order of wait lists. */
  ghost predicate SameShape(T: Threads, M: Mutexes, T1: Threads, M1: Mutexes) {
    && T1.Keys == T.Keys && M1.Keys == M.Keys
    && (forall t :: t in T ==> T1[t] == T[t].(currentPriority := T1[t].currentPriority))
    && (forall m :: m in M ==> M1[m] == M[m].(priority := M1[m].priority, waiters := M1[m].waiters)
                               && SameWaiters(M[m].waiters, M1[m].waiters))
  }

  ghost predicate SameWaiters(ws: seq<ThreadId>, ws1: seq<ThreadId>) {
    && (Distinct(ws) ==> Distinct(ws1))
    && (forall w :: w in ws <==> w in ws1)
  }

  lemma SameShapeWired(T: Threads, M: Mutexes, T1: Threads, M1: Mutexes)
    requires Wired(T, M) && SameShape(T, M, T1, M1)
    ensures Wired(T1, M1)
  {
    forall t | t in T ensures ThreadWired(T1, M1, t) {
      assert ThreadWired(T, M, t);
    }
    forall m | m in M ensures MutexWired(T1, M1, m) {
      assert MutexWired(T, M, m);
      assert M1[m].waiters != [] ==> M1[m].waiters[0] in M[m].waiters;
    }
  }

  lemma RelinkedShape(T: Threads, M: Mutexes, t: ThreadId, p: nat, m: MutexId)
    requires t in T && m in M && t in M[m].waiters && Distinct(M[m].waiters)
    ensures var T1 := WithPriority(T, t, p); SameShape(T, M, T1, M[m := Relinked(T1, M[m], t)])
  {
    var T1 := WithPriority(T, t, p);
    WithoutDistinct(M[m].waiters, t);
    EnqueuedDistinct(T1, Without(M[m].waiters, t), t);
    assert SameWaiters(M[m].waiters, Relinked(T1, M[m], t).waiters);
  }

  lemma RelinkedOrdered(T: Threads, t: ThreadId, p: nat, m: Mutex)
    requires t in T && Distinct(m.waiters) && Sorted(T, m.waiters)
    ensures var T1 := WithPriority(T, t, p); Sorted(T1, Relinked(T1, m, t).waiters)
  {
    var T1 := WithPriority(T, t, p);
    var rest := Without(m.waiters, t);
    WithoutSorted(T, m.waiters, t);
    WithoutDistinct(m.waiters, t);
    SortedFrame(T, T1, rest);
    EnqueuedSorted(T1, rest, t);
  }

  lemma RelinkedQueued(T: Threads, M: Mutexes, t: ThreadId, p: nat, m: MutexId, stale: set<MutexId>)
    requires Wired(T, M) && Queued(T, M, stale) && t in T && T[t].pending == Some(m) && m in M
    ensures var T1 := WithPriority(T, t, p); Queued(T1, M[m := Relinked(T1, M[m], t)], stale)
  {
    var T1 := WithPriority(T, t, p);
    var M1 := M[m := Relinked(T1, M[m], t)];
    forall k | k in M ensures QueueOrdered(T1, M1, k, stale) {
      assert MutexWired(T, M, k) && QueueOrdered(T, M, k, stale);
      if k == m {
        RelinkedOrdered(T, t, p, M[m]);
      } else {
        SortedFrame(T, T1, M[k].waiters);
      }
    }
  }

  /** Only the owner of m can be asked for something new; t is settled now. */
  lemma RelinkedSettled(T: Threads, M: Mutexes, t: ThreadId, p: nat, m: MutexId, loose: set<ThreadId>)
    requires Wired(T, M) && SettledBut(T, M, t, loose) && t in T && p == Required(T, M, t)
    requires m in M && MutexWired(T, M, m) && M[m].owner.Some?
    ensures var T1 := WithPriority(T, t, p);
      SettledBut(T1, M[m := Relinked(T1, M[m], t)], M[m].owner.value, loose - {t})
  {
    var T1 := WithPriority(T, t, p);
    var M1 := M[m := Relinked(T1, M[m], t)];
    forall u | u in T && u != M[m].owner.value ensures Settled(T1, M1, u, loose - {t}) {
      assert ThreadWired(T, M, u);
      if u == t {
        MinDemandFrame(M, M1, T[u].initPriority, T[u].taken);
      } else {
        assert Settled(T, M, u, loose);
        SettledFrame(T, M, T1, M1, u, loose);
      }
    }
  }

  lemma HeadDirection(T: Threads, T1: Threads, ws: seq<ThreadId>, ws1: seq<ThreadId>)
    requires Sorted(T, ws) && Sorted(T1, ws1) && forall w :: w in ws <==> w in ws1
    requires forall w :: w in ws ==> Prio(T1, w) <= Prio(T, w)
    ensures HeadPriority(T1, ws1) <= HeadPriority(T, ws)
  {
    assert ws != [] ==> ws[0] in ws1;
    assert ws1 != [] ==> ws1[0] in ws;
  }

  /** A less urgent waiter asks for no more urgency; a more urgent one for no less, unless m was stale. */
  lemma RelinkedDirection(T: Threads, t: ThreadId, p: nat, m: Mutex)
    requires t in T && t in m.waiters && Sorted(T, m.waiters) && Distinct(m.waiters)
    requires m.priority <= HeadPriority(T, m.waiters)
    ensures var T1 := WithPriority(T, t, p); var m1 := Relinked(T1, m, t);
      && (p <= T[t].currentPriority && m.priority == HeadPriority(T, m.waiters) ==> m1.priority <= m.priority)
      && (p >= T[t].currentPriority ==> m1.priority >= m.priority)
  {
    var T1 := WithPriority(T, t, p);
    RelinkedOrdered(T, t, p, m);
    var ws1 := Relinked(T1, m, t).waiters;
    if p <= T[t].currentPriority {
      HeadDirection(T, T1, m.waiters, ws1);
    }
    if p >= T[t].currentPriority {
      HeadDirection(T1, T, ws1, m.waiters);
    }
  }

  // ----- what re-ranking changes -----

  /** The thread k steps down the chain: whoever owns what t waits for, and so on. */
  ghost function Follow(T: Threads, M: Mutexes, t: ThreadId, k: nat): Option<ThreadId>
    decreases k
  {
    if k == 0 then Some(t)
    else if t in T && T[t].pending.Some? && T[t].pending.value in M && M[T[t].pending.value].owner.Some? then
      Follow(T, M, M[T[t].pending.value].owner.value, k - 1)
    else None
  }

  ghost predicate Downstream(T: Threads, M: Mutexes, t: ThreadId, u: ThreadId) {
    exists k: nat :: Follow(T, M, t, k) == Some(u)
  }

  ghost predicate Moved(T: Threads, T1: Threads, t: ThreadId) {
    Prio(T1, t) != Prio(T, t)
  }

  /** Threads whose priority stayed keep their order; a moved thread comes after its equals that stayed. */
  ghost predicate StableOrder(T: Threads, T1: Threads, ws: seq<ThreadId>, ws1: seq<ThreadId>) {
    && (forall a, b :: Before(ws, a, b) ==> Moved(T, T1, a) || Moved(T, T1, b) || Before(ws1, a, b))
    && (forall a, b :: Before(ws1, a, b) ==> Prio(T1, a) == Prio(T1, b) ==> Moved(T, T1, a) ==> Moved(T, T1, b))
  }

  ghost predicate QueueStable(T: Threads, M: Mutexes, T1: Threads, M1: Mutexes, m: MutexId)
    requires m in M && m in M1
  {
    StableOrder(T, T1, M[m].waiters, M1[m].waiters)
  }

  ghost predicate MovedDownstream(T: Threads, M: Mutexes, T1: Threads, t: ThreadId, urgent: bool) {
    forall u {:trigger Moved(T, T1, u)} :: Moved(T, T1, u) ==>
      Downstream(T, M, t, u) && (Prio(T1, u) < Prio(T, u) <==> urgent)
  }

  /** All that re-ranking from thread t does: priorities move one way and only downstream of t,
      and the wait lists are re-sorted stably. */
  ghost predicate Reranked(T: Threads, M: Mutexes, T1: Threads, M1: Mutexes, t: ThreadId, urgent: bool) {
    && SameShape(T, M, T1, M1)
    && MovedDownstream(T, M, T1, t, urgent)
    && (forall m {:trigger QueueStable(T, M, T1, M1, m)} :: m in M ==> QueueStable(T, M, T1, M1, m))
  }

  /** What re-ranking from thread t does in any case: only priorities and the order of wait lists
      change, and priorities only downstream of t. */
  ghost predicate Rearranged(T: Threads, M: Mutexes, T1: Threads, M1: Mutexes, t: ThreadId) {
    && SameShape(T, M, T1, M1)
    && forall u {:trigger Moved(T, T1, u)} :: Moved(T, T1, u) ==> Downstream(T, M, t, u)
  }

  lemma RelinkedStable(T: Threads, ws: seq<ThreadId>, t: ThreadId, p: nat)
    requires t in T && t in ws && Sorted(T, ws) && Distinct(ws) && p != T[t].currentPriority
    ensures var T1 := WithPriority(T, t, p); StableOrder(T, T1, ws, Enqueued(T1, Without(ws, t), t))
  {
    var T1 := WithPriority(T, t, p);
    var rest := Without(ws, t);
    var ws1 := Enqueued(T1, rest, t);
    forall a, b | Before(ws, a, b) && a != t && b != t ensures Before(ws1, a, b) {
      WithoutBefore(ws, t, a, b);
      InsertBefore(rest, Place(T1, rest, p), t, a, b);
    }
    WithoutSorted(T, ws, t);
    WithoutDistinct(ws, t);
    SortedFrame(T, T1, rest);
    forall b | Before(ws1, t, b) ensures Prio(T1, b) > p {
      EnqueuedLast(T1, rest, t, b);
    }
  }

  /** Whoever stands behind a thread that was just put on the list is strictly less urgent. */
  lemma EnqueuedLast(T: Threads, ws: seq<ThreadId>, t: ThreadId, b: ThreadId)
    requires Sorted(T, ws) && t !in ws && Before(Enqueued(T, ws, t), t, b)
    ensures Prio(T, b) > Prio(T, t)
  {
    var k := Place(T, ws, Prio(T, t));
    var j := InsertedBehind(ws, k, t, b);
    assert Prio(T, ws[k]) <= Prio(T, ws[j]);
  }

  lemma {:induction false} FollowSameShape(T: Threads, M: Mutexes, T1: Threads, M1: Mutexes, t: ThreadId, k: nat)
    requires SameShape(T, M, T1, M1)
    ensures Follow(T1, M1, t, k) == Follow(T, M, t, k)
    decreases k
  {
    if k > 0 && t in T && T[t].pending.Some? && T[t].pending.value in M && M[T[t].pending.value].owner.Some? {
      FollowSameShape(T, M, T1, M1, M[T[t].pending.value].owner.value, k - 1);
    }
  }

  /** The first link: t itself gets priority p and is re-linked in the queue of m. */
  lemma FirstLink(T: Threads, M: Mutexes, t: ThreadId, p: nat, m: MutexId)
    requires t in T && m in M && t in M[m].waiters && Distinct(M[m].waiters) && Sorted(T, M[m].waiters)
    requires forall k :: k in M && t in M[k].waiters ==> k == m
    requires p != T[t].currentPriority
    ensures var T1 := WithPriority(T, t, p);
      Reranked(T, M, T1, M[m := Relinked(T1, M[m], t)], t, p < T[t].currentPriority)
  {
    RelinkedShape(T, M, t, p, m);
    RelinkedStable(T, M[m].waiters, t, p);
    assert Follow(T, M, t, 0) == Some(t);
  }

  lemma StableCompose(T: Threads, T1: Threads, T2: Threads, ws: seq<ThreadId>, ws1: seq<ThreadId>, ws2: seq<ThreadId>)
    requires SameWaiters(ws, ws1) && SameWaiters(ws1, ws2) && Distinct(ws)
    requires StableOrder(T, T1, ws, ws1) && StableOrder(T1, T2, ws1, ws2)
    requires forall u: ThreadId :: !Moved(T, T2, u) ==> !Moved(T, T1, u) && !Moved(T1, T2, u)
    ensures StableOrder(T, T2, ws, ws2)
  {
    forall a, b | Before(ws2, a, b) && Prio(T2, a) == Prio(T2, b) && Moved(T, T2, a) ensures Moved(T, T2, b) {
      if !Moved(T, T2, b) && !Moved(T1, T2, a) {
        InOrder(ws1, ws2, a, b, T1, T2);
      }
    }
  }

  lemma InOrder(ws1: seq<ThreadId>, ws2: seq<ThreadId>, a: ThreadId, b: ThreadId, T1: Threads, T2: Threads)
    requires SameWaiters(ws1, ws2) && Distinct(ws1) && Before(ws2, a, b)
    requires StableOrder(T1, T2, ws1, ws2) && !Moved(T1, T2, a) && !Moved(T1, T2, b)
    ensures Before(ws1, a, b)
  {
    var p, q :| 0 <= p < q < |ws2| && ws2[p] == a && ws2[q] == b;
    assert a in ws2 && b in ws2;
    var i, j :| 0 <= i < |ws1| && 0 <= j < |ws1| && ws1[i] == a && ws1[j] == b;
    if j < i {
      assert Before(ws1, b, a);
      assert false;
    }
  }

  lemma RestMoves(T: Threads, M: Mutexes, T1: Threads, M1: Mutexes, T2: Threads, t: ThreadId, o: ThreadId, urgent: bool)
    requires SameShape(T, M, T1, M1)
    requires MovedDownstream(T, M, T1, t, urgent) && MovedDownstream(T1, M1, T2, o, urgent)
    requires forall k: nat :: Follow(T, M, t, k + 1) == Follow(T, M, o, k)
    ensures MovedDownstream(T, M, T2, t, urgent)
    ensures forall u: ThreadId :: !Moved(T, T2, u) ==> !Moved(T, T1, u) && !Moved(T1, T2, u)
  {
    forall u: ThreadId | Moved(T1, T2, u) ensures Downstream(T, M, t, u) {
      var k: nat :| Follow(T1, M1, o, k) == Some(u);
      FollowSameShape(T, M, T1, M1, o, k);
      assert Follow(T, M, t, k + 1) == Some(u);
    }
    forall u: ThreadId | Moved(T, T1, u) || Moved(T1, T2, u)
      ensures Moved(T, T2, u) && (Prio(T2, u) < Prio(T, u) <==> urgent)
    {
      assert Moved(T, T1, u) ==> (Prio(T1, u) < Prio(T, u) <==> urgent);
      assert Moved(T1, T2, u) ==> (Prio(T2, u) < Prio(T1, u) <==> urgent);
    }
    forall u: ThreadId | Moved(T, T2, u) ensures Moved(T, T1, u) || Moved(T1, T2, u) {}
  }

  lemma NothingReranked(T: Threads, M: Mutexes, t: ThreadId, urgent: bool)
    ensures Reranked(T, M, T, M, t, urgent)
  {
    forall m | m in M ensures QueueStable(T, M, T, M, m) {}
  }

  lemma SameShapeTransitive(T: Threads, M: Mutexes, T1: Threads, M1: Mutexes, T2: Threads, M2: Mutexes)
    requires SameShape(T, M, T1, M1) && SameShape(T1, M1, T2, M2)
    ensures SameShape(T, M, T2, M2)
  {
  }

  /** Going on from the owner of the mutex that t waits for. */
  lemma RestOfChain(T: Threads, M: Mutexes, T1: Threads, M1: Mutexes, T2: Threads, M2: Mutexes,
                    t: ThreadId, o: ThreadId, urgent: bool)
    requires Reranked(T, M, T1, M1, t, urgent) && Reranked(T1, M1, T2, M2, o, urgent)
    requires forall m :: m in M ==> Distinct(M[m].waiters)
    requires forall k: nat :: Follow(T, M, t, k + 1) == Follow(T, M, o, k)
    ensures Reranked(T, M, T2, M2, t, urgent)
  {
    SameShapeTransitive(T, M, T1, M1, T2, M2);
    RestMoves(T, M, T1, M1, T2, t, o, urgent);
    forall m | m in M ensures QueueStable(T, M, T2, M2, m) {
      assert QueueStable(T, M, T1, M1, m) && QueueStable(T1, M1, T2, M2, m);
      StableCompose(T, T1, T2, M[m].waiters, M1[m].waiters, M2[m].waiters);
    }
  }

  lemma RestOfAnyChain(T: Threads, M: Mutexes, T1: Threads, M1: Mutexes, T2: Threads, M2: Mutexes,
                       t: ThreadId, o: ThreadId)
    requires Rearranged(T, M, T1, M1, t) && Rearranged(T1, M1, T2, M2, o)
    requires forall k: nat :: Follow(T, M, t, k + 1) == Follow(T, M, o, k)
    ensures Rearranged(T, M, T2, M2, t)
  {
    SameShapeTransitive(T, M, T1, M1, T2, M2);
    forall u: ThreadId | Moved(T, T2, u) ensures Downstream(T, M, t, u) {
      if !Moved(T, T1, u) {
        assert Moved(T1, T2, u);
        var k: nat :| Follow(T1, M1, o, k) == Some(u);
        FollowSameShape(T, M, T1, M1, o, k);
        assert Follow(T, M, t, k + 1) == Some(u);
      }
    }
  }

  // ----- termination measure -----

  ghost function Total(T: Threads): int
    decreases |T|
  {
    if T == map[] then 0 else
      var t :| t in T;
      T[t].currentPriority + Total(T - {t})
  }

  lemma {:induction false} TotalSplit(T: Threads, t: ThreadId)
    requires t in T
    ensures Total(T) == T[t].currentPriority + Total(T - {t})
    decreases |T|
  {
    var u :| u in T && Total(T) == T[u].currentPriority + Total(T - {u});
    if u != t {
      TotalSplit(T - {u}, t);
      TotalSplit(T - {t}, u);
      assert T - {u} - {t} == T - {t} - {u};
    }
  }

  lemma TotalUpdate(T: Threads, t: ThreadId, p: nat)
    requires t in T
    ensures Total(WithPriority(T, t, p)) == Total(T) - T[t].currentPriority + p
  {
    TotalSplit(T, t);
    TotalSplit(WithPriority(T, t, p), t);
    assert WithPriority(T, t, p) - {t} == T - {t};
  }

  lemma {:induction false} TotalBounds(T: Threads)
    requires forall t :: t in T ==> T[t].currentPriority < PRIORITY_MAX
    ensures 0 <= Total(T) <= PRIORITY_MAX * |T|
    decreases |T|
  {
    if T != map[] {
      var t :| t in T;
      TotalSplit(T, t);
      TotalBounds(T - {t});
    }
  }

  /** How far all threads together are from the end of the scale towards which priorities move. */
  ghost function Headroom(T: Threads, urgent: bool): int {
    if urgent then Total(T) else PRIORITY_MAX * |T| - Total(T)
  }

  ghost predicate Bounded(T: Threads) {
    forall t :: t in T ==> T[t].currentPriority < PRIORITY_MAX
  }

  lemma HeadroomShrinks(T: Threads, t: ThreadId, p: nat, urgent: bool)
    requires t in T && Bounded(T) && p < PRIORITY_MAX
    requires if urgent then p < T[t].currentPriority else p > T[t].currentPriority
    ensures 0 <= Headroom(WithPriority(T, t, p), urgent) < Headroom(T, urgent)
  {
    TotalUpdate(T, t, p);
    TotalBounds(WithPriority(T, t, p));
    assert WithPriority(T, t, p).Keys == T.Keys;
  }

  // ----- whose turn it is -----

  /** It is t's turn to get p, the priority asked of it, which it does not have yet. */
  ghost predicate Due(T: Threads, M: Mutexes, t: ThreadId, p: nat, stale: set<MutexId>, loose: set<ThreadId>)
    requires t in T
  {
    && Wired(T, M) && Queued(T, M, stale) && Bounded(T) && SettledBut(T, M, t, loose)
    && p == Required(T, M, t) && p != T[t].currentPriority
  }

  lemma WaitingFacts(T: Threads, M: Mutexes, t: ThreadId)
    requires Wired(T, M) && t in T && T[t].pending.Some?
    ensures var m := T[t].pending.value;
      && m in M && MutexWired(T, M, m) && t in M[m].waiters && M[m].owner.Some?
      && T[t].suspended
      && M[m].owner.value in T && M[m].owner.value != t
      && (forall k :: k in M && t in M[k].waiters ==> k == m)
      && (forall k: nat :: Follow(T, M, t, k + 1) == Follow(T, M, M[m].owner.value, k))
  {
    assert ThreadWired(T, M, t);
    var m := T[t].pending.value;
    assert MutexWired(T, M, m);
    forall k | k in M && t in M[k].waiters ensures k == m {
      assert MutexWired(T, M, k);
    }
  }

  lemma DistinctQueues(T: Threads, M: Mutexes)
    requires Wired(T, M)
    ensures forall m :: m in M ==> Distinct(M[m].waiters)
  {
    forall m | m in M ensures Distinct(M[m].waiters) {
      assert MutexWired(T, M, m);
    }
  }

  /** The owner of m, settled so far, is not asked to move up when t moved down; and nothing but the
      way t moved when its priority was exact and m's not stale. */
  lemma OwnerDirection(T: Threads, M: Mutexes, t: ThreadId, p: nat, m: MutexId, o: ThreadId)
    requires t in T && o in T && o != t && T[o].currentPriority <= Required(T, M, o)
    requires m in M && t in M[m].waiters && Sorted(T, M[m].waiters) && Distinct(M[m].waiters)
    requires M[m].priority <= HeadPriority(T, M[m].waiters)
    ensures var T1 := WithPriority(T, t, p); var q := Required(T1, M[m := Relinked(T1, M[m], t)], o);
      && (p >= T[t].currentPriority ==> q >= T[o].currentPriority)
      && (p <= T[t].currentPriority && M[m].priority == HeadPriority(T, M[m].waiters) && Exact(T, M, o)
          ==> q <= T[o].currentPriority)
  {
    var T1 := WithPriority(T, t, p);
    var M1 := M[m := Relinked(T1, M[m], t)];
    RelinkedDirection(T, t, p, M[m]);
    if M1[m].priority <= M[m].priority {
      MinDemandMonotone(M, M1, T[o].initPriority, T[o].taken);
    }
    if M1[m].priority >= M[m].priority {
      MinDemandMonotone(M1, M, T[o].initPriority, T[o].taken);
    }
  }

  lemma SettledOrDue(T: Threads, M: Mutexes, o: ThreadId, q: nat, stale: set<MutexId>, loose: set<ThreadId>)
    requires Wired(T, M) && Queued(T, M, stale) && SettledBut(T, M, o, loose) && Bounded(T)
    requires o in T && q == Required(T, M, o)
    ensures if q == T[o].currentPriority then ValidBut(T, M, stale, loose - {o}) else Due(T, M, o, q, stale, loose)
  {
    if q == T[o].currentPriority {
      forall u | u in T ensures Settled(T, M, u, loose - {o}) {
        assert u != o ==> Settled(T, M, u, loose);
      }
    }
  }

  /** After re-linking t, either every thread is settled or it is the owner's turn. */
  lemma LinkDue(T: Threads, M: Mutexes, t: ThreadId, p: nat, m: MutexId, o: ThreadId,
                stale: set<MutexId>, loose: set<ThreadId>)
    requires t in T && Due(T, M, t, p, stale, loose) && T[t].pending == Some(m) && p < PRIORITY_MAX
    requires m in M && MutexWired(T, M, m) && t in M[m].waiters && M[m].owner == Some(o) && o in T && o != t
    ensures var T1 := WithPriority(T, t, p); var M1 := M[m := Relinked(T1, M[m], t)];
      var q := Required(T1, M1, o);
      if q == T1[o].currentPriority then ValidBut(T1, M1, stale, loose - {t})
      else Due(T1, M1, o, q, stale, loose - {t})
  {
    var T1 := WithPriority(T, t, p);
    var M1 := M[m := Relinked(T1, M[m], t)];
    RelinkedShape(T, M, t, p, m);
    SameShapeWired(T, M, T1, M1);
    RelinkedQueued(T, M, t, p, m, stale);
    RelinkedSettled(T, M, t, p, m, loose);
    SettledOrDue(T1, M1, o, Required(T1, M1, o), stale, loose - {t});
    if Required(T1, M1, o) == T1[o].currentPriority {
      Weaken(T1, M1, stale, loose - {t} - {o}, stale, loose - {t});
    }
  }

  /** In which direction the owner has to move then. */
  lemma LinkDirection(T: Threads, M: Mutexes, t: ThreadId, p: nat, m: MutexId, o: ThreadId,
                      stale: set<MutexId>, loose: set<ThreadId>)
    requires t in T && Due(T, M, t, p, stale, loose)
    requires m in M && MutexWired(T, M, m) && t in M[m].waiters && o in T && o != t
    ensures var T1 := WithPriority(T, t, p); var q := Required(T1, M[m := Relinked(T1, M[m], t)], o);
      && (p > T[t].currentPriority ==> q >= T[o].currentPriority)
      && (stale == {} && loose <= {t} && p < T[t].currentPriority ==> q <= T[o].currentPriority)
  {
    assert QueueOrdered(T, M, m, stale) && Settled(T, M, o, loose);
    OwnerDirection(T, M, t, p, m, o);
  }

  lemma NotQueued(T: Threads, M: Mutexes, t: ThreadId)
    requires Wired(T, M) && t in T && (T[t].suspended ==> T[t].pending == None)
    ensures forall m :: m in M ==> t !in M[m].waiters
  {
    forall m | m in M ensures t !in M[m].waiters {
      assert MutexWired(T, M, m);
    }
  }

  /** A thread that waits for nothing changes nobody's queue. */
  lemma NobodyDue(T: Threads, M: Mutexes, t: ThreadId, p: nat, stale: set<MutexId>, loose: set<ThreadId>)
    requires t in T && Due(T, M, t, p, stale, loose) && (T[t].suspended ==> T[t].pending == None)
    ensures var T1 := WithPriority(T, t, p);
      ValidBut(T1, M, stale, loose - {t}) && Reranked(T, M, T1, M, t, p < T[t].currentPriority)
  {
    var T1 := WithPriority(T, t, p);
    NotQueued(T, M, t);
    SameShapeWired(T, M, T1, M);
    forall m | m in M ensures QueueStable(T, M, T1, M, m) && QueueOrdered(T1, M, m, stale) {
      assert QueueOrdered(T, M, m, stale);
      SortedFrame(T, T1, M[m].waiters);
    }
    forall u | u in T ensures Settled(T1, M, u, loose - {t}) {
      assert u != t ==> Settled(T, M, u, loose);
    }
    assert Follow(T, M, t, 0) == Some(t);
  }

  // ----- taking -----

  /** No thread or mutex comes or goes; initial priorities and ceilings are nobody's to change. */
  ghost predicate SameObjects(T: Threads, M: Mutexes, T1: Threads, M1: Mutexes) {
    && T1.Keys == T.Keys && M1.Keys == M.Keys
    && (forall t :: t in T ==> T1[t].initPriority == T[t].initPriority)
    && (forall m :: m in M ==> M1[m].ceiling == M[m].ceiling)
  }

  datatype Status = Ok | Full | Timeout | Blocked | Failed | NullOwner

  /** Recursive take, free take, busy take. */
  function TakeStatus(m: Mutex, t: ThreadId, wait: bool): Status {
    if m.owner == Some(t) then if m.hold < HOLD_MAX then Ok else Full
    else if m.owner == None then Ok
    else if wait then Blocked else Timeout
  }

  lemma ValidBounded(T: Threads, M: Mutexes, stale: set<MutexId>, loose: set<ThreadId>)
    requires ValidBut(T, M, stale, loose)
    ensures Bounded(T)
  {
    forall t | t in T ensures T[t].currentPriority < PRIORITY_MAX {
      assert ThreadWired(T, M, t) && Settled(T, M, t, loose);
    }
  }

  lemma HoldValid(T: Threads, M: Mutexes, m: MutexId, n: nat, stale: set<MutexId>, loose: set<ThreadId>)
    requires ValidBut(T, M, stale, loose) && m in M && M[m].owner.Some? && 0 < n <= HOLD_MAX
    ensures ValidBut(T, M[m := M[m].(hold := n)], stale, loose)
  {
    var M1 := M[m := M[m].(hold := n)];
    forall k | k in M ensures MutexWired(T, M1, k) && QueueOrdered(T, M1, k, stale) {
      assert MutexWired(T, M, k) && QueueOrdered(T, M, k, stale);
    }
    forall u | u in T ensures ThreadWired(T, M1, u) && Settled(T, M1, u, loose) {
      assert ThreadWired(T, M, u) && Settled(T, M, u, loose);
      SettledFrame(T, M, T, M1, u, loose);
    }
  }

  lemma MinDemandCons(M: Mutexes, floor: nat, m: MutexId, ms: seq<MutexId>)
    ensures MinDemand(M, floor, [m] + ms) == Min(MinDemand(M, floor, ms), Demand(M, m))
  {
  }

  /** A thread with one more mutex, which it needs no urgency for beyond p. */
  function WithMutex(T: Threads, t: ThreadId, m: MutexId, p: nat): Threads
    requires t in T
  {
    T[t := T[t].(taken := [m] + T[t].taken, currentPriority := p)]
  }

  function Owned(M: Mutexes, m: MutexId, t: ThreadId): Mutexes
    requires m in M
  {
    M[m := M[m].(owner := Some(t), hold := 1, priority := LOWEST)]
  }

  lemma TakenWired(T: Threads, M: Mutexes, t: ThreadId, m: MutexId, p: nat)
    requires Wired(T, M) && t in T && m in M && M[m].owner == None
    ensures Wired(WithMutex(T, t, m, p), Owned(M, m, t))
  {
    var T1, M1 := WithMutex(T, t, m, p), Owned(M, m, t);
    forall u | u in T ensures ThreadWired(T1, M1, u) {
      assert ThreadWired(T, M, u);
    }
    forall k | k in M ensures MutexWired(T1, M1, k) {
      assert MutexWired(T, M, k);
    }
  }

  lemma TakenQueued(T: Threads, M: Mutexes, t: ThreadId, m: MutexId, p: nat, stale: set<MutexId>)
    requires Wired(T, M) && Queued(T, M, stale) && t in T && m in M && M[m].owner == None && !T[t].suspended
    ensures Queued(WithMutex(T, t, m, p), Owned(M, m, t), stale)
  {
    var T1, M1 := WithMutex(T, t, m, p), Owned(M, m, t);
    forall k | k in M ensures QueueOrdered(T1, M1, k, stale) {
      assert MutexWired(T, M, k) && QueueOrdered(T, M, k, stale);
      SortedFrame(T, T1, M[k].waiters);
    }
  }

  lemma TakenValid(T: Threads, M: Mutexes, t: ThreadId, m: MutexId, stale: set<MutexId>, loose: set<ThreadId>)
    requires ValidBut(T, M, stale, loose) && t in T && m in M && M[m].owner == None && !T[t].suspended
    ensures ValidBut(WithMutex(T, t, m, Min(T[t].currentPriority, M[m].ceiling)), Owned(M, m, t), stale, loose)
  {
    var p := Min(T[t].currentPriority, M[m].ceiling);
    var T1, M1 := WithMutex(T, t, m, p), Owned(M, m, t);
    TakenWired(T, M, t, m, p);
    TakenQueued(T, M, t, m, p, stale);
    forall u | u in T ensures Settled(T1, M1, u, loose) {
      assert ThreadWired(T, M, u) && MutexWired(T, M, m) && Settled(T, M, u, loose);
      if u == t {
        MinDemandFrame(M, M1, T[t].initPriority, T[t].taken);
        MinDemandCons(M1, T[t].initPriority, m, T[t].taken);
      } else {
        SettledFrame(T, M, T1, M1, u, loose);
      }
    }
  }

  function WithWait(T: Threads, t: ThreadId, m: MutexId): Threads
    requires t in T
  {
    T[t := T[t].(suspended := true, pending := Some(m))]
  }

  function WithWaiter(T: Threads, M: Mutexes, t: ThreadId, m: MutexId): Mutexes
    requires m in M
  {
    M[m := M[m].(waiters := Enqueued(T, M[m].waiters, t), priority := Min(M[m].priority, Prio(T, t)))]
  }

  lemma WaiterWired(T: Threads, M: Mutexes, t: ThreadId, m: MutexId)
    requires Wired(T, M) && t in T && m in M && M[m].owner.Some? && M[m].owner != Some(t) && !T[t].suspended
    ensures Wired(WithWait(T, t, m), WithWaiter(T, M, t, m))
  {
    var T1, M1 := WithWait(T, t, m), WithWaiter(T, M, t, m);
    NotQueued(T, M, t);
    forall u | u in T ensures ThreadWired(T1, M1, u) {
      assert ThreadWired(T, M, u);
    }
    forall k | k in M ensures MutexWired(T1, M1, k) {
      assert MutexWired(T, M, k);
      if k == m {
        EnqueuedDistinct(T, M[m].waiters, t);
      }
    }
  }

  lemma WaiterQueued(T: Threads, M: Mutexes, t: ThreadId, m: MutexId, stale: set<MutexId>)
    requires Queued(T, M, stale) && t in T && m in M && Prio(T, t) <= LOWEST
    ensures Queued(WithWait(T, t, m), WithWaiter(T, M, t, m), stale)
  {
    var T1, M1 := WithWait(T, t, m), WithWaiter(T, M, t, m);
    forall k | k in M ensures QueueOrdered(T1, M1, k, stale) {
      assert QueueOrdered(T, M, k, stale);
      if k == m {
        EnqueuedSorted(T, M[m].waiters, t);
      }
      SortedFrame(T, T1, M1[k].waiters);
    }
  }

  lemma MinDemandLowered(M: Mutexes, m: MutexId, p: nat, floor: nat, ms: seq<MutexId>)
    requires m in M && m in ms && p <= M[m].priority
    ensures var q := MinDemand(M, floor, ms);
      MinDemand(M[m := M[m].(priority := p)], floor, ms) == if p < q then p else q
  {
  }

  /** A thread that starts to wait leaves at most the owner of the mutex behind its due. */
  lemma WaiterDue(T: Threads, M: Mutexes, t: ThreadId, m: MutexId, o: ThreadId, stale: set<MutexId>,
                  loose: set<ThreadId>)
    requires ValidBut(T, M, stale, loose) && t in T && m in M && M[m].owner == Some(o) && o != t && !T[t].suspended
    ensures var T1, M1 := WithWait(T, t, m), WithWaiter(T, M, t, m);
      && o in T
      && if T[t].currentPriority < T[o].currentPriority then Due(T1, M1, o, T[t].currentPriority, stale, loose)
         else ValidBut(T1, M1, stale, loose)
  {
    var T1, M1 := WithWait(T, t, m), WithWaiter(T, M, t, m);
    ValidBounded(T, M, stale, loose);
    WaiterWired(T, M, t, m);
    WaiterQueued(T, M, t, m, stale);
    assert MutexWired(T, M, m) && Settled(T, M, o, loose);
    WaiterDemand(T, M, t, m, o);
    forall u | u in T && (u != o || T[t].currentPriority >= T[o].currentPriority) ensures Settled(T1, M1, u, loose) {
      if u != o {
        assert ThreadWired(T, M, u) && Settled(T, M, u, loose);
        SettledFrame(T, M, T1, M1, u, loose);
      }
    }
  }

  lemma RearrangedObjects(T: Threads, M: Mutexes, t: ThreadId, m: MutexId, T1: Threads, M1: Mutexes)
    requires t in T && m in M && SameShape(WithWait(T, t, m), WithWaiter(T, M, t, m), T1, M1)
    ensures SameObjects(T, M, T1, M1)
  {
  }

  /** An owner is never less urgent than the head of a queue it is responsible for. */
  lemma NoUrgency(T: Threads, M: Mutexes, m: MutexId, o: ThreadId)
    requires o in T && m in T[o].taken && m in M && T[o].currentPriority <= Required(T, M, o)
    ensures T[o].currentPriority <= M[m].priority
  {
    assert Required(T, M, o) <= Demand(M, m);
  }

  lemma WaiterDemand(T: Threads, M: Mutexes, t: ThreadId, m: MutexId, o: ThreadId)
    requires o in T && t in T && m in T[o].taken && m in M && o != t
    ensures Required(WithWait(T, t, m), WithWaiter(T, M, t, m), o) == Min(T[t].currentPriority, Required(T, M, o))
  {
    var p := Min(M[m].priority, Prio(T, t));
    assert Required(T, M, o) <= Demand(M, m);
    MinDemandLowered(M, m, p, T[o].initPriority, T[o].taken);
    MinDemandFrame(M[m := M[m].(priority := p)], WithWaiter(T, M, t, m), T[o].initPriority, T[o].taken);
  }

  // ----- leaving a wait list -----

  /** A thread that waits for nothing any more. A wait that has failed still has to be ended: then `failing`
      is its mutex. The pending object stays behind in memory, but only that of a suspended thread is read. */
  function WithoutWait(T: Threads, t: ThreadId, failing: Option<MutexId>): Threads
    requires t in T
  {
    T[t := T[t].(suspended := false, pending := None, failing := failing)]
  }

  function Unlinked(M: Mutexes, t: ThreadId, m: MutexId): Mutexes
    requires m in M
  {
    M[m := M[m].(waiters := Without(M[m].waiters, t))]
  }

  function Refreshed(T: Threads, M: Mutexes, m: MutexId): Mutexes
    requires m in M
  {
    M[m := M[m].(priority := HeadPriority(T, M[m].waiters))]
  }

  function WithoutWaiter(T: Threads, M: Mutexes, t: ThreadId, m: MutexId): Mutexes
    requires m in M
  {
    Refreshed(T, Unlinked(M, t, m), m)
  }

  lemma LeftWired(T: Threads, M: Mutexes, t: ThreadId, m: MutexId, failing: Option<MutexId>)
    requires Wired(T, M) && t in T && T[t].pending == Some(m) && m in M
    ensures Wired(WithoutWait(T, t, failing), Unlinked(M, t, m))
  {
    var T1, M1 := WithoutWait(T, t, failing), Unlinked(M, t, m);
    WaitingFacts(T, M, t);
    WithoutDistinct(M[m].waiters, t);
    forall u | u in T ensures ThreadWired(T1, M1, u) {
      assert ThreadWired(T, M, u);
    }
    forall k | k in M ensures MutexWired(T1, M1, k) {
      assert MutexWired(T, M, k);
      assert M1[k].waiters != [] ==> M1[k].waiters[0] in M[k].waiters;
    }
  }

  lemma LeftQueued(T: Threads, M: Mutexes, t: ThreadId, m: MutexId, failing: Option<MutexId>, stale: set<MutexId>)
    requires Queued(T, M, stale) && t in T && m in M && t in M[m].waiters && Prio(T, t) <= LOWEST
    ensures Queued(WithoutWait(T, t, failing), Unlinked(M, t, m), stale + {m})
  {
    var T1, M1 := WithoutWait(T, t, failing), Unlinked(M, t, m);
    forall k | k in M ensures QueueOrdered(T1, M1, k, stale + {m}) {
      assert QueueOrdered(T, M, k, stale);
      if k == m {
        WithoutSorted(T, M[m].waiters, t);
        HeadWithout(T, M[m].waiters, t);
      }
      SortedFrame(T, T1, M1[k].waiters);
    }
  }

  /** A waiter that is only unlinked leaves a stale mutex behind and everybody settled. */
  lemma LeftValid(T: Threads, M: Mutexes, t: ThreadId, m: MutexId, failing: Option<MutexId>,
                  stale: set<MutexId>, loose: set<ThreadId>)
    requires ValidBut(T, M, stale, loose) && t in T && T[t].pending == Some(m) && m in M
    ensures ValidBut(WithoutWait(T, t, failing), Unlinked(M, t, m), stale + {m}, loose)
  {
    var T1, M1 := WithoutWait(T, t, failing), Unlinked(M, t, m);
    WaitingFacts(T, M, t);
    ValidBounded(T, M, stale, loose);
    LeftWired(T, M, t, m, failing);
    LeftQueued(T, M, t, m, failing, stale);
    forall u | u in T ensures Settled(T1, M1, u, loose) {
      assert ThreadWired(T, M, u) && Settled(T, M, u, loose);
      SettledFrame(T, M, T1, M1, u, loose);
    }
  }

  /** Something other than the waiter that left still asks its owner o for the priority it has: its initial
      priority, another mutex it holds, the ceiling of m or the first remaining waiter. */
  ghost predicate StillAsked(T: Threads, M: Mutexes, m: MutexId, o: ThreadId)
    requires m in M && o in T
  {
    || T[o].currentPriority == T[o].initPriority
    || (exists k :: k in T[o].taken && k != m && T[o].currentPriority == Demand(M, k))
    || T[o].currentPriority == M[m].ceiling
    || T[o].currentPriority == HeadPriority(T, M[m].waiters)
  }

  /** The end of a take of m by t that failed finds the owner exact or makes it so. */
  ghost predicate Restores(T: Threads, M: Mutexes, t: ThreadId, m: MutexId) {
    && t in T && m in M && M[m].owner.Some? && M[m].owner.value in T
    && (T[M[m].owner.value].currentPriority == T[t].currentPriority || StillAsked(T, M, m, M[m].owner.value))
  }

  /** What m asks of its owner when its stale priority is corrected. */
  lemma RefreshedDemand(T: Threads, M: Mutexes, m: MutexId, o: ThreadId)
    requires m in M && o in T && m in T[o].taken && T[o].currentPriority <= Required(T, M, o)
    requires M[m].priority <= HeadPriority(T, M[m].waiters)
    ensures T[o].currentPriority <= Required(T, Refreshed(T, M, m), o)
    ensures Exact(T, Refreshed(T, M, m), o) <==> StillAsked(T, M, m, o)
  {
    var M1 := Refreshed(T, M, m);
    MinDemandMonotone(M1, M, T[o].initPriority, T[o].taken);
    var q := Required(T, M1, o);
    assert q <= Demand(M1, m);
    assert forall k :: k in T[o].taken && k != m ==> Demand(M1, k) == Demand(M, k);
    if StillAsked(T, M, m, o) {
      assert q <= T[o].currentPriority;
    } else {
      assert T[o].currentPriority != Demand(M1, m);
    }
  }

  lemma RefreshedValid(T: Threads, M: Mutexes, m: MutexId, o: ThreadId, stale: set<MutexId>, loose: set<ThreadId>)
    requires ValidBut(T, M, stale, loose) && m in M && M[m].owner == Some(o)
    ensures var M1 := Refreshed(T, M, m);
      && o in T && m in T[o].taken && (forall k :: k in T[o].taken ==> k in M)
      && ValidBut(T, M1, stale - {m}, loose + {o}) && SettledBut(T, M1, o, loose)
      && T[o].currentPriority <= Required(T, M1, o) && (Exact(T, M1, o) <==> StillAsked(T, M, m, o))
  {
    var M1 := Refreshed(T, M, m);
    assert MutexWired(T, M, m) && Settled(T, M, o, loose) && ThreadWired(T, M, o);
    assert QueueOrdered(T, M, m, stale);
    RefreshedDemand(T, M, m, o);
    forall k | k in M ensures MutexWired(T, M1, k) && QueueOrdered(T, M1, k, stale - {m}) {
      assert MutexWired(T, M, k) && QueueOrdered(T, M, k, stale);
    }
    forall u | u in T ensures ThreadWired(T, M1, u) && Settled(T, M1, u, if u == o then loose + {o} else loose) {
      assert ThreadWired(T, M, u) && Settled(T, M, u, loose);
      if u != o {
        SettledFrame(T, M, T, M1, u, loose);
      }
    }
    forall u | u in T ensures Settled(T, M1, u, loose + {o}) {
      assert Settled(T, M1, u, if u == o then loose + {o} else loose);
    }
  }

  /** The head of a queue is no more urgent without t, and the same when the head was more urgent than t. */
  lemma HeadWithout(T: Threads, ws: seq<ThreadId>, t: ThreadId)
    requires Sorted(T, ws) && t in ws && Prio(T, t) <= LOWEST
    ensures HeadPriority(T, Without(ws, t)) >= HeadPriority(T, ws)
    ensures HeadPriority(T, ws) < Prio(T, t) ==> HeadPriority(T, Without(ws, t)) == HeadPriority(T, ws)
  {
    if ws[0] == t && |ws| > 1 {
      assert Prio(T, ws[0]) <= Prio(T, ws[1]);
    }
    var i :| 0 <= i < |ws| && ws[i] == t;
    assert i > 0 ==> Prio(T, ws[0]) <= Prio(T, ws[i]);
  }

  /** The shortcut of the drop path: a more urgent owner owes its priority to something else. */
  lemma LeftDemand(T: Threads, M: Mutexes, t: ThreadId, m: MutexId, o: ThreadId)
    requires o in T && t in T && m in M && m in T[o].taken && t in M[m].waiters && Exact(T, M, o)
    requires QueueOrdered(T, M, m, {}) && T[t].currentPriority <= LOWEST
    ensures var q := MinDemand(WithoutWaiter(T, M, t, m), T[o].initPriority, T[o].taken);
      q >= T[o].currentPriority && (T[o].currentPriority < T[t].currentPriority ==> q == T[o].currentPriority)
  {
    var M1 := WithoutWaiter(T, M, t, m);
    HeadWithout(T, M[m].waiters, t);
    MinDemandMonotone(M1, M, T[o].initPriority, T[o].taken);
    if T[o].currentPriority < T[t].currentPriority && T[o].currentPriority < T[o].initPriority {
      var k :| k in T[o].taken && T[o].currentPriority == Demand(M, k);
      assert Demand(M1, k) == Demand(M, k);
    }
  }

  /** A more urgent owner is still asked for its priority when t has left. */
  lemma LeaverAsked(T: Threads, M: Mutexes, t: ThreadId, m: MutexId, o: ThreadId, failing: Option<MutexId>)
    requires o in T && t in T && o != t && m in M && m in T[o].taken && t in M[m].waiters && Exact(T, M, o)
    requires QueueOrdered(T, M, m, {}) && T[o].currentPriority < T[t].currentPriority <= LOWEST
    ensures StillAsked(WithoutWait(T, t, failing), Unlinked(M, t, m), m, o)
  {
    var T1, M1 := WithoutWait(T, t, failing), Unlinked(M, t, m);
    LeftDemand(T, M, t, m, o);
    HeadWithout(T, M[m].waiters, t);
    MinDemandFrame(M, M1, T[o].initPriority, T[o].taken);
    assert HeadPriority(T1, M1[m].waiters) == HeadPriority(T, M1[m].waiters);
    RefreshedDemand(T1, M1, m, o);
  }

  /** When nothing happens between the unlinking of a waiter and the end of its take, the owner becomes exact. */
  lemma LeaverRestores(T: Threads, M: Mutexes, t: ThreadId, m: MutexId, failing: Option<MutexId>)
    requires Valid(T, M) && t in T && T[t].pending == Some(m) && m in M
    ensures Restores(WithoutWait(T, t, failing), Unlinked(M, t, m), t, m)
  {
    WaitingFacts(T, M, t);
    ValidBounded(T, M, {}, {});
    var o := M[m].owner.value;
    assert QueueOrdered(T, M, m, {}) && Settled(T, M, o, {});
    if T[o].currentPriority != T[t].currentPriority {
      NoUrgency(T, M, m, o);
      HeadAtMost(T, M[m].waiters, t);
      LeaverAsked(T, M, t, m, o, failing);
    }
  }

  lemma HeadAtMost(T: Threads, ws: seq<ThreadId>, t: ThreadId)
    requires Sorted(T, ws) && t in ws
    ensures HeadPriority(T, ws) <= Prio(T, t)
  {
    var i :| 0 <= i < |ws| && ws[i] == t;
    assert i > 0 ==> Prio(T, ws[0]) <= Prio(T, ws[i]);
  }

  // ----- releasing -----

  /** A release by t that hands m over leaves every priority exact just when m's ceiling does not
      outrank the new owner; every other release does in any case. */
  ghost predicate HandOverExact(T: Threads, M: Mutexes, t: ThreadId, m: MutexId)
    requires m in M
  {
    M[m].owner == Some(t) && M[m].hold == 1 && M[m].waiters != [] ==> M[m].ceiling >= Prio(T, M[m].waiters[0])
  }

  /** What the releasing thread runs at: what its other mutexes ask for, or, by the shortcut, what it had. */
  function PriorityWithout(T: Threads, M: Mutexes, t: ThreadId, m: MutexId): nat
    requires t in T && m in M
  {
    if M[m].ceiling != LOWEST || T[t].currentPriority == M[m].priority
    then MinDemand(M, T[t].initPriority, Without(T[t].taken, m)) else T[t].currentPriority
  }

  function Dropped(T: Threads, M: Mutexes, t: ThreadId, m: MutexId): Threads
    requires t in T && m in M
  {
    T[t := T[t].(taken := Without(T[t].taken, m), currentPriority := PriorityWithout(T, M, t, m))]
  }

  function Freed(M: Mutexes, m: MutexId): Mutexes
    requires m in M
  {
    M[m := M[m].(owner := None, hold := 0, priority := LOWEST)]
  }

  function Woken(T: Threads, n: ThreadId, m: MutexId): Threads
    requires n in T
  {
    T[n := T[n].(taken := [m] + T[n].taken, pending := None, suspended := false)]
  }

  function HandedOver(T: Threads, M: Mutexes, m: MutexId): Mutexes
    requires m in M && M[m].waiters != []
  {
    var rest := M[m].waiters[1..];
    M[m := M[m].(owner := Some(M[m].waiters[0]), hold := 1, waiters := rest, priority := HeadPriority(T, rest))]
  }

  /** The shortcut of the release path: if neither the queue nor a ceiling of m set the owner's
      priority, then it stays right without m. */
  lemma PriorityWithoutIs(T: Threads, M: Mutexes, t: ThreadId, m: MutexId)
    requires t in T && m in M && m in T[t].taken && Distinct(T[t].taken)
    requires T[t].currentPriority <= Required(T, M, t) && M[m].priority <= LOWEST
    ensures var q := MinDemand(M, T[t].initPriority, Without(T[t].taken, m));
      PriorityWithout(T, M, t, m) <= q && (Exact(T, M, t) ==> PriorityWithout(T, M, t, m) == q)
  {
    WithoutDistinct(T[t].taken, m);
    var q := MinDemand(M, T[t].initPriority, Without(T[t].taken, m));
    assert q >= Required(T, M, t);
  }

  lemma FreedWired(T: Threads, M: Mutexes, t: ThreadId, m: MutexId)
    requires Wired(T, M) && t in T && m in M && M[m].owner == Some(t) && M[m].waiters == []
    ensures Wired(Dropped(T, M, t, m), Freed(M, m))
  {
    var T1, M1 := Dropped(T, M, t, m), Freed(M, m);
    assert ThreadWired(T, M, t);
    WithoutDistinct(T[t].taken, m);
    forall u | u in T ensures ThreadWired(T1, M1, u) {
      assert ThreadWired(T, M, u);
    }
    forall k | k in M ensures MutexWired(T1, M1, k) {
      assert MutexWired(T, M, k);
    }
  }

  lemma DroppedQueued(T: Threads, M: Mutexes, t: ThreadId, m: MutexId, stale: set<MutexId>)
    requires Wired(T, M) && Queued(T, M, stale) && t in T && m in M && !T[t].suspended
    ensures Queued(Dropped(T, M, t, m), M, stale)
  {
    var T1 := Dropped(T, M, t, m);
    NotQueued(T, M, t);
    forall k | k in M ensures QueueOrdered(T1, M, k, stale) {
      assert QueueOrdered(T, M, k, stale);
      SortedFrame(T, T1, M[k].waiters);
    }
  }

  /** Without m everybody stays settled, t included. */
  lemma DroppedSettled(T: Threads, M: Mutexes, M1: Mutexes, t: ThreadId, m: MutexId, u: ThreadId, loose: set<ThreadId>)
    requires Wired(T, M) && t in T && m in M && M[m].owner == Some(t) && u in T && Settled(T, M, u, loose)
    requires M[m].priority <= LOWEST && forall k :: k != m ==> Demand(M1, k) == Demand(M, k)
    ensures Settled(Dropped(T, M, t, m), M1, u, loose)
  {
    var T1 := Dropped(T, M, t, m);
    assert ThreadWired(T, M, t) && ThreadWired(T, M, u) && MutexWired(T, M, m);
    WithoutDistinct(T[t].taken, m);
    if u == t {
      PriorityWithoutIs(T, M, t, m);
      MinDemandFrame(M, M1, T[t].initPriority, T1[t].taken);
    } else {
      SettledFrame(T, M, T1, M1, u, loose);
    }
  }

  lemma CachedAtMostLowest(T: Threads, M: Mutexes, m: MutexId, stale: set<MutexId>, loose: set<ThreadId>)
    requires ValidBut(T, M, stale, loose) && m in M
    ensures M[m].priority <= LOWEST && HeadPriority(T, M[m].waiters) <= LOWEST
  {
    ValidBounded(T, M, stale, loose);
    assert QueueOrdered(T, M, m, stale);
  }

  lemma FreedValid(T: Threads, M: Mutexes, t: ThreadId, m: MutexId, stale: set<MutexId>, loose: set<ThreadId>)
    requires ValidBut(T, M, stale, loose) && t in T && m in M && M[m].owner == Some(t)
    requires M[m].waiters == [] && !T[t].suspended
    ensures ValidBut(Dropped(T, M, t, m), Freed(M, m), stale, loose)
  {
    var T1, M1 := Dropped(T, M, t, m), Freed(M, m);
    FreedWired(T, M, t, m);
    DroppedQueued(T, M, t, m, stale);
    CachedAtMostLowest(T, M, m, stale, loose);
    forall k | k in M ensures QueueOrdered(T1, M1, k, stale) {
      assert QueueOrdered(T1, M, k, stale);
    }
    forall u | u in T ensures Settled(T1, M1, u, loose) {
      assert Settled(T, M, u, loose);
      DroppedSettled(T, M, M1, t, m, u, loose);
    }
  }

  lemma HandedWired(T: Threads, M: Mutexes, t: ThreadId, m: MutexId)
    requires Wired(T, M) && t in T && m in M && M[m].owner == Some(t) && M[m].waiters != []
    ensures M[m].waiters[0] in T && M[m].waiters[0] != t
    ensures var T1 := Dropped(T, M, t, m); Wired(Woken(T1, M[m].waiters[0], m), HandedOver(T1, M, m))
  {
    var n := M[m].waiters[0];
    assert ThreadWired(T, M, t) && MutexWired(T, M, m) && n in M[m].waiters;
    var T1 := Dropped(T, M, t, m);
    var T2, M2 := Woken(T1, n, m), HandedOver(T1, M, m);
    forall u | u in T ensures ThreadWired(T2, M2, u) {
      HandedThread(T, M, t, m, u);
    }
    forall k | k in M ensures MutexWired(T2, M2, k) {
      HandedMutex(T, M, t, m, k);
    }
  }

  lemma HandedThread(T: Threads, M: Mutexes, t: ThreadId, m: MutexId, u: ThreadId)
    requires Wired(T, M) && t in T && m in M && M[m].owner == Some(t) && M[m].waiters != [] && u in T
    requires M[m].waiters[0] in T && M[m].waiters[0] != t
    ensures var T1 := Dropped(T, M, t, m); ThreadWired(Woken(T1, M[m].waiters[0], m), HandedOver(T1, M, m), u)
  {
    var n := M[m].waiters[0];
    assert ThreadWired(T, M, u) && MutexWired(T, M, m);
    DistinctTail(M[m].waiters);
    if u == n {
      assert Distinct([m] + T[n].taken);
    } else if u == t {
      WithoutDistinct(T[t].taken, m);
    }
  }

  lemma HandedMutex(T: Threads, M: Mutexes, t: ThreadId, m: MutexId, k: MutexId)
    requires Wired(T, M) && t in T && m in M && M[m].owner == Some(t) && M[m].waiters != [] && k in M
    requires M[m].waiters[0] in T && M[m].waiters[0] != t
    ensures var T1 := Dropped(T, M, t, m); MutexWired(Woken(T1, M[m].waiters[0], m), HandedOver(T1, M, m), k)
  {
    assert MutexWired(T, M, k) && MutexWired(T, M, m) && M[m].waiters[0] in M[m].waiters;
    DistinctTail(M[m].waiters);
  }

  lemma OwnerFacts(T: Threads, M: Mutexes, t: ThreadId, m: MutexId)
    requires Wired(T, M) && t in T && m in M && M[m].owner == Some(t)
    ensures m in T[t].taken && (forall k :: k in T[t].taken ==> k in M)
    ensures forall w :: w in M[m].waiters ==> w in T && w != t
  {
    assert MutexWired(T, M, m) && ThreadWired(T, M, t);
  }

  lemma HandedQueued(T: Threads, M: Mutexes, m: MutexId, stale: set<MutexId>)
    requires Queued(T, M, stale) && m in M && M[m].waiters != [] && M[m].waiters[0] in T
    ensures Queued(Woken(T, M[m].waiters[0], m), HandedOver(T, M, m), stale)
  {
    var T1, M1 := Woken(T, M[m].waiters[0], m), HandedOver(T, M, m);
    forall k | k in M ensures QueueOrdered(T1, M1, k, stale) {
      assert QueueOrdered(T, M, k, stale);
      SortedFrame(T, T1, M1[k].waiters);
    }
  }

  /** The new owner is settled exactly when the ceiling of the mutex is not above its priority:
      the hand-over does not apply the ceiling. Everybody else is settled in any case. */
  lemma HandedSettled(T: Threads, M: Mutexes, t: ThreadId, m: MutexId, u: ThreadId, stale: set<MutexId>,
                      loose: set<ThreadId>)
    requires ValidBut(T, M, stale, loose) && t in T && m in M && M[m].owner == Some(t) && M[m].waiters != [] && u in T
    ensures M[m].waiters[0] in T && M[m].waiters[0] != t
    ensures var n := M[m].waiters[0]; var T1 := Dropped(T, M, t, m);
      Settled(Woken(T1, n, m), HandedOver(T1, M, m), u, loose) <==> (u == n ==> M[m].ceiling >= T[n].currentPriority)
  {
    var n := M[m].waiters[0];
    HandedWired(T, M, t, m);
    assert MutexWired(T, M, m) && ThreadWired(T, M, u) && QueueOrdered(T, M, m, stale) && Settled(T, M, u, loose);
    var T1 := Dropped(T, M, t, m);
    var T2, M2 := Woken(T1, n, m), HandedOver(T1, M, m);
    CachedAtMostLowest(T, M, m, stale, loose);
    DroppedSettled(T, M, M2, t, m, u, loose);
    if u == n {
      MinDemandCons(M2, T[n].initPriority, m, T[n].taken);
      SortedTail(T, T1, M[m].waiters);
    }
  }

  /** Handing a mutex over keeps the invariant if and only if the ceiling does not outrank the new owner. */
  lemma HandedValid(T: Threads, M: Mutexes, t: ThreadId, m: MutexId, stale: set<MutexId>, loose: set<ThreadId>)
    requires ValidBut(T, M, stale, loose) && t in T && m in M && M[m].owner == Some(t)
    requires M[m].waiters != [] && !T[t].suspended
    ensures M[m].waiters[0] in T && M[m].waiters[0] != t
    ensures var n := M[m].waiters[0];
      var T1 := Dropped(T, M, t, m);
      var T2, M2 := Woken(T1, n, m), HandedOver(T1, M, m);
      && Wired(T2, M2) && Queued(T2, M2, stale) && SettledBut(T2, M2, n, loose)
      && (ValidBut(T2, M2, stale, loose) <==> M[m].ceiling >= T[n].currentPriority)
  {
    HandedWired(T, M, t, m);
    DroppedQueued(T, M, t, m, stale);
    HandedQueued(Dropped(T, M, t, m), M, m, stale);
    var n := M[m].waiters[0];
    var T1 := Dropped(T, M, t, m);
    forall u | u in T
      ensures Settled(Woken(T1, n, m), HandedOver(T1, M, m), u, loose) <==>
        (u == n ==> M[m].ceiling >= T[n].currentPriority)
    {
      HandedSettled(T, M, t, m, u, stale, loose);
    }
  }

  lemma EndedThread(T: Threads, M: Mutexes, t: ThreadId, u: ThreadId)
    requires Wired(T, M) && t in T && u in T
    ensures ThreadWired(T[t := T[t].(failing := None)], M, u)
  {
    assert ThreadWired(T, M, u);
  }

  lemma EndedMutex(T: Threads, M: Mutexes, t: ThreadId, k: MutexId)
    requires Wired(T, M) && t in T && k in M
    ensures MutexWired(T[t := T[t].(failing := None)], M, k)
  {
    assert MutexWired(T, M, k);
  }

  lemma EndedWired(T: Threads, M: Mutexes, t: ThreadId)
    requires Wired(T, M) && t in T
    ensures Wired(T[t := T[t].(failing := None)], M)
  {
    forall u | u in T ensures ThreadWired(T[t := T[t].(failing := None)], M, u) {
      EndedThread(T, M, t, u);
    }
    forall k | k in M ensures MutexWired(T[t := T[t].(failing := None)], M, k) {
      EndedMutex(T, M, t, k);
    }
  }

  lemma EndedQueue(T: Threads, M: Mutexes, t: ThreadId, k: MutexId, stale: set<MutexId>)
    requires Queued(T, M, stale) && t in T && k in M
    ensures QueueOrdered(T[t := T[t].(failing := None)], M, k, stale)
  {
    assert QueueOrdered(T, M, k, stale);
    SortedFrame(T, T[t := T[t].(failing := None)], M[k].waiters);
  }

  /** Whether a thread is at the end of a failed take matters to nobody's priority. */
  lemma EndedValid(T: Threads, M: Mutexes, t: ThreadId, stale: set<MutexId>, loose: set<ThreadId>)
    requires ValidBut(T, M, stale, loose) && t in T
    ensures ValidBut(T[t := T[t].(failing := None)], M, stale, loose)
  {
    var T1 := T[t := T[t].(failing := None)];
    EndedWired(T, M, t);
    forall k | k in M ensures QueueOrdered(T1, M, k, stale) {
      EndedQueue(T, M, t, k, stale);
    }
    forall u | u in T ensures Settled(T1, M, u, loose) {
      assert Settled(T, M, u, loose);
    }
  }

  lemma SortedTail(T: Threads, T1: Threads, ws: seq<ThreadId>)
    requires ws != [] && Sorted(T, ws) && Prio(T, ws[0]) <= LOWEST
    requires forall w :: w in ws ==> Prio(T1, w) == Prio(T, w)
    ensures HeadPriority(T1, ws[1..]) >= Prio(T, ws[0])
  {
    if |ws| > 1 {
      assert ws[1] in ws;
    }
  }

  // ----- what a caller sees -----

  /** t runs and holds m so many times. */
  ghost predicate Holds(T: Threads, M: Mutexes, t: ThreadId, m: MutexId, n: int) {
    && t in T && m in M && !T[t].suspended && m in T[t].taken && M[m].owner == Some(t) && M[m].hold == n
  }

  ghost predicate Waits(T: Threads, M: Mutexes, t: ThreadId, m: MutexId) {
    t in T && m in M && T[t].suspended && T[t].pending == Some(m) && t in M[m].waiters
  }

  ghost predicate SameHolder(m: Mutex, was: Mutex) {
    m.owner == was.owner && m.hold == was.hold
  }

  /** What a release by t leaves of m, which was in M0: it is held once less, or nobody's, or the first waiter's, who
      runs again, waits for nothing and holds it once. Nothing happens to other mutexes and threads. */
  ghost predicate Released(T0: Threads, M0: Mutexes, t: ThreadId, m: MutexId, T: Threads, M: Mutexes) {
    && t in T && m in M0 && m in M && T.Keys == T0.Keys && M.Keys == M0.Keys
    && (forall k :: k in M0 && k != m ==> k in M && M[k] == M0[k])
    && (forall u :: u in T0 && u != t && (M0[m].waiters == [] || u != M0[m].waiters[0]) ==> u in T && T[u] == T0[u])
    && M[m].ceiling == M0[m].ceiling
    && var was := M0[m];
       if was.hold > 1 then T == T0 && M[m] == was.(hold := was.hold - 1)
       else if was.waiters == [] then m !in T[t].taken && M[m].owner == None && M[m].hold == 0 && M[m].waiters == []
       else
         var n := was.waiters[0];
         && m !in T[t].taken && Holds(T, M, n, m, 1) && T[n].pending == None && M[m].waiters == was.waiters[1..]
  }

  lemma FreedMeans(T: Threads, M: Mutexes, t: ThreadId, m: MutexId)
    requires Wired(T, M) && t in T && m in M && M[m].owner == Some(t) && M[m].hold == 1 && M[m].waiters == []
    ensures Released(T, M, t, m, Dropped(T, M, t, m), Freed(M, m))
  {
    assert ThreadWired(T, M, t);
    WithoutDistinct(T[t].taken, m);
  }

  lemma HandedMeans(T: Threads, M: Mutexes, t: ThreadId, m: MutexId)
    requires Wired(T, M) && t in T && m in M && M[m].owner == Some(t) && M[m].hold == 1 && M[m].waiters != []
    requires M[m].waiters[0] in T && M[m].waiters[0] != t
    ensures var T1 := Dropped(T, M, t, m);
      Released(T, M, t, m, Woken(T1, M[m].waiters[0], m), HandedOver(T1, M, m))
  {
    assert ThreadWired(T, M, t);
    WithoutDistinct(T[t].taken, m);
  }

  class Kernel {
    var threads: Threads
    var mutexes: Mutexes

    /** `_thread_get_mutex_priority` */
    method GetMutexPriority(t: ThreadId) returns (p: nat)
      requires t in threads && forall m :: m in threads[t].taken ==> m in mutexes
      ensures p == Required(threads, mutexes, t)
    {
      var ms := threads[t].taken;
      p := threads[t].initPriority;
      for n := 0 to |ms|
        invariant p == MinDemand(mutexes, threads[t].initPriority, ms[..n])
      {
        var m := mutexes[ms[n]];
        var demand := if m.priority < m.ceiling then m.priority else m.ceiling;
        assert ms[..n + 1][..n] == ms[..n];
        if p > demand {
          p := demand;
        }
      }
      assert ms[..|ms|] == ms;
    }

    /** `_ipc_list_suspend` in priority order: walk to the first less urgent waiter and link in front of it. */
    method Enqueue(m: MutexId, t: ThreadId)
      requires t in threads && m in mutexes && forall w :: w in mutexes[m].waiters ==> w in threads
      modifies this`mutexes
      ensures mutexes == old(mutexes)[m := old(mutexes)[m].(waiters := Enqueued(threads, old(mutexes)[m].waiters, t))]
      ensures Behind(threads, old(mutexes)[m].waiters, t, mutexes[m].waiters)
    {
      var ws := mutexes[m].waiters;
      var n := 0;
      while n < |ws| && threads[ws[n]].currentPriority <= threads[t].currentPriority
        invariant n <= |ws|
        invariant forall i :: 0 <= i < n ==> threads[ws[i]].currentPriority <= threads[t].currentPriority
      {
        n := n + 1;
      }
      PlaceIs(threads, ws, Prio(threads, t), n);
      mutexes := mutexes[m := mutexes[m].(waiters := ws[..n] + [t] + ws[n..])];
    }

    /** `_mutex_update_priority` */
    method RefreshPriority(m: MutexId)
      requires m in mutexes && forall w :: w in mutexes[m].waiters ==> w in threads
      modifies this`mutexes
      ensures mutexes == old(mutexes)[m := old(mutexes)[m].(priority := HeadPriority(threads, old(mutexes)[m].waiters))]
    {
      var ws := mutexes[m].waiters;
      var p := if ws != [] then threads[ws[0]].currentPriority else LOWEST;
      mutexes := mutexes[m := mutexes[m].(priority := p)];
    }

    /** Unlink a waiter and link it again where its priority now belongs. */
    method Relink(m: MutexId, t: ThreadId)
      requires t in threads && m in mutexes && forall w :: w in mutexes[m].waiters ==> w in threads
      modifies this`mutexes
      ensures mutexes == old(mutexes)[m := Relinked(threads, old(mutexes)[m], t)]
    {
      mutexes := mutexes[m := mutexes[m].(waiters := Without(mutexes[m].waiters, t))];
      Enqueue(m, t);
      RefreshPriority(m);
    }

    /** `_thread_update_priority`: set the priority of t, re-rank it where it waits, and go on with
        the owner of that mutex when its priority has to follow. Ends on every wait-for graph,
        deadlocked ones included. */
    method UpdatePriority(t: ThreadId, p: nat, ghost stale: set<MutexId>, ghost loose: set<ThreadId>)
      requires t in threads && p < PRIORITY_MAX
      requires threads[t].suspended ==> Due(threads, mutexes, t, p, stale, loose)
      modifies this
      ensures !old(threads)[t].suspended ==> threads == WithPriority(old(threads), t, p) && mutexes == old(mutexes)
      ensures old(Due(threads, mutexes, t, p, stale, loose)) ==>
        && ValidBut(threads, mutexes, stale, loose - {t})
        && Rearranged(old(threads), old(mutexes), threads, mutexes, t)
        && (stale == {} && loose <= {t} ==>
            Reranked(old(threads), old(mutexes), threads, mutexes, t, p < old(threads)[t].currentPriority))
      decreases if p < threads[t].currentPriority then 1 else 0, Headroom(threads, p < threads[t].currentPriority)
    {
      ghost var T, M := threads, mutexes;
      ghost var urgent := p < threads[t].currentPriority;
      threads := threads[t := threads[t].(currentPriority := p)];
      if threads[t].suspended && threads[t].pending.Some? {
        var m := threads[t].pending.value;
        WaitingFacts(T, M, t);
        var o := mutexes[m].owner.value;
        LinkDue(T, M, t, p, m, o, stale, loose);
        LinkDirection(T, M, t, p, m, o, stale, loose);
        assert QueueOrdered(T, M, m, stale) && ThreadWired(T, M, o);
        FirstLink(T, M, t, p, m);
        Relink(m, t);
        var q := GetMutexPriority(o);
        if q != threads[o].currentPriority {
          ghost var T1, M1 := threads, mutexes;
          HeadroomShrinks(T, t, p, urgent);
          UpdatePriority(o, q, stale, loose - {t});
          Weaken(threads, mutexes, stale, loose - {t} - {o}, stale, loose - {t});
          RestOfAnyChain(T, M, T1, M1, threads, mutexes, t, o);
          if stale == {} && loose <= {t} {
            DistinctQueues(T, M);
            RestOfChain(T, M, T1, M1, threads, mutexes, t, o, urgent);
          }
        }
      } else if Due(T, M, t, p, stale, loose) {
        NobodyDue(T, M, t, p, stale, loose);
      }
    }

    /** `_rt_mutex_take` up to the point where the caller returns or has to be scheduled away. */
    method Take(t: ThreadId, m: MutexId, wait: bool, ghost stale: set<MutexId> := {}, ghost loose: set<ThreadId> := {})
      returns (r: Status)
      requires ValidBut(threads, mutexes, stale, loose) && t in threads && m in mutexes && !threads[t].suspended
      modifies this
      ensures ValidBut(threads, mutexes, stale, loose)
      ensures r == TakeStatus(old(mutexes)[m], t, wait)
      ensures r == Full <==> old(mutexes)[m].owner == Some(t) && old(mutexes)[m].hold >= HOLD_MAX
      ensures r == Timeout <==> old(mutexes)[m].owner.Some? && old(mutexes)[m].owner != Some(t) && !wait
      ensures r == Blocked <==> old(mutexes)[m].owner.Some? && old(mutexes)[m].owner != Some(t) && wait
      ensures r == Ok <==> r != Full && r != Timeout && r != Blocked
      ensures r == Ok ==> Holds(threads, mutexes, t, m, old(mutexes)[m].hold + 1)
      ensures r == Blocked ==> Waits(threads, mutexes, t, m) && m in mutexes && SameHolder(mutexes[m], old(mutexes)[m])
      ensures r == Full || r == Timeout ==> threads == old(threads) && mutexes == old(mutexes)
      ensures SameObjects(old(threads), old(mutexes), threads, mutexes)
      ensures r == Ok && old(mutexes)[m].owner == Some(t) ==>
        threads == old(threads) && mutexes == old(mutexes)[m := old(mutexes)[m].(hold := old(mutexes)[m].hold + 1)]
      ensures r == Ok && old(mutexes)[m].owner == None ==>
        && threads == WithMutex(old(threads), t, m, Min(old(threads)[t].currentPriority, old(mutexes)[m].ceiling))
        && mutexes == Owned(old(mutexes), m, t)
      ensures r == Blocked ==>
        var T1, M1 := WithWait(old(threads), t, m), WithWaiter(old(threads), old(mutexes), t, m);
        && Rearranged(T1, M1, threads, mutexes, old(mutexes)[m].owner.value)
        && (stale == {} && loose == {} ==> Reranked(T1, M1, threads, mutexes, old(mutexes)[m].owner.value, true))
    {
      ghost var T, M := threads, mutexes;
      assert MutexWired(T, M, m);
      if mutexes[m].owner == Some(t) {
        if mutexes[m].hold < HOLD_MAX {
          mutexes := mutexes[m := mutexes[m].(hold := mutexes[m].hold + 1)];
          HoldValid(T, M, m, mutexes[m].hold, stale, loose);
          return Ok;
        }
        return Full;
      }
      if mutexes[m].owner == None {
        mutexes := mutexes[m := mutexes[m].(owner := Some(t), priority := LOWEST, hold := 1)];
        ValidBounded(T, M, stale, loose);
        if mutexes[m].ceiling != LOWEST && mutexes[m].ceiling < threads[t].currentPriority {
          UpdatePriority(t, mutexes[m].ceiling, stale, loose);
        }
        threads := threads[t := threads[t].(taken := [m] + threads[t].taken)];
        assert threads == WithMutex(T, t, m, Min(T[t].currentPriority, M[m].ceiling));
        assert mutexes == Owned(M, m, t);
        TakenValid(T, M, t, m, stale, loose);
        return Ok;
      }
      if !wait {
        return Timeout;
      }
      r := WaitFor(t, m, stale, loose);
      RearrangedObjects(T, M, t, m, threads, mutexes);
    }

    /** The waiting branch of `_rt_mutex_take`. */
    method WaitFor(t: ThreadId, m: MutexId, ghost stale: set<MutexId>, ghost loose: set<ThreadId>) returns (r: Status)
      requires ValidBut(threads, mutexes, stale, loose) && t in threads && m in mutexes && !threads[t].suspended
      requires mutexes[m].owner.Some? && mutexes[m].owner != Some(t)
      modifies this
      ensures ValidBut(threads, mutexes, stale, loose) && r == Blocked
      ensures var T1, M1 := WithWait(old(threads), t, m), WithWaiter(old(threads), old(mutexes), t, m);
        && Rearranged(T1, M1, threads, mutexes, old(mutexes)[m].owner.value)
        && (stale == {} && loose == {} ==> Reranked(T1, M1, threads, mutexes, old(mutexes)[m].owner.value, true))
    {
      ghost var T, M := threads, mutexes;
      var o := mutexes[m].owner.value;
      assert MutexWired(T, M, m) && Settled(T, M, o, loose);
      WaiterDue(T, M, t, m, o, stale, loose);
      NoUrgency(T, M, m, o);
      var p := threads[t].currentPriority;
      var raised := Suspend(t, m);
      if raised {
        if mutexes[m].priority < threads[o].currentPriority {
          UpdatePriority(o, p, stale, loose);
          Weaken(threads, mutexes, stale, loose - {o}, stale, loose);
        }
      }
      r := Blocked;
    }

    /** Puts t on the wait list of m; tells whether that makes m more urgent. */
    method Suspend(t: ThreadId, m: MutexId) returns (raised: bool)
      requires t in threads && m in mutexes && forall w :: w in mutexes[m].waiters ==> w in threads
      modifies this
      ensures threads == WithWait(old(threads), t, m) && mutexes == WithWaiter(old(threads), old(mutexes), t, m)
      ensures raised <==> old(threads)[t].currentPriority < old(mutexes)[m].priority
    {
      ghost var T, M := threads, mutexes;
      var p := threads[t].currentPriority;
      Enqueue(m, t);
      threads := threads[t := threads[t].(suspended := true, pending := Some(m))];
      raised := p < mutexes[m].priority;
      if raised {
        Overwrite(M, m, mutexes[m], mutexes[m].(priority := p));
        mutexes := mutexes[m := mutexes[m].(priority := p)];
      }
    }

    /** `rt_mutex_release` */
    method Release(t: ThreadId, m: MutexId, ghost stale: set<MutexId> := {}, ghost loose: set<ThreadId> := {})
      returns (r: Status)
      requires ValidBut(threads, mutexes, stale, loose) && t in threads && m in mutexes && !threads[t].suspended
      modifies this
      ensures r == if old(mutexes)[m].owner == Some(t) then Ok else Failed
      ensures SameObjects(old(threads), old(mutexes), threads, mutexes)
      ensures r == Failed ==> threads == old(threads) && mutexes == old(mutexes)
      ensures r == Ok && old(mutexes)[m].hold > 1 ==>
        threads == old(threads) && mutexes == old(mutexes)[m := old(mutexes)[m].(hold := old(mutexes)[m].hold - 1)]
      ensures r == Ok && old(mutexes)[m].hold == 1 && old(mutexes)[m].waiters == [] ==>
        threads == Dropped(old(threads), old(mutexes), t, m) && mutexes == Freed(old(mutexes), m)
      ensures r == Ok && old(mutexes)[m].hold == 1 && old(mutexes)[m].waiters != [] ==>
        var n := old(mutexes)[m].waiters[0];
        && n in old(threads) && n != t
        && threads == Woken(Dropped(old(threads), old(mutexes), t, m), n, m)
        && mutexes == HandedOver(Dropped(old(threads), old(mutexes), t, m), old(mutexes), m)
      ensures r == Ok ==> Released(old(threads), old(mutexes), t, m, threads, mutexes)
      ensures Wired(threads, mutexes) && Queued(threads, mutexes, stale)
      ensures ValidBut(threads, mutexes, stale, loose) <==> old(HandOverExact(threads, mutexes, t, m))
    {
      ghost var T, M := threads, mutexes;
      assert MutexWired(T, M, m);
      if mutexes[m].owner != Some(t) {
        return Failed;
      }
      if mutexes[m].hold == 1 {
        LastRelease(t, m, stale, loose);
      } else {
        mutexes := mutexes[m := mutexes[m].(hold := mutexes[m].hold - 1)];
        HoldValid(T, M, m, mutexes[m].hold, stale, loose);
      }
      r := Ok;
    }

    /** The part of `rt_mutex_release` under `hold == 0`: the mutex goes to its first waiter, if any. */
    method LastRelease(t: ThreadId, m: MutexId, ghost stale: set<MutexId>, ghost loose: set<ThreadId>)
      requires ValidBut(threads, mutexes, stale, loose) && t in threads && m in mutexes && !threads[t].suspended
      requires mutexes[m].owner == Some(t) && mutexes[m].hold == 1
      modifies this
      ensures old(mutexes)[m].waiters == [] ==>
        threads == Dropped(old(threads), old(mutexes), t, m) && mutexes == Freed(old(mutexes), m)
      ensures old(mutexes)[m].waiters != [] ==>
        var n := old(mutexes)[m].waiters[0];
        && n in old(threads) && n != t
        && threads == Woken(Dropped(old(threads), old(mutexes), t, m), n, m)
        && mutexes == HandedOver(Dropped(old(threads), old(mutexes), t, m), old(mutexes), m)
      ensures Released(old(threads), old(mutexes), t, m, threads, mutexes)
      ensures Wired(threads, mutexes) && Queued(threads, mutexes, stale)
      ensures ValidBut(threads, mutexes, stale, loose) <==> old(HandOverExact(threads, mutexes, t, m))
    {
      ghost var T, M := threads, mutexes;
      OwnerFacts(T, M, t, m);
      GiveUp(t, m);
      if mutexes[m].waiters != [] {
        HandedValid(T, M, t, m, stale, loose);
        HandedMeans(T, M, t, m);
        ghost var M1 := mutexes;
        HandOver(t, m);
        Overwrite(M, m, M1[m], mutexes[m]);
      } else {
        Overwrite(M, m, mutexes[m], mutexes[m].(owner := None, priority := LOWEST));
        mutexes := mutexes[m := mutexes[m].(owner := None, priority := LOWEST)];
        FreedValid(T, M, t, m, stale, loose);
        FreedMeans(T, M, t, m);
      }
    }

    /** Give m to its first waiter and make that thread ready. */
    method HandOver(t: ThreadId, m: MutexId)
      requires m in mutexes && mutexes[m].waiters != [] && mutexes[m].waiters[0] in threads
      requires forall w :: w in mutexes[m].waiters ==> w in threads
      modifies this
      ensures threads == Woken(old(threads), old(mutexes)[m].waiters[0], m)
      ensures mutexes == HandedOver(old(threads), old(mutexes), m)
    {
      ghost var T := threads;
      var n := mutexes[m].waiters[0];
      mutexes := mutexes[m := mutexes[m].(waiters := mutexes[m].waiters[1..], owner := Some(n), hold := 1)];
      threads := threads[n := threads[n].(taken := [m] + threads[n].taken, pending := None, suspended := false)];
      RefreshPriority(m);
      assert HeadPriority(threads, mutexes[m].waiters) == HeadPriority(T, mutexes[m].waiters);
    }

    /** The owner's half of a last release: the hold count, the taken list and the priority. */
    method GiveUp(t: ThreadId, m: MutexId)
      requires t in threads && m in mutexes && forall k :: k in threads[t].taken ==> k in mutexes
      modifies this
      ensures threads == Dropped(old(threads), old(mutexes), t, m)
      ensures mutexes == old(mutexes)[m := old(mutexes)[m].(hold := 0)]
    {
      ghost var T, M := threads, mutexes;
      mutexes := mutexes[m := mutexes[m].(hold := 0)];
      MinDemandFrame(M, mutexes, T[t].initPriority, Without(T[t].taken, m));
      DropOwned(t, m, Dropped(T, M, t, m)[t].currentPriority);
    }

    /** Take m off the taken list of t and lower t's priority when m may have raised it. */
    method DropOwned(t: ThreadId, m: MutexId, ghost p: nat)
      requires t in threads && m in mutexes && forall k :: k in threads[t].taken ==> k in mutexes
      requires p == if mutexes[m].ceiling != LOWEST || threads[t].currentPriority == mutexes[m].priority
                    then MinDemand(mutexes, threads[t].initPriority, Without(threads[t].taken, m))
                    else threads[t].currentPriority
      modifies this`threads
      ensures threads ==
        old(threads)[t := old(threads)[t].(taken := Without(old(threads)[t].taken, m), currentPriority := p)]
    {
      threads := threads[t := threads[t].(taken := Without(threads[t].taken, m))];
      if mutexes[m].ceiling != LOWEST || threads[t].currentPriority == mutexes[m].priority {
        var q := GetMutexPriority(t);
        threads := threads[t := threads[t].(currentPriority := q)];
      }
    }

    /** Unlink t, which then waits for nothing. */
    method Leave(t: ThreadId, m: MutexId, failing: Option<MutexId>, ghost stale: set<MutexId>,
                 ghost loose: set<ThreadId>)
      requires ValidBut(threads, mutexes, stale, loose) && t in threads && threads[t].pending == Some(m) && m in mutexes
      modifies this
      ensures threads == WithoutWait(old(threads), t, failing) && mutexes == Unlinked(old(mutexes), t, m)
      ensures ValidBut(threads, mutexes, stale + {m}, loose)
    {
      LeftValid(threads, mutexes, t, m, failing, stale, loose);
      mutexes := mutexes[m := mutexes[m].(waiters := Without(mutexes[m].waiters, t))];
      threads := threads[t := threads[t].(suspended := false, pending := None, failing := failing)];
    }

    /** `rt_mutex_drop_thread`. Both callers have closed the thread before, so a chain update that comes back to it,
        in a deadlock, finds it not suspended and leaves it alone; they clear the pending object right after. */
    method DropThread(t: ThreadId, m: MutexId, ghost stale: set<MutexId> := {}, ghost loose: set<ThreadId> := {})
      requires ValidBut(threads, mutexes, stale, loose) && t in threads && threads[t].pending == Some(m) && m in mutexes
      modifies this
      ensures old(mutexes)[m].owner.Some? && SameObjects(old(threads), old(mutexes), threads, mutexes)
      ensures t in threads && !threads[t].suspended && threads[t].pending == None
      ensures forall k :: k in mutexes ==> t !in mutexes[k].waiters
      ensures var o := old(mutexes)[m].owner.value;
        var T1, M1 := WithoutWait(old(threads), t, None), Unlinked(old(mutexes), t, m);
        && ValidBut(threads, mutexes, stale, loose + {o}) && o in threads
        && (Exact(threads, mutexes, o) <==> Restores(T1, M1, t, m))
        && Rearranged(T1, Refreshed(T1, M1, m), threads, mutexes, o)
      ensures stale == {} && loose == {} ==>
        && Valid(threads, mutexes)
        && Reranked(WithoutWait(old(threads), t, None), WithoutWaiter(old(threads), old(mutexes), t, m),
                    threads, mutexes, old(mutexes)[m].owner.value, false)
    {
      ghost var T, M := threads, mutexes;
      WaitingFacts(T, M, t);
      ghost var o := mutexes[m].owner.value;
      Leave(t, m, None, stale, loose);
      ghost var T1, M1 := threads, mutexes;
      Left(t, m, stale + {m}, loose);
      assert Refreshed(T1, M1, m) == WithoutWaiter(T, M, t, m);
      if stale == {} && loose == {} {
        LeaverRestores(T, M, t, m, None);
        Weaken(threads, mutexes, stale + {m} - {m}, loose - {o}, stale, loose);
      }
      Weaken(threads, mutexes, stale + {m} - {m}, loose + {o}, stale, loose + {o});
      NotQueued(threads, mutexes, t);
    }

    /** `_thread_timeout`, or whatever else ends the wait: t is taken off the wait list and made ready.
        Nothing else changes until t runs, so m goes on asking its owner for the priority of t. */
    method Expire(t: ThreadId, m: MutexId, ghost stale: set<MutexId> := {}, ghost loose: set<ThreadId> := {})
      requires ValidBut(threads, mutexes, stale, loose) && t in threads && threads[t].pending == Some(m) && m in mutexes
      modifies this
      ensures threads == WithoutWait(old(threads), t, Some(m)) && mutexes == Unlinked(old(mutexes), t, m)
      ensures ValidBut(threads, mutexes, stale + {m}, loose)
      ensures forall k :: k in mutexes ==> t !in mutexes[k].waiters
      ensures !threads[t].suspended && threads[t].pending == None && threads[t].failing == Some(m)
    {
      Leave(t, m, Some(m), stale, loose);
      NotQueued(threads, mutexes, t);
    }

    /** The end of `_rt_mutex_take` for a wait that failed, when t runs again; the mutex may have any owner
        by now, or none. */
    method Finish(t: ThreadId, m: MutexId, error: Status, ghost stale: set<MutexId>, ghost loose: set<ThreadId>)
      returns (r: Status)
      requires ValidBut(threads, mutexes, stale, loose) && t in threads && threads[t].failing == Some(m) && m in mutexes
      modifies this
      ensures old(mutexes)[m].owner == None ==> r == NullOwner && threads == old(threads) && mutexes == old(mutexes)
      ensures old(mutexes)[m].owner.Some? ==> r == error
      ensures old(mutexes)[m].owner.Some? ==>
        var o := old(mutexes)[m].owner.value;
        var T1, M1 := old(threads)[t := old(threads)[t].(failing := None)], Refreshed(old(threads), old(mutexes), m);
        && ValidBut(threads, mutexes, stale - {m}, loose + {o}) && o in threads
        && (Exact(threads, mutexes, o) <==> old(Restores(threads, mutexes, t, m)))
        && (old(Restores(threads, mutexes, t, m)) ==> ValidBut(threads, mutexes, stale - {m}, loose - {o}))
        && Rearranged(T1, M1, threads, mutexes, o)
        && (old(threads)[o].currentPriority != old(threads)[t].currentPriority ==> threads == T1 && mutexes == M1)
        && (stale <= {m} && loose <= {o} ==> Reranked(T1, M1, threads, mutexes, o, false))
    {
      ghost var T, M := threads, mutexes;
      if mutexes[m].owner == None {
        return NullOwner;
      }
      threads := threads[t := threads[t].(failing := None)];
      EndedValid(T, M, t, stale, loose);
      assert Refreshed(threads, M, m) == Refreshed(T, M, m);
      Left(t, m, stale, loose);
      r := error;
    }

    /** A failed wait when nothing runs between its expiry and the end of the take. */
    method WaitFails(t: ThreadId, m: MutexId, error: Status) returns (r: Status)
      requires Valid(threads, mutexes) && t in threads && threads[t].pending == Some(m) && m in mutexes
      modifies this
      ensures r == error
      ensures Valid(threads, mutexes) && old(mutexes)[m].owner.Some?
      ensures SameObjects(old(threads), old(mutexes), threads, mutexes)
      ensures t in threads && !threads[t].suspended && forall k :: k in mutexes ==> t !in mutexes[k].waiters
      ensures Reranked(WithoutWait(old(threads), t, None), WithoutWaiter(old(threads), old(mutexes), t, m),
                       threads, mutexes, old(mutexes)[m].owner.value, false)
    {
      ghost var T, M := threads, mutexes;
      WaitingFacts(T, M, t);
      LeaverRestores(T, M, t, m, Some(m));
      Expire(t, m);
      ghost var T1, M1 := threads, mutexes;
      r := Finish(t, m, error, {} + {m}, {});
      Weaken(threads, mutexes, {} + {m} - {m}, {} - {M[m].owner.value}, {}, {});
      Overwrite(T, t, T1[t], T1[t].(failing := None));
      assert Refreshed(T1, M1, m) == WithoutWaiter(T, M, t, m);
      NotQueued(threads, mutexes, t);
    }

    /** Give o the priority that is asked of it, if it has another one. */
    method Recompute(o: ThreadId, ghost stale: set<MutexId>, ghost loose: set<ThreadId>)
      requires o in threads && Wired(threads, mutexes) && Queued(threads, mutexes, stale) && Bounded(threads)
      requires SettledBut(threads, mutexes, o, loose)
      modifies this
      ensures ValidBut(threads, mutexes, stale, loose - {o}) && o in threads && Exact(threads, mutexes, o)
      ensures Rearranged(old(threads), old(mutexes), threads, mutexes, o)
      ensures stale == {} && loose <= {o} ==>
        Reranked(old(threads), old(mutexes), threads, mutexes, o,
                 old(Required(threads, mutexes, o)) < old(threads)[o].currentPriority)
    {
      ghost var T, M := threads, mutexes;
      assert ThreadWired(T, M, o);
      var p := GetMutexPriority(o);
      SettledOrDue(T, M, o, p, stale, loose);
      if p != threads[o].currentPriority {
        UpdatePriority(o, p, stale, loose);
      } else {
        NothingReranked(T, M, o, false);
      }
      assert Settled(threads, mutexes, o, loose - {o});
    }

    /** What follows when t has left the wait list of m: the mutex's priority, and the owner's if it may be due to t. */
    method Left(t: ThreadId, m: MutexId, ghost stale: set<MutexId>, ghost loose: set<ThreadId>)
      requires ValidBut(threads, mutexes, stale, loose) && t in threads && m in mutexes && mutexes[m].owner.Some?
      modifies this
      ensures var o := old(mutexes)[m].owner.value;
        && ValidBut(threads, mutexes, stale - {m}, loose + {o}) && o in threads
        && (Exact(threads, mutexes, o) <==> old(Restores(threads, mutexes, t, m)))
        && (old(Restores(threads, mutexes, t, m)) ==> ValidBut(threads, mutexes, stale - {m}, loose - {o}))
        && Rearranged(old(threads), old(Refreshed(threads, mutexes, m)), threads, mutexes, o)
        && (old(threads)[o].currentPriority != old(threads)[t].currentPriority ==>
            threads == old(threads) && mutexes == old(Refreshed(threads, mutexes, m)))
        && (stale <= {m} && loose <= {o} ==>
            Reranked(old(threads), old(Refreshed(threads, mutexes, m)), threads, mutexes, o, false))
    {
      ghost var T, M := threads, mutexes;
      var o := mutexes[m].owner.value;
      RefreshedValid(T, M, m, o, stale, loose);
      ValidBounded(T, M, stale, loose);
      var needUpdate := threads[o].currentPriority == threads[t].currentPriority;
      assert MutexWired(T, M, m);
      RefreshPriority(m);
      assert mutexes == Refreshed(T, M, m);
      assert stale <= {m} ==> stale - {m} == {};
      if needUpdate {
        Recompute(o, stale - {m}, loose);
        Weaken(threads, mutexes, stale - {m}, loose - {o}, stale - {m}, loose + {o});
      } else {
        NothingReranked(T, mutexes, o, false);
        if StillAsked(T, M, m, o) {
          SettledOrDue(T, mutexes, o, threads[o].currentPriority, stale - {m}, loose);
        }
      }
    }

    /** `rt_mutex_setprioceiling` */
    method SetCeiling(m: MutexId, ceiling: nat, ghost stale: set<MutexId> := {}, ghost loose: set<ThreadId> := {})
      returns (previous: nat)
      requires ValidBut(threads, mutexes, stale, loose) && m in mutexes
      modifies this
      ensures ValidBut(threads, mutexes, stale, loose)
      ensures ceiling >= PRIORITY_MAX ==> previous == LOWEST && threads == old(threads) && mutexes == old(mutexes)
      ensures ceiling < PRIORITY_MAX ==>
        var M1 := old(mutexes)[m := old(mutexes)[m].(ceiling := ceiling)];
        && previous == old(mutexes)[m].ceiling
        && mutexes.Keys == old(mutexes).Keys && mutexes[m].ceiling == ceiling
        && if M1[m].owner == None then threads == old(threads) && mutexes == M1
           else
             var o := M1[m].owner.value;
             && o in threads && Exact(threads, mutexes, o) && Rearranged(old(threads), M1, threads, mutexes, o)
             && (stale == {} && loose == {} ==>
                 exists urgent :: Reranked(old(threads), M1, threads, mutexes, o, urgent))
    {
      ghost var T, M := threads, mutexes;
      if ceiling >= PRIORITY_MAX {
        return LOWEST;
      }
      previous := mutexes[m].ceiling;
      mutexes := mutexes[m := mutexes[m].(ceiling := ceiling)];
      ghost var M1 := mutexes;
      assert MutexWired(T, M, m);
      CeilingRest(T, M, m, ceiling, stale, loose);
      ValidBounded(T, M, stale, loose);
      if mutexes[m].owner.Some? {
        var o := mutexes[m].owner.value;
        ghost var urgent := Required(T, M1, o) < T[o].currentPriority;
        Recompute(o, stale, loose);
        Weaken(threads, mutexes, stale, loose - {o}, stale, loose);
        assert stale == {} && loose == {} ==> Reranked(T, M1, threads, mutexes, o, urgent);
      }
    }
  }

  /** A new ceiling concerns nobody but the owner. */
  lemma CeilingRest(T: Threads, M: Mutexes, m: MutexId, ceiling: nat, stale: set<MutexId>, loose: set<ThreadId>)
    requires ValidBut(T, M, stale, loose) && m in M && ceiling <= LOWEST
    ensures var M1 := M[m := M[m].(ceiling := ceiling)];
      && Wired(T, M1) && Queued(T, M1, stale)
      && (forall u {:trigger Settled(T, M1, u, loose)} :: u in T && Some(u) != M[m].owner ==> Settled(T, M1, u, loose))
  {
    var M1 := M[m := M[m].(ceiling := ceiling)];
    forall k | k in M ensures MutexWired(T, M1, k) && QueueOrdered(T, M1, k, stale) {
      assert MutexWired(T, M, k) && QueueOrdered(T, M, k, stale);
    }
    forall u | u in T ensures ThreadWired(T, M1, u) && (Some(u) != M[m].owner ==> Settled(T, M1, u, loose)) {
      assert ThreadWired(T, M, u) && Settled(T, M, u, loose);
      if Some(u) != M[m].owner {
        SettledFrame(T, M, T, M1, u, loose);
      }
    }
  }
}
