/**
 * The multiprocessor scheduler (rt-thread/src/scheduler_mp.c, rt-thread/src/cpu.c): one global table of ready lists and
 * one per CPU, the current thread of every CPU, and the lock over all CPUs. A method is what one CPU does in one region
 * under that lock; which CPU takes the next step, and which one, is free.
 */
module SmpScheduler {
  import opened Bits
  import opened Lists
  import opened ReadyBitmap
  import opened ReadyTable

  datatype Stat = Init | Ready | Running | Suspended

  /** bind is a CPU, or the number of CPUs for a thread any CPU may run. */
  datatype Thread = Thread(priority: nat, bind: nat, stat: Stat, yielding: bool, oncpu: Option<nat>,
                           cpusNest: nat, schedNest: nat, critNest: nat)

  datatype Cpu = Cpu(current: ThreadId, irqNest: nat, irqSwitch: bool)

  /** A thread says truly where it runs; the lock counts of a thread contain each other. */
  ghost predicate PlacedIn(T: map<ThreadId, Thread>, cpu: seq<Cpu>, t: ThreadId)
    requires t in T
  {
    var r := T[t];
    && (r.oncpu.Some? ==> r.oncpu.value < |cpu| && cpu[r.oncpu.value].current == t && r.stat != Ready)
    && (r.stat == Running ==> r.oncpu.Some?)
    && CountsOk(r)
  }

  predicate CountsOk(r: Thread) {
    r.critNest <= r.cpusNest && r.schedNest >= r.critNest + if r.cpusNest > 0 then 1 else 0
  }

  /** The lock is held by a CPU exactly when its current thread counts on it. */
  ghost predicate RunsIn(T: map<ThreadId, Thread>, cpu: seq<Cpu>, lock: Option<nat>, c: int) {
    && 0 <= c < |cpu|
    && cpu[c].current in T
    && T[cpu[c].current].oncpu == Some(c)
    && (lock == Some(c) <==> T[cpu[c].current].cpusNest > 0)
  }

  ghost predicate Settled(T: map<ThreadId, Thread>, cpu: seq<Cpu>, lock: Option<nat>) {
    && (forall t {:trigger PlacedIn(T, cpu, t)} :: t in T ==> PlacedIn(T, cpu, t))
    && (forall c {:trigger RunsIn(T, cpu, lock, c)} :: 0 <= c < |cpu| ==> RunsIn(T, cpu, lock, c))
  }

  /** CPU c, which holds the lock, goes from thread t to thread to, and the lock passes to that thread. */
  lemma SwitchSafe(T: map<ThreadId, Thread>, cpu: seq<Cpu>, c: nat, to: ThreadId, left: Thread,
                   T1: map<ThreadId, Thread>)
    requires c < |cpu| && to in T && T[to].stat == Ready
    requires Settled(T, cpu, Some(c))
    requires left.oncpu == None && left.stat != Running && CountsOk(left)
    requires T1 == T[cpu[c].current := left][to := T[to].(oncpu := Some(c), stat := Running)]
    ensures cpu[c].current in T && to != cpu[c].current
    ensures Settled(T1, cpu[c := cpu[c].(current := to)], if T[to].cpusNest == 0 then None else Some(c))
  {
    var t := cpu[c].current;
    assert RunsIn(T, cpu, Some(c), c) && PlacedIn(T, cpu, t) && PlacedIn(T, cpu, to);
    var cpu1, lock1 := cpu[c := cpu[c].(current := to)], if T[to].cpusNest == 0 then None else Some(c);
    forall u | u in T1 ensures PlacedIn(T1, cpu1, u) {
      assert PlacedIn(T, cpu, u);
    }
    forall d | 0 <= d < |cpu| ensures RunsIn(T1, cpu1, lock1, d) {
      assert RunsIn(T, cpu, Some(c), d);
    }
  }

  /** A thread's row changes in fields that say nothing about CPUs and the lock. */
  lemma RowSafe(T: map<ThreadId, Thread>, cpu: seq<Cpu>, lock: Option<nat>, t: ThreadId, row: Thread)
    requires t in T && Settled(T, cpu, lock)
    requires row.oncpu == T[t].oncpu
    requires (row.stat == Ready ==> row.oncpu == None) && (row.stat == Running ==> row.oncpu.Some?)
    requires row.cpusNest == T[t].cpusNest && row.schedNest == T[t].schedNest && row.critNest == T[t].critNest
    ensures Settled(T[t := row], cpu, lock)
  {
    var T1 := T[t := row];
    forall u | u in T1 ensures PlacedIn(T1, cpu, u) {
      assert PlacedIn(T, cpu, u);
    }
    forall d | 0 <= d < |cpu| ensures RunsIn(T1, cpu, lock, d) {
      assert RunsIn(T, cpu, lock, d);
    }
  }

  /** Somebody is ready whom CPU c may run. */
  ghost predicate Eligible(T: map<ThreadId, Thread>, cpus: nat, c: nat, t: ThreadId) {
    t in T && T[t].stat == Ready && (T[t].bind == cpus || T[t].bind == c)
  }

  ghost predicate NobodyAbove(T: map<ThreadId, Thread>, cpus: nat, c: nat, h: nat) {
    forall t :: Eligible(T, cpus, c, t) ==> h <= T[t].priority
  }

  /** The thread that leaves is no more urgent than the one that enters, as far as CPU c may run it. */
  lemma SwitchBest(T: map<ThreadId, Thread>, cpus: nat, c: nat, h: nat, t: ThreadId, left: Thread, to: ThreadId,
                   row: Thread)
    requires NobodyAbove(T, cpus, c, h) && row.stat == Running
    requires left.stat == Ready && (left.bind == cpus || left.bind == c) ==> h <= left.priority
    ensures NobodyAbove(T[t := left][to := row], cpus, c, h)
  {
    var T1 := T[t := left][to := row];
    forall u: ThreadId | Eligible(T1, cpus, c, u) ensures h <= T1[u].priority {
      if u != t {
        assert Eligible(T, cpus, c, u);
      }
    }
  }

  lemma StayBest(T: map<ThreadId, Thread>, cpus: nat, c: nat, h: nat, t: ThreadId, row: Thread)
    requires NobodyAbove(T, cpus, c, h) && row.stat == Running && row.priority <= h
    ensures NobodyAbove(T[t := row], cpus, c, row.priority)
  {
    var T1 := T[t := row];
    forall u: ThreadId | Eligible(T1, cpus, c, u) ensures row.priority <= T1[u].priority {
      assert Eligible(T, cpus, c, u);
    }
  }

  /** Counters do not matter for who may run. */
  lemma CountersDoNotRank(T: map<ThreadId, Thread>, cpus: nat, c: nat, h: nat, t: ThreadId, row: Thread)
    requires t in T && row.stat == T[t].stat && row.bind == T[t].bind && row.priority == T[t].priority
    ensures NobodyAbove(T[t := row], cpus, c, h) <==> NobodyAbove(T, cpus, c, h)
    ensures forall u :: Eligible(T[t := row], cpus, c, u) <==> Eligible(T, cpus, c, u)
  {
    var T1 := T[t := row];
    assert forall u :: Eligible(T1, cpus, c, u) <==> Eligible(T, cpus, c, u);
    if NobodyAbove(T1, cpus, c, h) {
      forall u: ThreadId | Eligible(T, cpus, c, u) ensures h <= T[u].priority {
        assert Eligible(T1, cpus, c, u);
      }
    }
    if NobodyAbove(T, cpus, c, h) {
      forall u: ThreadId | Eligible(T1, cpus, c, u) ensures h <= T1[u].priority {
        assert Eligible(T, cpus, c, u);
      }
    }
  }

  type Byte = n: nat | n < 0x100

  function Wrapped(x: int): nat {
    x % 0x1_0000_0000
  }

  /** The sum of the two levels: what __rt_ffs found in the group and in the byte. */
  function Levels(wide: bool, group: int, byte: int): nat {
    var number := Wrapped(group - 1);
    if wide then Wrapped(Wrapped(8 * number) + byte - 1) else number
  }

  /** The byte that the group leads to; with an empty group it is the stray byte in front of the table. */
  function ByteOf(b: Bitmap, stray: Byte): Byte
    requires b.Valid()
  {
    if b.group == 0 || !b.wide then stray else
      b.FirstByteOk();
      assert b.Byte(FfsTable(b.group) - 1);
      b.table[FfsTable(b.group) - 1]
  }

  /** The priority that one table contributes to the pick, in unsigned words. */
  function Pick(b: Bitmap, stray: Byte): nat
    requires b.Valid()
  {
    Levels(b.wide, FfsTable(b.group), FfsTable(ByteOf(b, stray)))
  }

  /** Whatever the stray byte is, an empty table contributes nothing that could be chosen. */
  lemma PickIs(b: Bitmap, stray: Byte)
    requires b.Valid()
    ensures if b.group == 0 then Pick(b, stray) >= 256 else Pick(b, stray) == b.First()
  {
    if b.group == 0 {
      EmptyFfs();
      StrayBit(stray);
      EmptyLevels(b.wide, FfsTable(stray));
    } else {
      b.FirstByteOk();
      b.FirstIsLeast();
      FullLevels(b.wide, FfsTable(b.group), FfsTable(ByteOf(b, stray)), b.First());
    }
  }

  lemma EmptyLevels(wide: bool, byte: int)
    requires 0 <= byte <= 8
    ensures Levels(wide, 0, byte) >= 256
  {
    assert Wrapped(-1) == 0xFFFF_FFFF && Wrapped(8 * 0xFFFF_FFFF) == 0xFFFF_FFF8;
  }

  lemma FullLevels(wide: bool, group: int, byte: int, first: int)
    requires 0 < group <= 32 && 0 <= first < 256 && first == if wide then (group - 1) * 8 + byte - 1 else group - 1
    ensures Levels(wide, group, byte) == first
  {}

  lemma EmptyFfs()
    ensures FfsTable(0) == 0
  {}

  lemma StrayBit(stray: Byte)
    ensures 0 <= FfsTable(stray) <= 8
  {
    FfsTableIsCtz(stray);
    if stray > 0 {
      ByteBound();
      CtzBound(stray, 8);
    }
  }

  /** List p of table b; nobody where there is no such list. */
  ghost function ListOf(ts: seq<Table>, b: nat, p: nat): seq<ThreadId> {
    if b < |ts| && p < |ts[b].lists| then ts[b].lists[p] else []
  }

  /** A list before and after t joins it, behind the others or in front of them; with own false it is another list. */
  ghost predicate JoinedAt(before: seq<ThreadId>, after: seq<ThreadId>, own: bool, t: ThreadId, behind: bool) {
    after == if !own then before else if behind then before + [t] else [t] + before
  }

  /** t has joined list p of table b; nobody else has moved. */
  ghost predicate Joined(ts: seq<Table>, us: seq<Table>, b: nat, p: nat, t: ThreadId, behind: bool) {
    forall d: nat, q: nat :: JoinedAt(ListOf(ts, d, q), ListOf(us, d, q), d == b && q == p, t, behind)
  }

  /** t has left list p of table b; the others have kept their order. */
  ghost predicate Parted(ts: seq<Table>, us: seq<Table>, b: nat, p: nat, t: ThreadId) {
    forall d: nat, q: nat ::
      ListOf(us, d, q) == if d == b && q == p then Without(ListOf(ts, d, q), t) else ListOf(ts, d, q)
  }

  /** The head of the best list of CPU c and of the global table, number g; of two equally good lists the local one. */
  ghost predicate Heads(ts: seq<Table>, g: nat, c: nat, h: nat, to: ThreadId) {
    && (forall p: nat :: p < h ==> ListOf(ts, c, p) == [] && ListOf(ts, g, p) == [])
    && if ListOf(ts, c, h) != [] then to == ListOf(ts, c, h)[0]
       else ListOf(ts, g, h) != [] && to == ListOf(ts, g, h)[0]
  }

  /** Whether a thread with row x has to leave CPU c to somebody who is ready at h: it no longer runs, or is bound to
      another CPU, or is less urgent, or yields to an equal. */
  ghost predicate GivesWay(x: Thread, g: nat, c: nat, h: nat) {
    x.stat == Running && (x.bind == g || x.bind == c) ==> h < x.priority || (h == x.priority && x.yielding)
  }

  /** A thread with row x goes back to list p of table b. */
  ghost predicate Refiles(x: Thread, b: nat, p: nat) {
    x.stat == Running && b == x.bind && p == x.priority
  }

  /** List p of table b after its head has been taken off, if off says so, and t, with row x, has been put back. */
  ghost predicate RefiledAt(before: seq<ThreadId>, after: seq<ThreadId>, off: bool, t: ThreadId, x: Thread,
                            back: bool) {
    after == (if back && !x.yielding then [t] else []) +
             (if off && before != [] then before[1..] else before) +
             (if back && x.yielding then [t] else [])
  }

  /** The lists after the head of list h has taken over from t, which had row x: a running thread is back in its list,
      last if it has yielded and first if not. */
  ghost predicate Refiled(ts: seq<Table>, us: seq<Table>, g: nat, c: nat, h: nat, t: ThreadId, x: Thread) {
    forall b: nat, p: nat ::
      RefiledAt(ListOf(ts, b, p), ListOf(us, b, p), b == Home(ts, g, c, h) && p == h, t, x, Refiles(x, b, p))
  }

  ghost function Home(ts: seq<Table>, g: nat, c: nat, h: nat): nat {
    if ListOf(ts, c, h) != [] then c else g
  }

  /** A list which t joins, if own says so, and which its head leaves, if off says so. */
  lemma JoinThenPartAt(before: seq<ThreadId>, between: seq<ThreadId>, after: seq<ThreadId>, own: bool, off: bool,
                       to: ThreadId, t: ThreadId, x: Thread)
    requires JoinedAt(before, between, own, t, x.yielding)
    requires off ==> before != [] && before[0] == to && (own ==> x.yielding)
    requires after == if off then Without(between, to) else between
    ensures RefiledAt(before, after, off, t, x, own)
  {
    if off {
      assert between[0] == to && after == between[1..];
    }
  }

  /** Who joins its list and makes room for the head of another one, or of its own when it has joined behind it. */
  lemma JoinThenPart(ts: seq<Table>, us: seq<Table>, vs: seq<Table>, g: nat, c: nat, h: nat, to: ThreadId, t: ThreadId,
                     x: Thread)
    requires Heads(ts, g, c, h, to) && GivesWay(x, g, c, h)
    requires if x.stat == Running then Joined(ts, us, x.bind, x.priority, t, x.yielding) else us == ts
    requires Parted(us, vs, Home(ts, g, c, h), h, to)
    ensures Refiled(ts, vs, g, c, h, t, x)
  {
    forall b: nat, p: nat ensures
      RefiledAt(ListOf(ts, b, p), ListOf(vs, b, p), b == Home(ts, g, c, h) && p == h, t, x, Refiles(x, b, p))
    {
      JoinThenPartAt(ListOf(ts, b, p), ListOf(us, b, p), ListOf(vs, b, p), Refiles(x, b, p),
                     b == Home(ts, g, c, h) && p == h, to, t, x);
    }
  }

  /** The scheduler is locked by nothing but the lock over all CPUs, if the thread has that. */
  predicate Free(r: Thread) {
    r.schedNest == if r.cpusNest == 0 then 0 else 1
  }

  /** A thread has given back n counts of the lock, and as many of the scheduler. */
  ghost predicate Back(x: Thread, y: Thread, n: nat) {
    y.cpusNest == x.cpusNest - n && y.schedNest == x.schedNest - n && y.critNest == x.critNest
  }

  ghost predicate SameButCounts(r: Thread, s: Thread) {
    r == s.(cpusNest := r.cpusNest, schedNest := r.schedNest, critNest := r.critNest)
  }

  /** Thread t goes on where it is, without its yield flag. */
  ghost predicate GoesOn(was: map<ThreadId, Thread>, now: map<ThreadId, Thread>, t: ThreadId) {
    && t in was && now.Keys == was.Keys && SameButCounts(now[t], was[t].(yielding := false))
    && forall u :: u in was && u != t ==> now[u] == was[u]
  }

  /** Thread to runs on CPU c instead of t: t is detached, and ready if it ran; the other threads are as before. */
  ghost predicate TakesOver(was: map<ThreadId, Thread>, now: map<ThreadId, Thread>, c: nat, to: ThreadId, t: ThreadId) {
    && t in was && to in was && to != t && now.Keys == was.Keys
    && now[to] == was[to].(oncpu := Some(c), stat := Running)
    && SameButCounts(now[t], if was[t].stat == Running then was[t].(oncpu := None, stat := Ready, yielding := false)
                             else was[t].(oncpu := None))
    && forall u :: u in was && u != t && u != to ==> now[u] == was[u]
  }

  /** What CPU c does about the head of list h; current runs afterwards, from lists us. */
  ghost predicate DecidedOn(ts: seq<Table>, us: seq<Table>, g: nat, was: map<ThreadId, Thread>,
                            now: map<ThreadId, Thread>, c: nat, h: nat, to: ThreadId, t: ThreadId, current: ThreadId)
  {
    t in was && if GivesWay(was[t], g, c, h) then
      current == to && TakesOver(was, now, c, to, t) && Refiled(ts, us, g, c, h, t, was[t])
    else
      current == t && GoesOn(was, now, t) && us == ts
  }

  /** What CPU c decides between its thread t and the ready lists ts. */
  ghost predicate Decided(ts: seq<Table>, us: seq<Table>, g: nat, was: map<ThreadId, Thread>,
                          now: map<ThreadId, Thread>, c: nat, t: ThreadId, current: ThreadId)
  {
    forall h, to :: Heads(ts, g, c, h, to) ==> DecidedOn(ts, us, g, was, now, c, h, to, t, current)
  }

  lemma OneHead(ts: seq<Table>, g: nat, c: nat, h: nat, to: ThreadId, k: nat, u: ThreadId)
    requires Heads(ts, g, c, h, to) && Heads(ts, g, c, k, u)
    ensures h == k && to == u
  {}

  /** There is one head, so what has been done about it is the decision. */
  lemma Settles(ts: seq<Table>, us: seq<Table>, g: nat, was: map<ThreadId, Thread>, now: map<ThreadId, Thread>, c: nat,
                h: nat, to: ThreadId, t: ThreadId, current: ThreadId)
    requires Heads(ts, g, c, h, to) && DecidedOn(ts, us, g, was, now, c, h, to, t, current)
    ensures Decided(ts, us, g, was, now, c, t, current)
  {
    forall k, u | Heads(ts, g, c, k, u) ensures DecidedOn(ts, us, g, was, now, c, k, u, t, current) {
      OneHead(ts, g, c, h, to, k, u);
    }
  }

  /** The counts that the thread had before a region do not matter for what the region has decided. */
  lemma CountsBefore(ts: seq<Table>, us: seq<Table>, g: nat, was: map<ThreadId, Thread>, row: Thread,
                     now: map<ThreadId, Thread>, c: nat, t: ThreadId, current: ThreadId)
    requires t in was && SameButCounts(row, was[t]) && Decided(ts, us, g, was[t := row], now, c, t, current)
    ensures Decided(ts, us, g, was, now, c, t, current)
  {
    forall h, to | Heads(ts, g, c, h, to) ensures DecidedOn(ts, us, g, was, now, c, h, to, t, current) {
      assert DecidedOn(ts, us, g, was[t := row], now, c, h, to, t, current);
      if GivesWay(row, g, c, h) {
        SameRefiling(ts, us, g, c, h, t, row, was[t]);
      }
    }
  }

  lemma SameRefiling(ts: seq<Table>, us: seq<Table>, g: nat, c: nat, h: nat, t: ThreadId, x: Thread, y: Thread)
    requires Refiled(ts, us, g, c, h, t, x) && SameButCounts(x, y)
    ensures Refiled(ts, us, g, c, h, t, y)
  {
    forall b: nat, p: nat ensures
      RefiledAt(ListOf(ts, b, p), ListOf(us, b, p), b == Home(ts, g, c, h) && p == h, t, y, Refiles(y, b, p))
    {
      assert RefiledAt(ListOf(ts, b, p), ListOf(us, b, p), b == Home(ts, g, c, h) && p == h, t, x, Refiles(x, b, p));
    }
  }

  /** Nor do the counts of a thread that stays. */
  lemma CountsAfter(ts: seq<Table>, us: seq<Table>, g: nat, was: map<ThreadId, Thread>, now: map<ThreadId, Thread>,
                    row: Thread, c: nat, t: ThreadId)
    requires t in now && SameButCounts(row, now[t]) && Decided(ts, us, g, was, now, c, t, t)
    ensures Decided(ts, us, g, was, now[t := row], c, t, t)
  {
    forall h, to | Heads(ts, g, c, h, to) ensures DecidedOn(ts, us, g, was, now[t := row], c, h, to, t, t) {
      assert DecidedOn(ts, us, g, was, now, c, h, to, t, t);
    }
  }

  /** Thread t runs, CPU c may run it, it has not yielded, and nobody whom CPU c may run is more urgent. */
  ghost predicate MayStay(T: map<ThreadId, Thread>, cpus: nat, c: nat, t: ThreadId) {
    && t in T && T[t].stat == Running && (T[t].bind == cpus || T[t].bind == c) && !T[t].yielding
    && forall u :: Eligible(T, cpus, c, u) ==> T[t].priority <= T[u].priority
  }

  lemma StaysPut(ts: seq<Table>, us: seq<Table>, g: nat, was: map<ThreadId, Thread>, now: map<ThreadId, Thread>, c: nat,
                 t: ThreadId, current: ThreadId)
    requires Decided(ts, us, g, was, now, c, t, current) && MayStay(was, g, c, t)
    requires exists h, to :: Heads(ts, g, c, h, to)
    requires forall h, to :: Heads(ts, g, c, h, to) ==> Eligible(was, g, c, to) && was[to].priority == h
    ensures current == t && us == ts
  {
    var h, to :| Heads(ts, g, c, h, to);
    assert DecidedOn(ts, us, g, was, now, c, h, to, t, current) && Eligible(was, g, c, to);
  }

  class Smp {
    const cpus: nat
    const levels: nat
    var tables: seq<Table>
    var threads: map<ThreadId, Thread>
    var cpu: seq<Cpu>
    /** _cpus_lock: the CPU that holds it. */
    var lock: Option<nat>

    /**
     * The state once every CPU has started: CPU c runs thread idle[c] and holds nothing; the other threads have not
     * been started.
     */
    constructor (n: nat, levels: nat, ts: map<ThreadId, Thread>, idle: seq<ThreadId>)
      requires |idle| == n > 0 && 0 < levels <= 256 && Distinct(idle)
      requires forall t :: t in ts ==> ts[t].priority < levels && ts[t].bind <= n && ts[t].cpusNest == 0
                                       && ts[t].schedNest == 0 && ts[t].critNest == 0
      requires forall t :: t in ts && t !in idle ==> ts[t].stat == Init && ts[t].oncpu == None
      requires forall c :: 0 <= c < n ==> idle[c] in ts && ts[idle[c]].stat == Running && ts[idle[c]].oncpu == Some(c)
      ensures Safe() && cpus == n && threads == ts && lock == None
      ensures forall c :: 0 <= c < n ==> cpu[c] == Cpu(idle[c], 0, false)
    {
      cpus, this.levels := n, levels;
      tables := seq(n + 1, b => Fresh(levels));
      threads := ts;
      cpu := seq(n, c requires 0 <= c < n => Cpu(idle[c], 0, false));
      lock := None;
      new;
      FreshIs(levels);
      forall t | t in threads ensures PlacedIn(threads, cpu, t) {
        if t in idle {
          var c :| 0 <= c < n && idle[c] == t;
        }
      }
    }

    // ----- The ready lists -----

    /** Who is in a list is ready, at the priority and for the CPU of that list. */
    ghost predicate Member(b: nat, p: nat, t: ThreadId)
      reads `tables, `threads
    {
      b < |tables| && tables[b].Has(p, t) ==>
        t in threads && threads[t].bind == b && threads[t].priority == p && threads[t].stat == Ready
    }

    predicate InTable(t: ThreadId)
      requires t in threads
      reads `tables, `threads
    {
      threads[t].bind < |tables| && tables[threads[t].bind].Has(threads[t].priority, t)
    }

    ghost predicate Queued(t: ThreadId, x: set<ThreadId>)
      requires t in threads
      reads `tables, `threads
    {
      && threads[t].priority < levels && threads[t].bind <= cpus
      && (t in x ==> !InTable(t))
      && (t !in x && threads[t].stat == Ready ==> InTable(t))
    }

    /** Tables and states agree, except that the threads of x are in no list whatever their state says. */
    ghost predicate Listed(x: set<ThreadId>)
      reads `tables, `threads
    {
      && cpus > 0 && |tables| == cpus + 1 && levels <= 256
      && (forall b :: 0 <= b <= cpus ==> tables[b].Valid(levels))
      && (forall b: nat, p: nat, t: ThreadId {:trigger Member(b, p, t)} :: Member(b, p, t))
      && (forall t {:trigger Queued(t, x)} :: t in threads ==> Queued(t, x))
    }

    // ----- The processors -----

    ghost predicate Safe()
      reads this
    {
      && Listed({})
      && |cpu| == cpus && (lock.Some? ==> lock.value < cpus)
      && Settled(threads, cpu, lock)
    }

    /** CPU c may enter its next region: it has the lock already or can have it. */
    ghost predicate Enabled(c: int)
      reads this
    {
      0 <= c < |cpu| && (lock == None || lock == Some(c))
    }

    /** The current thread of CPU c counts on the lock. */
    ghost predicate Counts(c: int)
      reads `threads, `cpu
    {
      0 <= c < |cpu| && cpu[c].current in threads && threads[cpu[c].current].cpusNest > 0
    }

    /** What the invariant means: the safety of the scheduler in every reachable state. */
    lemma SafetyMeans()
      requires Safe()
      // no thread is current on two CPUs
      ensures forall c, d :: 0 <= c < d < cpus ==> cpu[c].current != cpu[d].current
      // a current thread is in no ready list
      ensures forall c, b: nat, p: nat :: 0 <= c < cpus && b <= cpus ==> !tables[b].Has(p, cpu[c].current)
      // a ready thread is in exactly one list, the one of its priority, global or of the CPU it is bound to
      ensures forall t, b: nat, p: nat :: t in threads && threads[t].stat == Ready && b <= cpus ==>
                (tables[b].Has(p, t) <==> b == threads[t].bind && p == threads[t].priority)
      // the lock is held exactly when the current thread of some CPU counts on it, and never by two CPUs
      ensures lock.Some? <==> exists c :: Counts(c)
      ensures forall c, d :: Counts(c) && Counts(d) ==> c == d
    {
      forall c, d | 0 <= c < d < cpus ensures cpu[c].current != cpu[d].current {
        assert RunsIn(threads, cpu, lock, c) && RunsIn(threads, cpu, lock, d);
      }
      forall c, b: nat, p: nat | 0 <= c < cpus && b <= cpus ensures !tables[b].Has(p, cpu[c].current) {
        assert RunsIn(threads, cpu, lock, c) && PlacedIn(threads, cpu, cpu[c].current) && Member(b, p, cpu[c].current);
      }
      forall t, b: nat, p: nat | t in threads && threads[t].stat == Ready && b <= cpus
        ensures tables[b].Has(p, t) <==> b == threads[t].bind && p == threads[t].priority
      {
        assert Queued(t, {}) && Member(b, p, t);
      }
      forall c | 0 <= c < cpus ensures Counts(c) <==> lock == Some(c) {
        assert RunsIn(threads, cpu, lock, c);
      }
      if lock.Some? {
        assert Counts(lock.value);
      }
    }

    // ----- List primitives -----

    /** rt_schedule_insert_thread for a thread that is in no list: ready, unless it is still on a CPU. */
    method InsertThread(t: ThreadId)
      requires t in threads && Listed({t})
      modifies this`tables, this`threads
      ensures if old(threads[t]).oncpu.Some? then Listed({t}) && tables == old(tables) else Listed({})
      ensures threads ==
        old(threads)[t := old(threads[t]).(stat := if old(threads[t]).oncpu.Some? then Running else Ready)]
      ensures var r := old(threads[t]);
              r.oncpu == None ==> Joined(old(tables), tables, r.bind, r.priority, t, r.yielding)
    {
      assert Queued(t, {t});
      var r := threads[t];
      if r.oncpu.Some? {
        threads := threads[t := r.(stat := Running)];
      } else {
        tables[r.bind].InsertIs(levels, r.priority, t, r.yielding);
        threads := threads[t := r.(stat := Ready)];
        tables := tables[r.bind := tables[r.bind].Insert(r.priority, t, r.yielding)];
      }
      forall b: nat, p: nat, u: ThreadId ensures Member(b, p, u) {
        assert old(Member(b, p, u));
      }
      ghost var x := if r.oncpu.Some? then {t} else {};
      forall u | u in threads ensures Queued(u, x) {
        assert old(Queued(u, {t}));
      }
    }

    /** rt_schedule_remove_thread */
    method RemoveThread(t: ThreadId)
      requires t in threads && Listed({})
      modifies this`tables
      ensures Listed({t})
      ensures Parted(old(tables), tables, threads[t].bind, threads[t].priority, t)
    {
      assert Queued(t, {});
      var r := threads[t];
      tables[r.bind].RemoveIs(levels, r.priority, t);
      tables := tables[r.bind := tables[r.bind].Remove(r.priority, t)];
      forall b: nat, p: nat, u: ThreadId ensures Member(b, p, u) {
        assert old(Member(b, p, u));
      }
      forall u | u in threads ensures Queued(u, {t}) {
        assert old(Queued(u, {}));
      }
    }

    /** Writes the row of a thread that is in no list. */
    method Update(t: ThreadId, row: Thread)
      requires t in threads && Listed({t}) && row.priority < levels && row.bind <= cpus
      modifies this`threads
      ensures Listed({t}) && threads == old(threads)[t := row]
      ensures row.stat != Ready ==> Listed({})
    {
      assert Queued(t, {t});
      threads := threads[t := row];
      forall b: nat, p: nat, u: ThreadId ensures Member(b, p, u) && (u == t && b < |tables| ==> !tables[b].Has(p, u)) {
        assert old(Member(b, p, u));
      }
      forall u | u in threads ensures Queued(u, {t}) && (row.stat != Ready ==> Queued(u, {})) {
        assert old(Queued(u, {t}));
      }
    }

    /** A thread that is not ready is in no list. */
    lemma NotListed(t: ThreadId)
      requires Listed({}) && t in threads && threads[t].stat != Ready
      ensures threads[t].priority < levels && threads[t].bind <= cpus && Listed({t})
    {
      assert Queued(t, {}) && Member(threads[t].bind, threads[t].priority, t);
      forall u | u in threads ensures Queued(u, {t}) {
        assert Queued(u, {});
      }
    }

    lemma NeedNoList(t: ThreadId)
      requires t in threads && Listed({t}) && threads[t].stat != Ready
      ensures Listed({})
    {
      forall u | u in threads ensures Queued(u, {}) {
        assert Queued(u, {t});
      }
    }

    /** Writes fields of a thread that the lists do not depend on. */
    method Touch(t: ThreadId, row: Thread, ghost x: set<ThreadId>)
      requires t in threads && Listed(x)
      requires row.priority == threads[t].priority && row.bind == threads[t].bind && row.stat == threads[t].stat
      modifies this`threads
      ensures Listed(x) && threads == old(threads)[t := row]
    {
      threads := threads[t := row];
      forall b: nat, p: nat, u: ThreadId ensures Member(b, p, u) {
        assert old(Member(b, p, u));
      }
      forall u | u in threads ensures Queued(u, x) {
        assert old(Queued(u, x));
      }
    }

    // ----- The lock -----

    /** Sets the counters of the current thread of CPU c, and the lock with them. */
    method Count(c: nat, cpusNest: nat, schedNest: nat, critNest: nat)
      requires Safe() && c < cpus && (cpusNest == 0 || Enabled(c))
      requires critNest <= cpusNest && schedNest >= critNest + if cpusNest > 0 then 1 else 0
      modifies this`threads, this`lock
      ensures Safe() && lock == if cpusNest > 0 then Some(c) else if old(lock) == Some(c) then None else old(lock)
      ensures cpu[c].current in old(threads)
      ensures var t := cpu[c].current;
              threads == old(threads)[t := old(threads)[t].(cpusNest := cpusNest, schedNest := schedNest,
                                                            critNest := critNest)]
    {
      assert RunsIn(threads, cpu, lock, c);
      var t := cpu[c].current;
      Touch(t, threads[t].(cpusNest := cpusNest, schedNest := schedNest, critNest := critNest), {});
      lock := if cpusNest > 0 then Some(c) else if lock == Some(c) then None else lock;
      forall u | u in threads ensures PlacedIn(threads, cpu, u) {
        assert old(PlacedIn(threads, cpu, u));
      }
      forall d | 0 <= d < cpus ensures RunsIn(threads, cpu, lock, d) {
        assert old(RunsIn(threads, cpu, lock, d));
      }
    }

    /** rt_cpus_lock; the first nested lock waits for the other CPUs, so it happens when the lock is free. */
    method CpusLock(c: nat)
      requires Safe() && Enabled(c)
      modifies this`threads, this`lock
      ensures Safe() && lock == Some(c) && cpu[c].current in old(threads)
      ensures threads == old(threads)[cpu[c].current := Locked(old(threads)[cpu[c].current])]
      ensures var r, s := old(threads)[cpu[c].current], threads[cpu[c].current];
              SameButCounts(s, r) && s.cpusNest == r.cpusNest + 1 && s.critNest == r.critNest
              && s.schedNest == r.schedNest + (if old(lock) == None then 1 else 0)
    {
      assert RunsIn(threads, cpu, lock, c) && PlacedIn(threads, cpu, cpu[c].current);
      var r := threads[cpu[c].current];
      Count(c, r.cpusNest + 1, if r.cpusNest == 0 then r.schedNest + 1 else r.schedNest, r.critNest);
    }

    function Locked(r: Thread): Thread {
      r.(cpusNest := r.cpusNest + 1, schedNest := if r.cpusNest == 0 then r.schedNest + 1 else r.schedNest)
    }

    /** rt_cpus_unlock by a thread that has locked more often than its critical sections account for. */
    method CpusUnlock(c: nat)
      requires Safe() && c < cpus && cpu[c].current in threads
      requires threads[cpu[c].current].cpusNest > threads[cpu[c].current].critNest
      modifies this`threads, this`lock
      ensures Safe() && Enabled(c) && cpu[c].current in old(threads)
      ensures threads == old(threads)[cpu[c].current := Unlocked(old(threads)[cpu[c].current])]
      ensures lock == if old(threads)[cpu[c].current].cpusNest == 1 then None else Some(c)
      ensures var r, s := old(threads)[cpu[c].current], threads[cpu[c].current];
              SameButCounts(s, r) && s.cpusNest == r.cpusNest - 1 && s.critNest == r.critNest
              && s.schedNest == r.schedNest - (if lock == None then 1 else 0)
    {
      assert RunsIn(threads, cpu, lock, c) && PlacedIn(threads, cpu, cpu[c].current);
      var r := threads[cpu[c].current];
      Count(c, r.cpusNest - 1, if r.cpusNest == 1 then r.schedNest - 1 else r.schedNest, r.critNest);
    }

    function Unlocked(r: Thread): Thread {
      if r.cpusNest == 0 || r.schedNest == 0 then r
      else r.(cpusNest := r.cpusNest - 1, schedNest := if r.cpusNest == 1 then r.schedNest - 1 else r.schedNest)
    }

    // ----- Choosing and switching -----

    ghost predicate BestRuns(c: nat)
      reads `threads, `cpu
    {
      c < |cpu| && cpu[c].current in threads && NobodyAbove(threads, cpus, c, threads[cpu[c].current].priority)
    }

    /** Table b yields its best priority, or something beyond all priorities when it is empty. */
    lemma Picked(b: nat, stray: Byte)
      requires Listed({}) && b <= cpus
      ensures var p, r := Pick(tables[b].bitmap, stray), tables[b];
              if r.Empty() then p >= 256 && forall q :: 0 <= q < levels ==> r.lists[q] == []
              else p < levels && r.lists[p] != [] && forall q :: 0 <= q < p ==> r.lists[q] == []
    {
      PickIs(tables[b].bitmap, stray);
      if tables[b].Empty() {
        tables[b].EmptyIs(levels);
      } else {
        tables[b].BestIs(levels);
      }
    }

    /** _scheduler_get_highest_priority_thread over the global table and the one of CPU c. */
    method Highest(c: nat) returns (t: ThreadId, h: nat)
      requires Listed({}) && c < cpus && !(tables[cpus].Empty() && tables[c].Empty())
      ensures Eligible(threads, cpus, c, t) && threads[t].priority == h
      ensures NobodyAbove(threads, cpus, c, h) && Heads(tables, cpus, c, h, t)
      ensures threads[t].bind == Home(tables, cpus, c, h)
    {
      var stray: Byte, localStray: Byte :| true;
      var g, l := Pick(tables[cpus].bitmap, stray), Pick(tables[c].bitmap, localStray);
      Picked(cpus, stray);
      Picked(c, localStray);
      if g < l {
        h, t := g, tables[cpus].lists[g][0];
        assert Member(cpus, g, t) && tables[cpus].Has(g, t);
      } else {
        h, t := l, tables[c].lists[l][0];
        assert Member(c, l, t) && tables[c].Has(l, t);
      }
      forall u: ThreadId | Eligible(threads, cpus, c, u) ensures h <= threads[u].priority {
        assert Queued(u, {});
      }
    }

    /** The running thread goes on if CPU c may still run it, nobody is more urgent, and no equal has been let past. */
    predicate Keeps(r: Thread, c: nat, h: nat) {
      && r.stat == Running && (r.bind == cpus || r.bind == c)
      && (r.priority < h || (r.priority == h && !r.yielding))
    }

    /** The current thread leaves its CPU: detached, and back in a ready list if it was running. */
    function LeftRow(r: Thread, c: nat, h: nat): Thread {
      if r.stat == Running then r.(oncpu := None, yielding := false, stat := if Keeps(r, c, h) then Running else Ready)
      else r.(oncpu := None)
    }

    method Leave(c: nat, h: nat) returns (goOn: bool)
      requires Listed({}) && c < |cpu| && cpu[c].current in threads && threads[cpu[c].current].stat != Ready
      modifies this`tables, this`threads
      ensures Listed({}) && threads == old(threads)[cpu[c].current := LeftRow(old(threads)[cpu[c].current], c, h)]
      ensures goOn <==> Keeps(old(threads)[cpu[c].current], c, h)
      ensures var t := cpu[c].current; var r := old(threads)[t];
              if goOn || r.stat != Running then tables == old(tables)
              else Joined(old(tables), tables, r.bind, r.priority, t, r.yielding)
    {
      var t := cpu[c].current;
      var r := threads[t];
      goOn := false;
      NotListed(t);
      Touch(t, r.(oncpu := None), {});
      if r.stat == Running {
        if r.bind == cpus || r.bind == c {
          if r.priority < h {
            goOn := true;
          } else if r.priority == h && !r.yielding {
            goOn := true;
          } else {
            NotListed(t);
            InsertThread(t);
          }
        } else {
          NotListed(t);
          InsertThread(t);
        }
        Touch(t, threads[t].(yielding := false), {});
      }
      Overwrite(old(threads), t, r.(oncpu := None), threads[t]);
    }

    /** The chosen thread is taken off its list and runs on CPU c. */
    method Enter(c: nat, to: ThreadId)
      requires Listed({}) && to in threads && threads[to].stat == Ready
      modifies this`tables, this`threads
      ensures Listed({}) && threads == old(threads)[to := old(threads)[to].(oncpu := Some(c), stat := Running)]
      ensures Parted(old(tables), tables, threads[to].bind, threads[to].priority, to)
    {
      assert Queued(to, {});
      Touch(to, threads[to].(oncpu := Some(c)), {});
      RemoveThread(to);
      Update(to, threads[to].(stat := Running));
    }

    /**
     * The heart of rt_schedule and rt_scheduler_do_irq_switch, with the lock held and its count at 1. A thread switched
     * from in an interrupt gives back the count of the interrupt. The lock passes to the thread switched to:
     * rt_cpus_lock_status_restore releases it when that thread does not count on it.
     */
    method Choose(c: nat, irq: bool) returns (switched: bool)
      requires Safe() && lock == Some(c) && !(tables[cpus].Empty() && tables[c].Empty())
      requires cpu[c].current in threads
      requires irq ==> threads[cpu[c].current].cpusNest == 1 && threads[cpu[c].current].critNest == 0
      requires irq ==> threads[cpu[c].current].schedNest == 1
      modifies this`tables, this`threads, this`cpu, this`lock
      ensures Safe() && BestRuns(c) && threads.Keys == old(threads).Keys
      ensures !switched ==> cpu == old(cpu) && lock == Some(c)
      ensures !switched ==> threads == old(threads)[cpu[c].current := old(threads)[cpu[c].current].(yielding := false)]
      ensures switched ==> Switched(c, old(cpu), old(threads), irq)
      ensures Decided(old(tables), tables, cpus, old(threads), threads, c, old(cpu[c].current), cpu[c].current)
      ensures exists t :: Eligible(old(threads), cpus, c, t)
    {
      assert RunsIn(threads, cpu, lock, c) && PlacedIn(threads, cpu, cpu[c].current);
      ghost var T := threads;
      var t := cpu[c].current;
      var to, h := Highest(c);
      ghost var ts := tables;
      assert PlacedIn(threads, cpu, to);
      var goOn := Leave(c, h);
      ghost var us := tables;
      if goOn {
        StayOn(c, h, T);
        switched := false;
      } else {
        SwitchOff(c, h, to, irq, T);
        JoinThenPart(ts, us, tables, cpus, c, h, to, t, T[t]);
        switched := true;
      }
      Settles(ts, tables, cpus, T, threads, c, h, to, t, cpu[c].current);
    }

    /** The thread that has been detached keeps CPU c. */
    method StayOn(c: nat, h: nat, ghost T: map<ThreadId, Thread>)
      requires Listed({}) && c < cpus == |cpu| && lock == Some(c) && Settled(T, cpu, lock)
      requires cpu[c].current in T && Keeps(T[cpu[c].current], c, h) && NobodyAbove(T, cpus, c, h)
      requires threads == T[cpu[c].current := LeftRow(T[cpu[c].current], c, h)]
      modifies this`threads
      ensures Safe() && BestRuns(c)
      ensures threads == T[cpu[c].current := T[cpu[c].current].(yielding := false)]
    {
      var t := cpu[c].current;
      assert RunsIn(T, cpu, lock, c);
      Touch(t, threads[t].(oncpu := Some(c)), {});
      Overwrite(T, t, LeftRow(T[t], c, h), threads[t]);
      RowSafe(T, cpu, lock, t, threads[t]);
      StayBest(T, cpus, c, h, t, threads[t]);
    }

    /** The thread that has been detached leaves CPU c to another one. */
    method SwitchOff(c: nat, h: nat, to: ThreadId, irq: bool, ghost T: map<ThreadId, Thread>)
      requires Listed({}) && c < cpus == |cpu| && lock == Some(c) && Settled(T, cpu, lock)
      requires cpu[c].current in T && to in T && T[to].stat == Ready && T[to].priority == h
      requires NobodyAbove(T, cpus, c, h)
      requires !Keeps(T[cpu[c].current], c, h) && T[cpu[c].current].stat != Ready
      requires threads == T[cpu[c].current := LeftRow(T[cpu[c].current], c, h)]
      requires CountsOk(T[cpu[c].current]) && T[cpu[c].current].cpusNest >= 1
      requires irq ==> T[cpu[c].current].critNest == 0 && T[cpu[c].current].cpusNest == 1
      requires irq ==> T[cpu[c].current].schedNest == 1
      modifies this`tables, this`threads, this`cpu, this`lock
      ensures Safe() && BestRuns(c) && Switched(c, old(cpu), T, irq) && cpu[c].current == to
      ensures TakesOver(T, threads, c, to, old(cpu[c].current))
      ensures Parted(old(tables), tables, T[to].bind, T[to].priority, to)
    {
      var t := cpu[c].current;
      ghost var left := LeftRow(T[t], c, h);
      SwitchTo(c, to, irq, T, left);
      SwitchBest(T, cpus, c, h, t, Returned(left, irq), to, T[to].(oncpu := Some(c), stat := Running));
    }

    /** The switch itself, from the state in which the thread that ran has left. */
    method SwitchTo(c: nat, to: ThreadId, irq: bool, ghost T: map<ThreadId, Thread>, ghost left: Thread)
      requires Listed({}) && c < cpus == |cpu| && lock == Some(c)
      requires cpu[c].current in T && to in T && T[to].stat == Ready
      requires threads == T[cpu[c].current := left] && left.oncpu == None && left.stat != Running && CountsOk(left)
      requires left.schedNest >= 1 && left.cpusNest >= 1 && (irq ==> left.critNest == 0 && left.cpusNest == 1)
      requires Settled(T, cpu, lock)
      modifies this`tables, this`threads, this`cpu, this`lock
      ensures Safe() && threads.Keys == T.Keys && cpu == old(cpu)[c := old(cpu)[c].(current := to)]
      ensures to != old(cpu)[c].current
      ensures threads == T[old(cpu)[c].current := Returned(left, irq)][to := T[to].(oncpu := Some(c), stat := Running)]
      ensures lock == if T[to].cpusNest == 0 then None else Some(c)
      ensures Parted(old(tables), tables, T[to].bind, T[to].priority, to)
    {
      var t := cpu[c].current;
      assert RunsIn(T, cpu, lock, c) && PlacedIn(T, cpu, t) && PlacedIn(T, cpu, to);
      Enter(c, to);
      if irq {
        Touch(t, threads[t].(cpusNest := threads[t].cpusNest - 1, schedNest := threads[t].schedNest - 1), {});
      }
      SwitchSafe(T, cpu, c, to, Returned(left, irq), threads);
      cpu := cpu[c := cpu[c].(current := to)];
      if threads[to].cpusNest == 0 {
        lock := None;
      }
    }

    /** The thread that ran, less the count of the interrupt. */
    function Returned(r: Thread, irq: bool): Thread {
      if irq && r.cpusNest > 0 && r.schedNest > 0 then
        r.(cpusNest := r.cpusNest - 1, schedNest := r.schedNest - 1)
      else r
    }

    /** What a switch leaves: another thread runs on c, and the one that ran keeps its counts, less those of
        an interrupt. */
    ghost predicate Switched(c: nat, was: seq<Cpu>, before: map<ThreadId, Thread>, irq: bool)
      reads `threads, `cpu, `lock
    {
      && c < |was| == |cpu| && cpu == was[c := was[c].(current := cpu[c].current)]
      && was[c].current in before && was[c].current in threads && cpu[c].current in threads
      && cpu[c].current != was[c].current && threads[cpu[c].current].stat == Running
      && threads[was[c].current].oncpu == None
      && threads[was[c].current].cpusNest == before[was[c].current].cpusNest - (if irq then 1 else 0)
      && threads[was[c].current].schedNest == before[was[c].current].schedNest - (if irq then 1 else 0)
      && threads[was[c].current].critNest == before[was[c].current].critNest
      && (lock == None <==> threads[cpu[c].current].cpusNest == 0)
    }

    // ----- The regions -----

    /** rt_schedule by the current thread of CPU c. */
    method Schedule(c: nat)
      requires Safe() && Enabled(c)
      modifies this`tables, this`threads, this`cpu, this`lock
      ensures Safe() && threads.Keys == old(threads).Keys
      ensures cpu[c].irqNest == old(cpu[c].irqNest) && cpu[c].current in threads && old(cpu[c].current) in old(threads)
      ensures old(cpu[c].irqNest) > 0 ==>
        cpu == old(cpu)[c := old(cpu[c]).(irqSwitch := true)] && threads == old(threads) && tables == old(tables)
      ensures old(cpu[c].irqNest) == 0 ==> cpu == old(cpu)[c := old(cpu[c]).(current := cpu[c].current)]
      ensures old(cpu[c].irqNest) == 0 && old(Unlocks(c)) ==>
        Decided(old(tables), tables, cpus, old(threads), threads, c, old(cpu[c].current), cpu[c].current)
      ensures old(cpu[c].irqNest) == 0 && (!old(Unlocks(c)) || (forall t :: !Eligible(old(threads), cpus, c, t))) ==>
        cpu == old(cpu) && threads == old(threads) && tables == old(tables)
      ensures old(cpu[c].irqNest) == 0 && old(Unlocks(c)) && MayStay(old(threads), cpus, c, old(cpu[c].current)) ==>
        cpu[c].current == old(cpu[c].current) && tables == old(tables)
      ensures var x, y := old(threads[cpu[c].current]), threads[old(cpu[c].current)];
              if cpu[c].current == old(cpu[c].current) then Back(x, y, 0)
              else y.cpusNest == x.cpusNest + 1 && y.schedNest == 1 && y.critNest == x.critNest
      ensures old(cpu[c].irqNest) == 0 && old(Unlocks(c)) && (exists t :: Eligible(old(threads), cpus, c, t)) ==>
        BestRuns(c)
      ensures cpu[c].current == old(cpu[c].current) ==> lock == old(lock)
    {
      assert RunsIn(threads, cpu, lock, c) && PlacedIn(threads, cpu, cpu[c].current);
      ghost var T := threads;
      HeadEligible(c);
      SomeHead(c);
      CpusLock(c);
      var t := cpu[c].current;
      if cpu[c].irqNest > 0 {
        Flag(c, true);
        GiveBack(c, T);
      } else {
        ghost var ts := tables;
        Decide(c, false, T);
        if Free(T[t]) && MayStay(T, cpus, c, t) && exists h, to :: Heads(ts, cpus, c, h, to) {
          StaysPut(ts, tables, cpus, T, threads, c, t, cpu[c].current);
        }
      }
    }

    /** The lock taken at the beginning of a region is given back; nothing else has happened. */
    method GiveBack(c: nat, ghost T: map<ThreadId, Thread>)
      requires Safe() && c < cpus && lock == Some(c) && cpu[c].current in T && CountsOk(T[cpu[c].current])
      requires threads == T[cpu[c].current := Locked(T[cpu[c].current])]
      modifies this`threads, this`lock
      ensures Safe() && threads == T && lock == if T[cpu[c].current].cpusNest == 0 then None else Some(c)
    {
      CpusUnlock(c);
      Overwrite(T, cpu[c].current, Locked(T[cpu[c].current]), T[cpu[c].current]);
    }

    /** The decision, seen from the state T before the lock was taken. */
    method ChooseFrom(c: nat, irq: bool, ghost T: map<ThreadId, Thread>) returns (switched: bool)
      requires Safe() && lock == Some(c) && !(tables[cpus].Empty() && tables[c].Empty())
      requires cpu[c].current in T && threads == T[cpu[c].current := Locked(T[cpu[c].current])]
      requires CountsOk(T[cpu[c].current]) && Free(T[cpu[c].current])
      requires irq ==> T[cpu[c].current].cpusNest == T[cpu[c].current].critNest
      modifies this`tables, this`threads, this`cpu, this`lock
      ensures Safe() && BestRuns(c) && threads.Keys == T.Keys && exists t :: Eligible(T, cpus, c, t)
      ensures cpu == old(cpu)[c := old(cpu[c]).(current := cpu[c].current)]
      ensures var t := old(cpu[c].current); var T1 := if switched then threads else T[t := T[t].(yielding := false)];
              Decided(old(tables), tables, cpus, T, T1, c, t, cpu[c].current)
      ensures if switched then
                cpu[c].current != old(cpu[c].current) &&
                Back(Locked(T[old(cpu[c].current)]), threads[old(cpu[c].current)], if irq then 1 else 0)
              else
                cpu == old(cpu) && lock == Some(c) &&
                threads == T[cpu[c].current := Locked(T[cpu[c].current].(yielding := false))]
    {
      ghost var ts, t := tables, cpu[c].current;
      ghost var row := Locked(T[t]);
      CountersDoNotRank(T, cpus, c, 0, t, row);
      switched := Choose(c, irq);
      ghost var u :| Eligible(T[t := row], cpus, c, u);
      assert Eligible(T, cpus, c, u);
      CountsBefore(ts, tables, cpus, T, row, threads, c, t, cpu[c].current);
      if !switched {
        Overwrite(T, t, row, threads[t]);
        CountsAfter(ts, tables, cpus, T, threads, T[t].(yielding := false), c, t);
        Overwrite(T, t, threads[t], T[t].(yielding := false));
      }
    }

    /** The second half of both regions, begun in a state with threads T: switch if nothing else keeps the thread, and
        give the lock back if not. */
    method Decide(c: nat, irq: bool, ghost T: map<ThreadId, Thread>)
      requires Safe() && c < cpus && lock == Some(c) && cpu[c].current in T && CountsOk(T[cpu[c].current])
      requires threads == T[cpu[c].current := Locked(T[cpu[c].current])]
      requires irq ==> T[cpu[c].current].cpusNest == T[cpu[c].current].critNest
      modifies this`tables, this`threads, this`cpu, this`lock
      ensures Safe() && threads.Keys == T.Keys && cpu == old(cpu)[c := old(cpu[c]).(current := cpu[c].current)]
      ensures Free(T[old(cpu[c].current)]) ==>
        Decided(old(tables), tables, cpus, T, threads, c, old(cpu[c].current), cpu[c].current)
      ensures !Free(T[old(cpu[c].current)]) || (forall t :: !Eligible(T, cpus, c, t)) ==>
        cpu == old(cpu) && threads == T && tables == old(tables)
      ensures Free(T[old(cpu[c].current)]) && (exists t :: Eligible(T, cpus, c, t)) ==>
        BestRuns(c)
      ensures cpu[c].current == old(cpu[c].current) ==>
        Back(T[cpu[c].current], threads[cpu[c].current], 0)
        && lock == if T[cpu[c].current].cpusNest == 0 then None else Some(c)
      ensures cpu[c].current != old(cpu[c].current) ==>
        Back(Locked(T[old(cpu[c].current)]), threads[old(cpu[c].current)], if irq then 1 else 0)
    {
      var t := cpu[c].current;
      ghost var U := T;
      assert PlacedIn(threads, cpu, t);
      CountersDoNotRank(T, cpus, c, 0, t, Locked(T[t]));
      if threads[t].schedNest == 1 {
        if !(tables[cpus].Empty() && tables[c].Empty()) {
          var switched := ChooseFrom(c, irq, T);
          if switched {
            return;
          }
          U := T[t := T[t].(yielding := false)];
          CountersDoNotRank(U, cpus, c, U[t].priority, t, Locked(U[t]));
        } else {
          NobodyEligible(c);
          HeadEligible(c);
        }
      }
      GiveBack(c, U);
    }

    /** Nothing but the lock of rt_schedule itself keeps the thread from being switched away. */
    ghost predicate Unlocks(c: nat)
      reads `threads, `cpu
    {
      c < |cpu| && cpu[c].current in threads && Free(threads[cpu[c].current])
    }

    lemma NobodyEligible(c: nat)
      requires Listed({}) && c < cpus && tables[cpus].Empty() && tables[c].Empty()
      ensures forall t :: !Eligible(threads, cpus, c, t)
    {
      tables[cpus].EmptyIs(levels);
      tables[c].EmptyIs(levels);
      forall t: ThreadId ensures !Eligible(threads, cpus, c, t) {
        if t in threads {
          assert Queued(t, {});
        }
      }
    }

    lemma SomeHead(c: nat)
      requires Listed({}) && c < cpus
      ensures (exists t :: Eligible(threads, cpus, c, t)) ==> exists h, to :: Heads(tables, cpus, c, h, to)
    {
      if tables[cpus].Empty() && tables[c].Empty() {
        NobodyEligible(c);
      } else {
        var h, t := Front(c);
      }
    }

    lemma Front(c: nat) returns (h: nat, t: ThreadId)
      requires Listed({}) && c < cpus && !(tables[cpus].Empty() && tables[c].Empty())
      ensures Heads(tables, cpus, c, h, t)
    {
      Picked(cpus, 0);
      Picked(c, 0);
      var g, l := Pick(tables[cpus].bitmap, 0), Pick(tables[c].bitmap, 0);
      h, t := if g < l then g else l, if g < l then tables[cpus].lists[g][0] else tables[c].lists[l][0];
    }

    lemma HeadEligible(c: nat)
      requires Listed({}) && c < cpus
      ensures forall h, to :: Heads(tables, cpus, c, h, to) ==>
                Eligible(threads, cpus, c, to) && threads[to].priority == h
    {
      forall h: nat, to: ThreadId | Heads(tables, cpus, c, h, to)
        ensures Eligible(threads, cpus, c, to) && threads[to].priority == h
      {
        assert Member(Home(tables, cpus, c, h), h, to);
      }
    }

    /** Interrupts reach CPU c: its thread holds no lock but those of its critical sections. */
    ghost predicate Interruptible(c: nat)
      reads `threads, `cpu
    {
      c < |cpu| && cpu[c].current in threads && threads[cpu[c].current].cpusNest == threads[cpu[c].current].critNest
    }

    /** rt_scheduler_do_irq_switch, at the end of an interrupt on CPU c. */
    method IrqSwitch(c: nat)
      requires Safe() && Enabled(c) && Interruptible(c)
      modifies this`tables, this`threads, this`cpu, this`lock
      ensures Safe() && threads.Keys == old(threads).Keys
      ensures cpu[c].current in threads && old(cpu[c].current) in old(threads)
      ensures !old(cpu[c].irqSwitch) ==> lock == old(lock)
      ensures !old(cpu[c].irqSwitch && cpu[c].irqNest == 0 && Unlocks(c)) ==>
        cpu == old(cpu) && threads == old(threads) && tables == old(tables)
      ensures old(cpu[c].irqSwitch && cpu[c].irqNest == 0 && Unlocks(c)) ==>
        cpu == old(cpu)[c := Cpu(cpu[c].current, 0, false)] &&
        Decided(old(tables), tables, cpus, old(threads), threads, c, old(cpu[c].current), cpu[c].current)
      ensures (forall t :: !Eligible(old(threads), cpus, c, t)) ==>
        cpu[c].current == old(cpu[c].current) && threads == old(threads) && tables == old(tables)
      ensures Back(old(threads[cpu[c].current]), threads[old(cpu[c].current)], 0)
      ensures old(cpu[c].irqSwitch && cpu[c].irqNest == 0 && Unlocks(c)) &&
              (exists t :: Eligible(old(threads), cpus, c, t)) ==>
                BestRuns(c)
      ensures cpu[c].current == old(cpu[c].current) ==> lock == old(lock)
    {
      assert RunsIn(threads, cpu, lock, c) && PlacedIn(threads, cpu, cpu[c].current);
      ghost var T := threads;
      CpusLock(c);
      var t := cpu[c].current;
      if !cpu[c].irqSwitch {
        GiveBack(c, T);
      } else if threads[t].schedNest == 1 && cpu[c].irqNest == 0 {
        Flag(c, false);
        Decide(c, true, T);
      } else {
        CpusUnlock(c);
      }
    }

    method IrqEnter(c: nat)
      requires Safe() && c < cpus
      modifies this`cpu
      ensures Safe() && cpu == old(cpu)[c := old(cpu[c]).(irqNest := old(cpu[c].irqNest) + 1)]
    {
      cpu := cpu[c := cpu[c].(irqNest := cpu[c].irqNest + 1)];
      SameProcessors(threads, old(cpu), cpu, lock);
    }

    method IrqLeave(c: nat)
      requires Safe() && c < cpus && cpu[c].irqNest > 0
      modifies this`cpu
      ensures Safe() && cpu == old(cpu)[c := old(cpu[c]).(irqNest := old(cpu[c].irqNest) - 1)]
    {
      cpu := cpu[c := cpu[c].(irqNest := cpu[c].irqNest - 1)];
      SameProcessors(threads, old(cpu), cpu, lock);
    }

    /** rt_enter_critical */
    method EnterCritical(c: nat)
      requires Safe() && Enabled(c)
      modifies this`threads, this`lock
      ensures Safe() && lock == Some(c) && cpu[c].current in old(threads) && cpu[c].current in threads
      ensures threads == old(threads)[cpu[c].current := threads[cpu[c].current]]
      ensures var r, s := old(threads)[cpu[c].current], threads[cpu[c].current];
              SameButCounts(s, r) && s.cpusNest == r.cpusNest + 1 && s.critNest == r.critNest + 1
              && s.schedNest == r.schedNest + (if old(lock) == None then 2 else 1)
    {
      assert RunsIn(threads, cpu, lock, c) && PlacedIn(threads, cpu, cpu[c].current);
      var r := threads[cpu[c].current];
      Count(c, r.cpusNest + 1, (if r.cpusNest == 0 then r.schedNest + 1 else r.schedNest) + 1, r.critNest + 1);
    }

    /** rt_exit_critical by a thread inside a critical section; tells whether it goes on to rt_schedule. */
    method ExitCritical(c: nat) returns (reschedules: bool)
      requires Safe() && c < cpus && cpu[c].current in threads && threads[cpu[c].current].critNest > 0
      modifies this`threads, this`lock
      ensures Safe() && Enabled(c) && cpu[c].current in old(threads) && cpu[c].current in threads
      ensures lock == if old(threads)[cpu[c].current].cpusNest > 1 then Some(c) else None
      ensures reschedules <==> threads[cpu[c].current].schedNest == 0
      ensures reschedules ==> lock == None
      ensures threads == old(threads)[cpu[c].current := threads[cpu[c].current]]
      ensures var r, s := old(threads)[cpu[c].current], threads[cpu[c].current];
              SameButCounts(s, r) && s.cpusNest == r.cpusNest - 1 && s.critNest == r.critNest - 1
              && s.schedNest == r.schedNest - (if lock == None then 2 else 1)
    {
      assert RunsIn(threads, cpu, lock, c) && PlacedIn(threads, cpu, cpu[c].current);
      var r := threads[cpu[c].current];
      var sched := r.schedNest - 1;
      if r.cpusNest == 1 {
        sched := sched - 1;
      }
      Count(c, r.cpusNest - 1, sched, r.critNest - 1);
      reschedules := sched == 0;
    }

    /** _cpu_preempt_disable */
    method PreemptDisable(c: nat)
      requires Safe() && c < cpus
      modifies this`threads, this`lock
      ensures Safe() && lock == old(lock) && !Unlocks(c) && cpu[c].current in old(threads)
      ensures var t := cpu[c].current;
              threads == old(threads)[t := old(threads)[t].(schedNest := old(threads)[t].schedNest + 1)]
    {
      assert RunsIn(threads, cpu, lock, c) && PlacedIn(threads, cpu, cpu[c].current);
      var r := threads[cpu[c].current];
      Count(c, r.cpusNest, r.schedNest + 1, r.critNest);
    }

    /** _cpu_preempt_enable by a thread that has disabled it; rt_schedule follows. */
    method PreemptEnable(c: nat)
      requires Safe() && c < cpus && cpu[c].current in threads
      requires var r := threads[cpu[c].current]; r.schedNest > r.critNest + if r.cpusNest > 0 then 1 else 0
      modifies this`threads, this`lock
      ensures Safe() && lock == old(lock) && cpu[c].current in old(threads)
      ensures var t := cpu[c].current;
              threads == old(threads)[t := old(threads)[t].(schedNest := old(threads)[t].schedNest - 1)]
    {
      assert RunsIn(threads, cpu, lock, c) && PlacedIn(threads, cpu, cpu[c].current);
      var r := threads[cpu[c].current];
      Count(c, r.cpusNest, r.schedNest - 1, r.critNest);
    }

    // ----- What a CPU does to a thread while it holds the lock -----

    /** rt_thread_resume, rt_thread_startup: ready, or running on when the thread has not left its CPU yet. */
    method Resume(c: nat, t: ThreadId)
      requires Safe() && lock == Some(c) && t in threads && (threads[t].stat == Suspended || threads[t].stat == Init)
      modifies this`tables, this`threads
      ensures Safe()
      ensures threads ==
        old(threads)[t := old(threads[t]).(stat := if old(threads[t]).oncpu.Some? then Running else Ready)]
      ensures var r := old(threads[t]); if r.oncpu.Some? then tables == old(tables)
                                        else Joined(old(tables), tables, r.bind, r.priority, t, r.yielding)
    {
      ghost var T := threads;
      NotListed(t);
      InsertThread(t);
      assert PlacedIn(T, cpu, t);
      RowSafe(T, cpu, lock, t, threads[t]);
      if threads[t].stat == Running {
        NeedNoList(t);
      }
    }

    /** rt_thread_suspend_with_flag: a ready thread, or the caller itself. */
    method Suspend(c: nat, t: ThreadId)
      requires Safe() && lock == Some(c) && t in threads
      requires threads[t].stat == Ready || (threads[t].stat == Running && cpu[c].current == t)
      modifies this`tables, this`threads
      ensures Safe() && threads == old(threads)[t := old(threads[t]).(stat := Suspended)]
      ensures Parted(old(tables), tables, threads[t].bind, threads[t].priority, t)
    {
      ghost var T := threads;
      RowSafe(T, cpu, lock, t, T[t].(stat := Suspended));
      assert Queued(t, {});
      RemoveThread(t);
      Update(t, threads[t].(stat := Suspended));
    }

    /** rt_thread_yield, and a time slice that has run out; rt_schedule follows. */
    method LetGo(c: nat)
      requires Safe() && lock == Some(c)
      modifies this`threads
      ensures Safe() && cpu[c].current in old(threads)
      ensures threads == old(threads)[cpu[c].current := old(threads)[cpu[c].current].(yielding := true)]
    {
      assert RunsIn(threads, cpu, lock, c) && PlacedIn(threads, cpu, cpu[c].current);
      var t := cpu[c].current;
      RowSafe(threads, cpu, lock, t, threads[t].(yielding := true));
      Touch(t, threads[t].(yielding := true), {});
    }

    /** RT_THREAD_CTRL_CHANGE_PRIORITY and rt_thread_cpu_bind: a ready thread moves to its new list. */
    method Move(c: nat, t: ThreadId, priority: nat, bind: nat)
      requires Safe() && lock == Some(c) && t in threads && priority < levels && bind <= cpus
      modifies this`tables, this`threads
      ensures Safe() && threads == old(threads)[t := old(threads[t]).(priority := priority, bind := bind)]
      ensures old(threads[t].stat) != Ready ==> tables == old(tables)
      ensures old(threads[t].stat) == Ready ==>
                exists us :: Parted(old(tables), us, old(threads[t].bind), old(threads[t].priority), t)
                             && Joined(us, tables, bind, priority, t, threads[t].yielding)
    {
      ghost var T := threads;
      var row := threads[t].(priority := priority, bind := bind);
      assert PlacedIn(T, cpu, t);
      RowSafe(T, cpu, lock, t, row);
      if threads[t].stat == Ready {
        RemoveThread(t);
        Update(t, row);
        InsertThread(t);
        Overwrite(T, t, row, row);
      } else {
        NotListed(t);
        Update(t, row);
      }
    }

    /** Sets or clears irq_switch_flag. */
    method Flag(c: nat, flag: bool)
      requires Safe() && c < cpus
      modifies this`cpu
      ensures Safe() && cpu == old(cpu)[c := old(cpu[c]).(irqSwitch := flag)]
    {
      cpu := cpu[c := cpu[c].(irqSwitch := flag)];
      SameProcessors(threads, old(cpu), cpu, lock);
    }

    // ----- Runs -----

    /** One region of one CPU, if that CPU is in a position to take it. */
    method Step(e: Event)
      requires Safe() && e.c < cpus
      modifies this`tables, this`threads, this`cpu, this`lock
      ensures Safe()
      ensures Does(e, cpus, levels, old(tables), old(threads), old(cpu), old(lock), tables, threads, cpu, lock)
    {
      var c := e.c;
      assert RunsIn(threads, cpu, lock, c);
      var r := threads[cpu[c].current];
      if e.Nest? {
        IrqEnter(c);
      } else if e.Unnest? {
        if cpu[c].irqNest > 0 {
          IrqLeave(c);
        }
      } else if e.Pin? {
        PreemptDisable(c);
      } else if e.Unpin? {
        if r.schedNest > r.critNest + if r.cpusNest > 0 then 1 else 0 {
          PreemptEnable(c);
        }
      } else if lock == None || lock == Some(c) {
        LockedStep(e, r);
      }
    }

    /** A region that needs the lock over all CPUs. */
    method LockedStep(e: Event, r: Thread)
      requires Safe() && e.c < cpus && Enabled(e.c) && cpu[e.c].current in threads && r == threads[cpu[e.c].current]
      requires !e.Nest? && !e.Unnest? && !e.Pin? && !e.Unpin?
      modifies this`tables, this`threads, this`cpu, this`lock
      ensures Safe()
      ensures Does(e, cpus, levels, old(tables), old(threads), old(cpu), old(lock), tables, threads, cpu, lock)
    {
      var c := e.c;
      match e
      case Reschedule(_) => Schedule(c);
      case EndOfIrq(_) => if r.cpusNest == r.critNest { IrqSwitch(c); }
      case Lock(_) => CpusLock(c);
      case Unlock(_) => if r.cpusNest > r.critNest { CpusUnlock(c); }
      case Enter(_) => EnterCritical(c);
      case Exit(_) => if r.critNest > 0 { var again := ExitCritical(c); }
      case Wake(_, t) =>
        if lock == Some(c) && t in threads && (threads[t].stat == Suspended || threads[t].stat == Init) {
          Resume(c, t);
        }
      case Sleep(_, t) =>
        if lock == Some(c) && t in threads
           && (threads[t].stat == Ready || (threads[t].stat == Running && cpu[c].current == t)) {
          Suspend(c, t);
        }
      case Yield(_) => if lock == Some(c) { LetGo(c); }
      case Change(_, t, p, b) =>
        if lock == Some(c) && t in threads && p < levels && b <= cpus {
          Move(c, t, p, b);
        }
    }

    /** The scheduler is safe after every run, whatever the CPUs do and in whatever order they get the lock. */
    method Run(script: seq<Event>)
      requires Safe() && forall e :: e in script ==> e.c < cpus
      modifies this`tables, this`threads, this`cpu, this`lock
      ensures Safe()
    {
      for i := 0 to |script|
        invariant Safe()
      {
        assert script[i] in script;
        Step(script[i]);
      }
    }
  }

  datatype Event =
    | Reschedule(c: nat) | EndOfIrq(c: nat) | Nest(c: nat) | Unnest(c: nat)
    | Lock(c: nat) | Unlock(c: nat) | Enter(c: nat) | Exit(c: nat) | Pin(c: nat) | Unpin(c: nat)
    | Wake(c: nat, t: ThreadId) | Sleep(c: nat, t: ThreadId) | Yield(c: nat)
    | Change(c: nat, t: ThreadId, priority: nat, bind: nat)

  /** What a region does if its CPU is in a position to take it: the lock is free or its own, and the thread's counts
      allow it. */
  ghost predicate Does(e: Event, g: nat, levels: nat,
                       ts: seq<Table>, T: map<ThreadId, Thread>, cpu: seq<Cpu>, lock: Option<nat>,
                       us: seq<Table>, U: map<ThreadId, Thread>, cpu1: seq<Cpu>, lock1: Option<nat>)
  {
    && e.c < |cpu| == |cpu1| && cpu[e.c].current in T && cpu[e.c].current in U
    && var c, t := e.c, cpu[e.c].current;
       var r, s, able, mine := T[t], U[t], lock == None || lock == Some(c), lock == Some(c);
       match e
       case Nest(_) => cpu1[c].irqNest == cpu[c].irqNest + 1
       case Unnest(_) => cpu[c].irqNest > 0 ==> cpu1[c].irqNest == cpu[c].irqNest - 1
       case Pin(_) => s.schedNest == r.schedNest + 1
       case Unpin(_) =>
         r.schedNest > r.critNest + (if r.cpusNest > 0 then 1 else 0) ==> s.schedNest == r.schedNest - 1
       case Reschedule(_) =>
         able && Free(r) && cpu[c].irqNest == 0 ==> Decided(ts, us, g, T, U, c, t, cpu1[c].current)
       case EndOfIrq(_) =>
         able && Free(r) && cpu[c].irqNest == 0 && cpu[c].irqSwitch && r.cpusNest == r.critNest ==>
           Decided(ts, us, g, T, U, c, t, cpu1[c].current)
       case Lock(_) => able ==> lock1 == Some(c) && s.cpusNest == r.cpusNest + 1
       case Unlock(_) => able && r.cpusNest > r.critNest ==> s.cpusNest == r.cpusNest - 1
       case Enter(_) => able ==> lock1 == Some(c) && s.critNest == r.critNest + 1
       case Exit(_) => able && r.critNest > 0 ==> s.critNest == r.critNest - 1
       case Wake(_, u) =>
         mine && u in T && (T[u].stat == Suspended || T[u].stat == Init) ==>
           u in U && U[u].stat == if T[u].oncpu.Some? then Running else Ready
       case Sleep(_, u) =>
         mine && u in T && (T[u].stat == Ready || (T[u].stat == Running && u == t)) ==> u in U && U[u].stat == Suspended
       case Yield(_) => mine ==> s.yielding
       case Change(_, u, p, b) =>
         mine && u in T && p < levels && b <= g ==> u in U && U[u].priority == p && U[u].bind == b
  }

  /** What the invariant asks of a CPU depends on its current thread only. */
  lemma SameProcessors(T: map<ThreadId, Thread>, cpu: seq<Cpu>, cpu1: seq<Cpu>, lock: Option<nat>)
    requires Settled(T, cpu, lock) && |cpu1| == |cpu|
    requires forall c :: 0 <= c < |cpu| ==> cpu1[c].current == cpu[c].current
    ensures Settled(T, cpu1, lock)
  {
    forall t | t in T ensures PlacedIn(T, cpu1, t) {
      assert PlacedIn(T, cpu, t);
    }
    forall c | 0 <= c < |cpu| ensures RunsIn(T, cpu1, lock, c) {
      assert RunsIn(T, cpu, lock, c);
    }
  }
}
