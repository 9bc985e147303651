/** The uniprocessor scheduler (rt-thread/src/scheduler_up.c). */
module Scheduler {
  import opened Lists
  import opened ReadyTable

  datatype Stat = Init | Ready | Running | Suspended

  datatype Thread = Thread(priority: nat, stat: Stat, yielding: bool)

  class Scheduler {
    const levels: nat
    var ready: Table
    var threads: map<ThreadId, Thread>
    var current: Option<ThreadId>
    var currentPriority: nat
    var lockNest: int

    /** Who is in a list is ready at that priority. */
    ghost predicate Member(p: nat, t: ThreadId)
      reads `ready, `threads
    {
      ready.Has(p, t) ==> t in threads && threads[t].priority == p && threads[t].stat == Ready
    }

    ghost predicate ThreadOk(t: ThreadId, x: set<ThreadId>)
      requires t in threads
      reads `ready, `threads
    {
      && threads[t].priority < levels
      && (t in x ==> !ready.Has(threads[t].priority, t))
      && (t !in x && threads[t].stat == Ready ==> ready.Has(threads[t].priority, t))
    }

    /** Lists, bitmap and states agree, except that the threads of x are in no list whatever their state says. */
    ghost predicate Listed(x: set<ThreadId>)
      reads `ready, `threads
    {
      && ready.Valid(levels)
      && (forall p: nat, t: ThreadId {:trigger Member(p, t)} :: Member(p, t))
      && (forall t {:trigger ThreadOk(t, x)} :: t in threads ==> ThreadOk(t, x))
    }

    /** Every READY thread is in its list, nobody else is, and the running thread is the current one. */
    ghost predicate Valid()
      reads this
    {
      && Listed({})
      && (forall t :: t in threads && threads[t].stat == Running ==> current == Some(t))
      && (current.Some? ==> current.value in threads && threads[current.value].stat != Ready)
      && lockNest >= 0
    }

    /** Whoever is ready waits for a thread that is at least as urgent. */
    ghost predicate BestRuns()
      reads `threads, `current
    {
      current.Some? && current.value in threads &&
      forall t :: t in threads && threads[t].stat == Ready ==> threads[current.value].priority <= threads[t].priority
    }

    /** rt_system_scheduler_init */
    constructor (n: nat, ts: map<ThreadId, Thread>)
      requires 0 < n <= 256
      requires forall t :: t in ts ==> ts[t].priority < n && ts[t].stat == Init
      ensures Valid() && levels == n && threads == ts && current == None && lockNest == 0
    {
      levels := n;
      ready := Fresh(n);
      threads := ts;
      current, currentPriority, lockNest := None, 0, 0;
      new;
      FreshIs(n);
    }

    /** Puts thread t, which is in no list, on its ready list; the current thread is only marked running. */
    method InsertThread(t: ThreadId)
      requires t in threads && Listed({t})
      modifies this`ready, this`threads
      ensures if current == Some(t) then Listed({t}) else Listed({})
      ensures threads == old(threads)[t := old(threads[t]).(stat := if current == Some(t) then Running else Ready)]
      ensures |old(ready.lists)| == levels && old(threads[t].priority) < levels
      ensures var p := old(threads[t].priority);
              ready.lists == if current == Some(t) then old(ready.lists)
                             else old(ready.lists)[p := if old(threads[t].yielding) then old(ready.lists)[p] + [t]
                                                       else [t] + old(ready.lists)[p]]
    {
      assert ThreadOk(t, {t});
      var p := threads[t].priority;
      if current == Some(t) {
        threads := threads[t := threads[t].(stat := Running)];
      } else {
        ready.InsertIs(levels, p, t, threads[t].yielding);
        threads := threads[t := threads[t].(stat := Ready)];
        ready := ready.Insert(p, t, threads[t].yielding);
      }
      forall q: nat, u: ThreadId ensures Member(q, u) {
        assert old(Member(q, u));
      }
      ghost var x := if current == Some(t) then {t} else {};
      forall u | u in threads ensures ThreadOk(u, x) {
        assert old(ThreadOk(u, {t}));
      }
    }

    /** Takes thread t off its ready list; a thread that is in no ready list stays as it is. */
    method RemoveThread(t: ThreadId)
      requires t in threads && Listed({})
      modifies this`ready
      ensures Listed({t})
      ensures |old(ready.lists)| == levels && threads[t].priority < levels
      ensures ready.lists == old(ready.lists)[threads[t].priority := Without(old(ready.lists)[threads[t].priority], t)]
    {
      assert ThreadOk(t, {});
      ready.RemoveIs(levels, threads[t].priority, t);
      ready := ready.Remove(threads[t].priority, t);
      forall q: nat, u: ThreadId ensures Member(q, u) {
        assert old(Member(q, u));
      }
      forall u | u in threads ensures ThreadOk(u, {t}) {
        assert old(ThreadOk(u, {}));
      }
    }

    /** The most urgent ready thread: the head of the list __rt_ffs points at. */
    method Highest() returns (t: ThreadId, h: nat)
      requires Listed({}) && !ready.Empty()
      ensures h < levels && ready.lists[h] != [] && t == ready.lists[h][0]
      ensures forall p :: 0 <= p < h ==> ready.lists[p] == []
      ensures t in threads && threads[t].priority == h && threads[t].stat == Ready
    {
      ready.BestIs(levels);
      h := ready.Best();
      t := ready.lists[h][0];
      assert ready.Has(h, t) && Member(h, t);
    }

    /** Nobody is ready when the bitmap is empty. */
    lemma NobodyReady()
      requires Listed({}) && ready.Empty()
      ensures forall t :: t in threads ==> threads[t].stat != Ready
    {
      ready.EmptyIs(levels);
      forall t | t in threads ensures threads[t].stat != Ready {
        assert ThreadOk(t, {});
      }
    }

    /** Who is ready is at least as far down as the first list that is not empty. */
    lemma ReadyBehind(h: nat, x: set<ThreadId>, t: ThreadId)
      requires Listed(x) && h < levels && forall p :: 0 <= p < h ==> ready.lists[p] == []
      requires t in threads && t !in x && threads[t].stat == Ready
      ensures h <= threads[t].priority
    {
      assert ThreadOk(t, x);
    }

    /** The current thread goes on when it runs, nobody is more urgent, and no equal has been let past. */
    ghost predicate Stays(c: Thread, h: nat) {
      c.stat == Running && (c.priority < h || (c.priority == h && !c.yielding))
    }

    /** The ready lists after a switch from c, thread number id, to the head of list h. */
    ghost function Switched(lists: seq<seq<ThreadId>>, h: nat, id: ThreadId, c: Thread): seq<seq<ThreadId>>
      requires h < |lists| && lists[h] != [] && c.priority < |lists|
    {
      var rest := lists[h := lists[h][1..]];
      if c.stat == Running then rest[c.priority := [id] + rest[c.priority]] else rest
    }

    /** The head of the most urgent list that is not empty. */
    ghost predicate Heads(lists: seq<seq<ThreadId>>, h: nat, t: ThreadId) {
      && h < |lists| && lists[h] != [] && lists[h][0] == t
      && forall p :: 0 <= p < h ==> lists[p] == []
    }

    /** Whether c, with row x, has to leave the processor to somebody who is ready at h: it no longer runs, or is less
        urgent, or yields to an equal. */
    ghost predicate GivesWay(x: Thread, h: nat) {
      x.stat == Running ==> h < x.priority || (h == x.priority && x.yielding)
    }

    /** A thread goes on where it is, and nobody has moved. */
    ghost predicate GoesOn(lists: seq<seq<ThreadId>>, c: ThreadId)
      reads `current, `ready
    {
      current == Some(c) && ready.lists == lists
    }

    /** The head of list h runs now. Whoever it takes over from is ready at the front of its list, if it still ran;
        the others have kept their places. */
    ghost predicate TakesOver(lists: seq<seq<ThreadId>>, h: nat, to: ThreadId, c: ThreadId, x: Thread)
      reads `current, `ready, `threads
    {
      && current == Some(to) && to in threads && threads[to].stat == Running
      && c in threads && (x.stat == Running ==> threads[c].stat == Ready && !threads[c].yielding)
      && |ready.lists| == |lists|
      && forall p :: 0 <= p < |lists| ==>
           ready.lists[p] == (if x.stat == Running && p == x.priority then [c] else []) +
                             (if p == h && lists[p] != [] then lists[p][1..] else lists[p])
    }

    /** Who runs after a decision between c, which had the row x, and the lists. */
    ghost predicate Decided(lists: seq<seq<ThreadId>>, c: ThreadId, x: Thread)
      reads `current, `ready, `threads
    {
      forall h, t :: Heads(lists, h, t) ==>
        if GivesWay(x, h) then TakesOver(lists, h, t, c, x) else GoesOn(lists, c)
    }

    /** The first list that is not empty has somebody who is ready. */
    lemma FirstIsReady()
      requires Listed({}) && !ready.Empty()
      ensures exists h, t ::
                Heads(ready.lists, h, t) && t in threads && threads[t].stat == Ready && threads[t].priority == h
    {
      ready.BestIs(levels);
      var h := ready.Best();
      var t := ready.lists[h][0];
      assert ready.Has(h, t) && Member(h, t);
      assert Heads(ready.lists, h, t);
    }

    lemma ChosenDecides(h: nat, lists: seq<seq<ThreadId>>, was: map<ThreadId, Thread>, c: ThreadId)
      requires Chosen(h, lists, was, c) && lists[h][0] in was && lists[h][0] != c
      ensures Decided(lists, c, was[c])
    {
      forall g, t | Heads(lists, g, t)
        ensures if GivesWay(was[c], g) then TakesOver(lists, g, t, c, was[c]) else GoesOn(lists, c)
      {
        assert g == h;
      }
    }

    /** rt_schedule */
    method Schedule()
      requires Valid() && current.Some?
      modifies this
      ensures Valid() && lockNest == old(lockNest) && current.Some? && threads.Keys == old(threads).Keys
      ensures lockNest != 0 || (forall t :: t in old(threads) ==> old(threads)[t].stat != Ready)
              ==> current == old(current) && threads == old(threads) && ready.lists == old(ready.lists)
      ensures lockNest == 0 && (exists t :: t in old(threads) && old(threads)[t].stat == Ready) ==>
                BestRuns() && threads[current.value].stat == Running
                && exists h :: Chosen(h, old(ready.lists), old(threads), old(current.value))
      ensures lockNest == 0 ==> Decided(old(ready.lists), old(current.value), old(threads[current.value]))
      ensures current != old(current) ==> currentPriority == threads[current.value].priority
      ensures var c, x := old(current.value), old(threads[current.value]);
              lockNest == 0 && x.stat == Running && !x.yielding
              && (forall t :: t in old(threads) && old(threads)[t].stat == Ready ==>
                  x.priority <= old(threads)[t].priority)
              ==> current == Some(c) && ready.lists == old(ready.lists)
    {
      if lockNest == 0 {
        if !ready.Empty() {
          FirstIsReady();
          Pick();
        } else {
          ready.EmptyIs(levels);
          NobodyReady();
        }
      }
    }

    /** What rt_schedule decides: h is the best list that is not empty, and the current thread stays or gives way to
        its head. */
    ghost predicate Chosen(h: nat, lists: seq<seq<ThreadId>>, was: map<ThreadId, Thread>, c: ThreadId)
      reads this
    {
      && h < |lists| && lists[h] != [] && (forall p :: 0 <= p < h ==> lists[p] == [])
      && c in was && was[c].priority < |lists|
      && if Stays(was[c], h) then
           && current == Some(c) && ready.lists == lists
           && threads == was[c := was[c].(yielding := false)]
         else
           && current == Some(lists[h][0]) && ready.lists == Switched(lists, h, c, was[c])
           && threads == SwitchedRows(was, c, lists[h][0])
    }

    /** A thread that gives way is ready again, without its yield flag; its successor runs. */
    ghost function SwitchedRows(was: map<ThreadId, Thread>, c: ThreadId, to: ThreadId): map<ThreadId, Thread>
      requires c in was
    {
      var left := if was[c].stat == Running then was[c := was[c].(stat := Ready, yielding := false)] else was;
      if to in left then left[to := left[to].(stat := Running)] else left
    }

    ghost function Letting(was: map<ThreadId, Thread>, c: ThreadId): map<ThreadId, Thread> {
      if c in was then was[c := was[c].(yielding := true)] else was
    }

    /** The unlocked part of rt_schedule with somebody ready. */
    method Pick()
      requires Valid() && current.Some? && !ready.Empty()
      modifies this`ready, this`threads, this`current, this`currentPriority
      ensures Valid() && current.Some? && threads.Keys == old(threads).Keys
      ensures BestRuns() && threads[current.value].stat == Running
      ensures exists t :: t in old(threads) && old(threads)[t].stat == Ready
      ensures exists h :: Chosen(h, old(ready.lists), old(threads), old(current.value))
      ensures Decided(old(ready.lists), old(current.value), old(threads[current.value]))
      ensures current != old(current) ==> currentPriority == threads[current.value].priority
    {
      var needInsert := false;
      var to, h := Highest();
      var c := current.value;
      assert ThreadOk(c, {});
      if threads[c].stat == Running {
        if threads[c].priority < h {
          to := c;
        } else if threads[c].priority == h && !threads[c].yielding {
          to := c;
        } else {
          needInsert := true;
        }
        NotListed(c);
        Update(c, threads[c].(yielding := false));
      }
      if to != c {
        SwitchTo(to, h, needInsert);
      } else {
        Remain(h);
      }
      assert Chosen(h, old(ready.lists), old(threads), old(current.value));
      ChosenDecides(h, old(ready.lists), old(threads), c);
    }

    /** A thread that is not ready is in no list. */
    lemma NotListed(c: ThreadId)
      requires Listed({}) && c in threads && threads[c].stat != Ready
      ensures threads[c].priority < levels && !ready.Has(threads[c].priority, c) && Listed({c})
    {
      assert ThreadOk(c, {}) && Member(threads[c].priority, c);
      forall u | u in threads ensures ThreadOk(u, {c}) {
        assert ThreadOk(u, {});
      }
    }

    /** Writes the row of a thread that is in no list. */
    method Update(t: ThreadId, row: Thread)
      requires t in threads && Listed({t}) && row.priority < levels
      modifies this`threads
      ensures Listed({t}) && threads == old(threads)[t := row]
      ensures row.stat != Ready ==> Listed({})
    {
      assert ThreadOk(t, {t});
      threads := threads[t := row];
      forall q: nat, u: ThreadId ensures Member(q, u) && (u == t ==> !ready.Has(q, u)) {
        assert old(Member(q, u));
      }
      forall u | u in threads ensures ThreadOk(u, {t}) && (row.stat != Ready ==> ThreadOk(u, {})) {
        assert old(ThreadOk(u, {t}));
      }
    }

    /** The branch in which the current thread goes on: it is taken off a list it is not in. */
    method Remain(h: nat)
      requires Valid() && current.Some? && threads[current.value].stat == Running
      requires h < levels && threads[current.value].priority <= h && forall p :: 0 <= p < h ==> ready.lists[p] == []
      modifies this`ready, this`threads
      ensures Valid() && BestRuns() && ready.lists == old(ready.lists) && threads == old(threads)
    {
      var c := current.value;
      NotListed(c);
      RemoveThread(c);
      Update(c, threads[c].(stat := Running));
      forall t | t in threads && threads[t].stat == Ready ensures threads[c].priority <= threads[t].priority {
        ReadyBehind(h, {}, t);
      }
    }

    /** The branch in which the head of list h takes over. */
    method SwitchTo(to: ThreadId, h: nat, needInsert: bool)
      requires Valid() && current.Some? && h < levels && ready.lists[h] != [] && to == ready.lists[h][0]
      requires to in threads && threads[to].priority == h && threads[to].stat == Ready
      requires forall p :: 0 <= p < h ==> ready.lists[p] == []
      requires needInsert <==> threads[current.value].stat == Running
      requires needInsert ==> threads[current.value].priority >= h && !threads[current.value].yielding
      modifies this`ready, this`threads, this`current, this`currentPriority
      ensures Valid() && threads.Keys == old(threads).Keys && current == Some(to) && currentPriority == h
      ensures BestRuns() && threads[to].stat == Running
      ensures old(threads[current.value].priority) < |old(ready.lists)|
      ensures ready.lists == Switched(old(ready.lists), h, old(current.value), old(threads[current.value]))
      ensures threads == SwitchedRows(old(threads), old(current.value), to)
    {
      forall t | t in threads && threads[t].stat == Ready ensures h <= threads[t].priority {
        ReadyBehind(h, {}, t);
      }
      currentPriority := h;
      var from := current.value;
      NotListed(from);
      current := Some(to);
      if needInsert {
        InsertThread(from);
      }
      RemoveThread(to);
      Update(to, threads[to].(stat := Running));
    }

    method EnterCritical()
      requires Valid()
      modifies this`lockNest
      ensures Valid() && lockNest == old(lockNest) + 1
    {
      lockNest := lockNest + 1;
    }

    /** Leaving the outermost critical section schedules what has been held up. */
    method ExitCritical()
      requires Valid()
      modifies this
      ensures Valid() && threads.Keys == old(threads).Keys && (current.Some? <==> old(current.Some?))
      ensures lockNest == if old(lockNest) > 0 then old(lockNest) - 1 else 0
      ensures lockNest > 0 ==> current == old(current) && threads == old(threads) && ready.lists == old(ready.lists)
      ensures lockNest == 0 && current.Some? && (exists t :: t in old(threads) && old(threads)[t].stat == Ready) ==>
        BestRuns()
      ensures lockNest == 0 && current.Some? ==>
        Decided(old(ready.lists), old(current.value), old(threads[current.value]))
    {
      lockNest := lockNest - 1;
      if lockNest <= 0 {
        lockNest := 0;
        if current.Some? {
          Schedule();
        }
      }
    }

    /** t is the last of its list when it has used up its time, else the first; the other lists are as before. */
    ghost predicate Joined(lists: seq<seq<ThreadId>>, p: nat, t: ThreadId, last: bool)
      reads `ready
    {
      && p < |lists| == |ready.lists| && (forall q :: 0 <= q < |lists| && q != p ==> ready.lists[q] == lists[q])
      && |ready.lists[p]| == |lists[p]| + 1
      && if last then ready.lists[p][..|lists[p]|] == lists[p] && ready.lists[p][|lists[p]|] == t
         else ready.lists[p][0] == t && ready.lists[p][1..] == lists[p]
    }

    /** rt_thread_resume and rt_thread_startup: a thread that is in no list becomes ready, or goes on running. */
    method Resume(t: ThreadId)
      requires Valid() && t in threads && threads[t].stat != Ready
      modifies this`ready, this`threads
      ensures Valid() &&
        threads == old(threads)[t := old(threads[t]).(stat := if current == Some(t) then Running else Ready)]
      ensures current != Some(t) ==> Joined(old(ready.lists), threads[t].priority, t, threads[t].yielding)
      ensures current == Some(t) ==> ready.lists == old(ready.lists)
    {
      NotListed(t);
      InsertThread(t);
      if current == Some(t) {
        Update(t, threads[t]);
      }
    }

    /** rt_thread_suspend_with_flag: off the ready list; the current thread keeps the processor until it schedules. */
    method Suspend(t: ThreadId)
      requires Valid() && t in threads && (threads[t].stat == Ready || threads[t].stat == Running)
      modifies this`ready, this`threads
      ensures Valid() && threads == old(threads)[t := old(threads[t]).(stat := Suspended)]
      ensures threads[t].priority < |old(ready.lists)|
      ensures ready.lists == old(ready.lists)[threads[t].priority := Without(old(ready.lists)[threads[t].priority], t)]
    {
      RemoveThread(t);
      Update(t, threads[t].(stat := Suspended));
    }

    /** The part of the priority change for a ready thread. */
    method Requeue(t: ThreadId, p: nat)
      requires Valid() && t in threads && p < levels && threads[t].stat == Ready
      modifies this`ready, this`threads
      ensures Listed({}) && threads == old(threads)[t := old(threads[t]).(priority := p)]
      ensures old(threads[t].priority) < |old(ready.lists)|
      ensures var q := old(threads[t].priority);
              Joined(old(ready.lists)[q := Without(old(ready.lists)[q], t)], p, t, threads[t].yielding)
    {
      RemoveThread(t);
      ghost var lists := ready.lists;
      Update(t, threads[t].(priority := p));
      InsertThread(t);
      assert Joined(lists, p, t, threads[t].yielding);
    }

    /** RT_THREAD_CTRL_CHANGE_PRIORITY: a ready thread moves to its new list. */
    method ChangePriority(t: ThreadId, p: nat)
      requires Valid() && t in threads && p < levels
      modifies this`ready, this`threads
      ensures Valid() && threads == old(threads)[t := old(threads[t]).(priority := p)]
      ensures old(threads[t].stat) != Ready ==> ready.lists == old(ready.lists)
      ensures old(threads[t].stat) == Ready ==>
                old(threads[t].priority) < |old(ready.lists)|
                && var q := old(threads[t].priority);
                   Joined(old(ready.lists)[q := Without(old(ready.lists)[q], t)], p, t, threads[t].yielding)
    {
      if threads[t].stat == Ready {
        Requeue(t, p);
      } else {
        NotListed(t);
        Update(t, threads[t].(priority := p));
      }
    }

    /** rt_thread_yield, and a time slice that has run out: let an equal go first. */
    method Yield()
      requires Valid() && current.Some? && threads[current.value].stat == Running && lockNest == 0
      modifies this
      ensures Valid() && current.Some? && lockNest == 0 && threads.Keys == old(threads).Keys
      ensures (exists t :: t in old(threads) && old(threads)[t].stat == Ready) ==>
                threads[current.value].stat == Running
                && exists h ::
                    Chosen(h, old(ready.lists), Letting(old(threads), old(current.value)), old(current.value))
      ensures Decided(old(ready.lists), old(current.value), old(threads[current.value]).(yielding := true))
      ensures var c, p := old(current.value), old(threads[current.value].priority);
              p < |old(ready.lists)| && old(ready.lists)[p] != []
              && (forall q :: 0 <= q < p ==> old(ready.lists)[q] == [])
              ==> current == Some(old(ready.lists)[p][0]) && |ready.lists| == |old(ready.lists)|
                  && ready.lists[p] == [c] + old(ready.lists)[p][1..]
    {
      var c := current.value;
      NotListed(c);
      Update(c, threads[c].(yielding := true));
      ghost var was := threads;
      assert was == Letting(old(threads), c);
      Schedule();
      ghost var p := was[c].priority;
      assert p < |old(ready.lists)| && old(ready.lists)[p] != [] ==>
        Heads(old(ready.lists), p, old(ready.lists)[p][0]) || exists q :: 0 <= q < p && old(ready.lists)[q] != [];
      if t :| t in old(threads) && old(threads)[t].stat == Ready {
        assert was[t].stat == Ready;
      }
    }

    /**
     * The flag is cleared before the thread is put back, so it goes to the front of its list: when its successor
     * yields in turn the first thread is back, and the others of their priority have not moved.
     */
    method YieldTwice() returns (between: Option<ThreadId>)
      requires Valid() && current.Some? && threads[current.value].stat == Running && lockNest == 0
      requires var p := threads[current.value].priority;
               p < levels == |ready.lists| && ready.lists[p] != [] && forall q :: 0 <= q < p ==> ready.lists[q] == []
      modifies this
      ensures Valid() && current == old(current) && ready.lists == old(ready.lists)
      ensures between == Some(old(ready.lists[threads[current.value].priority][0])) && between != current
    {
      ghost var c, p := current.value, threads[current.value].priority;
      assert Member(p, ready.lists[p][0]) && ready.Has(p, ready.lists[p][0]);
      Yield();
      between := current;
      assert ready.lists == old(ready.lists)[p := [c] + old(ready.lists)[p][1..]];
      assert ready.lists[p][0] == c;
      Yield();
      assert [old(ready.lists)[p][0]] + old(ready.lists)[p][1..] == old(ready.lists)[p];
    }
  }
}
