/**
 * The page allocator under the slab heap (rt-thread/src/slab.c:211-294): runs of free pages in a singly linked list,
 * each run described by its first page. Pages are numbered.
 */
module SlabPages {
  import opened Lists

  /** The null pointer among page numbers. */
  const NIL := -1

  datatype Run = Run(start: nat, count: nat) {
    function End(): nat {
      start + count
    }
  }

  // ----- Run lists and the pages they stand for -----

  ghost predicate Covers(runs: seq<Run>, p: int, i: int) {
    0 <= i < |runs| && runs[i].start <= p < runs[i].End()
  }

  /** Page p is free. */
  ghost predicate In(runs: seq<Run>, p: int) {
    exists i :: Covers(runs, p, i)
  }

  ghost predicate Within(a: int, n: int, p: int) {
    a <= p < a + n
  }

  /** All of the n pages from a on are free. */
  ghost predicate AllIn(runs: seq<Run>, a: int, n: int) {
    forall p :: Within(a, n, p) ==> In(runs, p)
  }

  ghost predicate Gap(runs: seq<Run>, i: int, j: int)
    requires 0 <= i < j < |runs|
  {
    runs[i].End() < runs[j].start
  }

  /** Address-sorted and maximally coalesced: between two runs at least one page is in use. */
  ghost predicate Canonical(runs: seq<Run>) {
    && (forall i :: 0 <= i < |runs| ==> runs[i].count > 0)
    && (forall i, j {:trigger Gap(runs, i, j)} :: 0 <= i < j < |runs| ==> Gap(runs, i, j))
  }

  lemma TailCanonical(runs: seq<Run>)
    requires Canonical(runs) && runs != []
    ensures Canonical(runs[1..])
    ensures forall p :: In(runs, p) <==> Within(runs[0].start, runs[0].count, p) || In(runs[1..], p)
    ensures forall p :: In(runs[1..], p) ==> p > runs[0].End()
  {
    var r := runs[1..];
    forall i, j | 0 <= i < j < |r| ensures Gap(r, i, j) {
      assert Gap(runs, i + 1, j + 1);
    }
    forall p ensures In(runs, p) <==> Within(runs[0].start, runs[0].count, p) || In(r, p) {
      if In(runs, p) {
        var i :| Covers(runs, p, i);
        assert i > 0 ==> Covers(r, p, i - 1);
      }
      if Within(runs[0].start, runs[0].count, p) {
        assert Covers(runs, p, 0);
      }
      if In(r, p) {
        var i :| Covers(r, p, i);
        assert Covers(runs, p, i + 1);
      }
    }
    forall p | In(r, p) ensures p > runs[0].End() {
      var i :| Covers(r, p, i);
      assert Gap(runs, 0, i + 1);
    }
  }

  lemma FirstPage(runs: seq<Run>)
    requires Canonical(runs) && runs != []
    ensures In(runs, runs[0].start) && !In(runs, runs[0].End())
  {
    TailCanonical(runs);
    assert Within(runs[0].start, runs[0].count, runs[0].start);
  }

  lemma HeadIn(runs: seq<Run>, p: int)
    requires runs != []
    ensures Within(runs[0].start, runs[0].count, p) ==> In(runs, p)
  {
    if Within(runs[0].start, runs[0].count, p) {
      assert Covers(runs, p, 0);
    }
  }

  lemma RunsApart(runs: seq<Run>, i: nat, j: nat)
    requires Canonical(runs) && i < |runs| && j < |runs| && i != j
    ensures runs[i].End() < runs[j].start || runs[j].End() < runs[i].start
  {
    assert if i < j then Gap(runs, i, j) else Gap(runs, j, i);
  }

  /** The run list is a function of the set of free pages. */
  lemma {:induction false} RunsAreDeterminedByPages(a: seq<Run>, b: seq<Run>)
    requires Canonical(a) && Canonical(b) && forall p :: In(a, p) <==> In(b, p)
    ensures a == b
    decreases |a|
  {
    if a == [] {
      if b != [] {
        FirstPage(b);
        assert false;
      }
    } else if b == [] {
      FirstPage(a);
      assert false;
    } else {
      TailCanonical(a);
      TailCanonical(b);
      SameFirst(a, b);
      SameFirst(b, a);
      assert a == [a[0]] + a[1..] && b == [b[0]] + b[1..];
      forall p ensures In(a[1..], p) <==> In(b[1..], p) {
        assert In(a, p) <==> In(b, p);
      }
      RunsAreDeterminedByPages(a[1..], b[1..]);
    }
  }

  /** b's first run begins no later than a's, and then ends no earlier. */
  lemma SameFirst(a: seq<Run>, b: seq<Run>)
    requires Canonical(a) && Canonical(b) && a != [] && b != [] && forall p :: In(a, p) <==> In(b, p)
    ensures b[0].start <= a[0].start
    ensures b[0].start == a[0].start ==> a[0].End() <= b[0].End()
  {
    TailCanonical(a);
    TailCanonical(b);
    FirstPage(a);
    FirstPage(b);
    assert In(b, a[0].start);
    HeadIn(a, b[0].End());
  }

  /** Consecutive free pages lie in one run. */
  lemma {:induction false} OneRun(runs: seq<Run>, a: int, n: int)
    requires Canonical(runs) && n > 0 && AllIn(runs, a, n)
    ensures exists i :: Covers(runs, a, i) && a + n <= runs[i].End()
    decreases n
  {
    assert Within(a, n, a) && In(runs, a);
    var i :| Covers(runs, a, i);
    if n > 1 {
      forall p | Within(a, n - 1, p) ensures In(runs, p) {
        assert Within(a, n, p);
      }
      OneRun(runs, a, n - 1);
      var k :| Covers(runs, a, k) && a + (n - 1) <= runs[k].End();
      assert Within(a, n, a + n - 1) && In(runs, a + n - 1);
      var j :| Covers(runs, a + n - 1, j);
      if j != k {
        RunsApart(runs, j, k);
      }
    }
  }

  // ----- The list in the pages -----

  datatype Node = Node(next: int, page: nat)

  function Start(runs: seq<Run>, i: int): int {
    if 0 <= i < |runs| then runs[i].start else NIL
  }

  ghost predicate Linked(nodes: map<int, Node>, runs: seq<Run>, i: int)
    requires 0 <= i < |runs|
  {
    runs[i].start in nodes && nodes[runs[i].start] == Node(Start(runs, i + 1), runs[i].count)
  }

  ghost predicate Listed(nodes: map<int, Node>, head: int, runs: seq<Run>) {
    head == Start(runs, 0) && forall i {:trigger Linked(nodes, runs, i)} :: 0 <= i < |runs| ==> Linked(nodes, runs, i)
  }

  // ----- Replacing runs -----

  /** Runs i to j give way to at most one run. */
  ghost function Splice(runs: seq<Run>, i: nat, j: nat, mid: Option<Run>): (r: seq<Run>)
    requires i <= j <= |runs|
  {
    runs[..i] + (if mid.Some? then [mid.value] else []) + runs[j..]
  }

  /** Where a run of the spliced list comes from. */
  lemma SpliceAt(runs: seq<Run>, i: nat, j: nat, mid: Option<Run>, k: nat)
    requires i <= j <= |runs| && k < |Splice(runs, i, j, mid)|
    ensures var d := if mid.Some? then 1 else 0;
            Splice(runs, i, j, mid)[k] ==
              if k < i then runs[k] else if k < i + d then mid.value else runs[k - i - d + j]
  {}

  /** The page is in one of the runs that stay. */
  ghost predicate InRest(runs: seq<Run>, i: nat, j: nat, p: int) {
    exists k :: Covers(runs, p, k) && (k < i || k >= j)
  }

  lemma SplicePages(runs: seq<Run>, i: nat, j: nat, mid: Option<Run>, p: int)
    requires i <= j <= |runs|
    ensures In(Splice(runs, i, j, mid), p) <==>
              InRest(runs, i, j, p) || (mid.Some? && Within(mid.value.start, mid.value.count, p))
  {
    var r := Splice(runs, i, j, mid);
    var d := if mid.Some? then 1 else 0;
    if In(r, p) {
      var k :| Covers(r, p, k);
      SpliceAt(runs, i, j, mid, k);
      assert k < i ==> Covers(runs, p, k);
      assert k >= i + d ==> Covers(runs, p, k - i - d + j);
    }
    if InRest(runs, i, j, p) {
      var k :| Covers(runs, p, k) && (k < i || k >= j);
      var m := if k < i then k else k - j + i + d;
      SpliceAt(runs, i, j, mid, m);
      assert Covers(r, p, m);
    }
    if mid.Some? && Within(mid.value.start, mid.value.count, p) {
      assert Covers(r, p, i);
    }
  }

  lemma SpliceCanonical(runs: seq<Run>, i: nat, j: nat, mid: Option<Run>)
    requires Canonical(runs) && i <= j <= |runs|
    requires mid.Some? ==> mid.value.count > 0
    requires mid.Some? && i > 0 ==> runs[i - 1].End() < mid.value.start
    requires mid.Some? && j < |runs| ==> mid.value.End() < runs[j].start
    ensures Canonical(Splice(runs, i, j, mid))
  {
    var r := Splice(runs, i, j, mid);
    var d := if mid.Some? then 1 else 0;
    forall k, m | 0 <= k < m < |r| ensures Gap(r, k, m) {
      SpliceAt(runs, i, j, mid, k);
      SpliceAt(runs, i, j, mid, m);
      if k < i && i <= m < i + d {
        assert k < i - 1 ==> Gap(runs, k, i - 1);
      } else if i <= k < i + d {
        assert m - i - d + j > j ==> Gap(runs, j, m - i - d + j);
      } else {
        var from, to := if k < i then k else k - i - d + j, if m < i then m else m - i - d + j;
        assert Gap(runs, from, to);
      }
    }
    forall k | 0 <= k < |r| ensures r[k].count > 0 {
      SpliceAt(runs, i, j, mid, k);
    }
  }

  /** The list links up again when the link in front of the new run, or of the rest, has been written. */
  lemma SpliceListed(nodes: map<int, Node>, head: int, nodes1: map<int, Node>, head1: int,
                     runs: seq<Run>, i: nat, j: nat, mid: Option<Run>)
    requires Listed(nodes, head, runs) && i <= j <= |runs|
    requires var first := if mid.Some? then mid.value.start else Start(runs, j);
             if i == 0 then head1 == first
             else
               && head1 == head && runs[i - 1].start in nodes1
               && nodes1[runs[i - 1].start] == Node(first, runs[i - 1].count)
    requires mid.Some? ==> mid.value.start in nodes1 && nodes1[mid.value.start] == Node(Start(runs, j), mid.value.count)
    requires forall k :: 0 <= k < |runs| && (k < i - 1 || k >= j) && runs[k].start in nodes ==>
               runs[k].start in nodes1 && nodes1[runs[k].start] == nodes[runs[k].start]
    ensures Listed(nodes1, head1, Splice(runs, i, j, mid))
  {
    var r := Splice(runs, i, j, mid);
    var d := if mid.Some? then 1 else 0;
    forall k | 0 <= k < |r| ensures Linked(nodes1, r, k) {
      SpliceAt(runs, i, j, mid, k);
      if k + 1 < |r| {
        SpliceAt(runs, i, j, mid, k + 1);
      }
      if k < i {
        assert Linked(nodes, runs, k);
      } else if k >= i + d {
        assert Linked(nodes, runs, k - i - d + j);
      }
    }
    if |r| > 0 {
      SpliceAt(runs, i, j, mid, 0);
    }
  }

  class PagePool {
    var head: int
    var nodes: map<int, Node>
    ghost var runs: seq<Run>

    ghost predicate Valid()
      reads this
    {
      Canonical(runs) && Listed(nodes, head, runs)
    }

    ghost predicate Free(p: int)
      reads this
    {
      In(runs, p)
    }

    constructor ()
      ensures Valid() && runs == []
    {
      head, nodes, runs := NIL, map[], [];
    }

    /** Writes *prev: the list head, or the next field of the node behind which prev points. */
    method SetLink(prev: int, v: int)
      requires prev == NIL || prev in nodes
      modifies this`head, this`nodes
      ensures head == if prev == NIL then v else old(head)
      ensures nodes == if prev == NIL then old(nodes) else old(nodes)[prev := old(nodes)[prev].(next := v)]
    {
      if prev == NIL {
        head := v;
      } else {
        nodes := nodes[prev := nodes[prev].(next := v)];
      }
    }

    /** Takes n pages from the front of the longer run i. */
    method CutFront(prev: int, b: int, n: nat, ghost i: nat)
      requires Valid() && i < |runs| && b == runs[i].start && 0 < n < runs[i].count && prev == Start(runs, i - 1)
      modifies this
      ensures Valid() && forall p :: In(runs, p) <==> In(old(runs), p) && !Within(b, n, p)
    {
      ghost var m := Run(b + n, runs[i].count - n);
      assert Linked(nodes, runs, i) && (i > 0 ==> Linked(nodes, runs, i - 1));
      ghost var was := runs;
      nodes := nodes[b + n := Node(nodes[b].next, nodes[b].page - n)];
      SetLink(prev, b + n);
      Apart(was, i);
      SpliceListed(old(nodes), old(head), nodes, head, was, i, i + 1, Some(m));
      SpliceCanonical(was, i, i + 1, Some(m));
      runs := Splice(was, i, i + 1, Some(m));
      forall p ensures In(runs, p) <==> In(was, p) && !Within(b, n, p) {
        SplicePages(was, i, i + 1, Some(m), p);
        OnlyIn(was, i, p);
      }
    }

    /** Takes the whole run i. */
    method DropRun(prev: int, b: int, ghost i: nat)
      requires Valid() && i < |runs| && b == runs[i].start && prev == Start(runs, i - 1)
      modifies this
      ensures Valid() && forall p :: In(runs, p) <==> In(old(runs), p) && !Within(b, old(runs)[i].count, p)
    {
      assert Linked(nodes, runs, i) && (i > 0 ==> Linked(nodes, runs, i - 1));
      ghost var was := runs;
      SetLink(prev, nodes[b].next);
      Apart(was, i);
      SpliceListed(old(nodes), old(head), nodes, head, was, i, i + 1, None);
      SpliceCanonical(was, i, i + 1, None);
      runs := Splice(was, i, i + 1, None);
      forall p ensures In(runs, p) <==> In(was, p) && !Within(b, was[i].count, p) {
        SplicePages(was, i, i + 1, None, p);
        OnlyIn(was, i, p);
      }
    }

    /** rt_slab_page_alloc: the lowest pages that fit, or none when no n consecutive pages are free. */
    method Alloc(n: nat) returns (r: Option<nat>)
      requires Valid()
      modifies this
      ensures Valid()
      ensures r.None? <==> n == 0 || forall a :: !AllIn(old(runs), a, n)
      ensures r.None? ==> runs == old(runs)
      ensures r.Some? ==> AllIn(old(runs), r.value, n) && (forall a :: AllIn(old(runs), a, n) ==> r.value <= a)
      ensures r.Some? ==> forall p :: In(runs, p) <==> In(old(runs), p) && !Within(r.value, n, p)
    {
      if n == 0 {
        return None;
      }
      var prev, b := NIL, head;
      ghost var i := 0;
      while b != NIL
        invariant 0 <= i <= |runs| && b == Start(runs, i) && prev == Start(runs, i - 1)
        invariant forall j :: 0 <= j < i ==> runs[j].count < n
        decreases |runs| - i
      {
        assert Linked(nodes, runs, i) && (i > 0 ==> Linked(nodes, runs, i - 1));
        if nodes[b].page > n {
          FirstFits(runs, i, n);
          CutFront(prev, b, n, i);
          return Some(b);
        }
        if nodes[b].page == n {
          FirstFits(runs, i, n);
          DropRun(prev, b, i);
          return Some(b);
        }
        prev, b := b, nodes[b].next;
        i := i + 1;
      }
      NothingFits(runs, n);
      r := None;
    }

    /** rt_slab_page_free: the pages become free, and joined to the runs they touch. */
    method Release(a: nat, n: nat)
      requires Valid() && n > 0 && forall p :: Within(a, n, p) ==> !In(runs, p)
      modifies this
      ensures Valid() && forall p :: In(runs, p) <==> In(old(runs), p) || Within(a, n, p)
    {
      var prev, b;
      ghost var i;
      prev, b, i := Seek(a, n);
      if b == NIL {
        Insert(a, n, prev, b, i);
        return;
      }
      assert Linked(nodes, runs, i);
      if b + nodes[b].page == a {
        Extend(a, n, b, i);
      } else if b == a + n {
        Prepend(a, n, prev, b, i);
      } else {
        Insert(a, n, prev, b, i);
      }
    }

    /** The walk of a release: to the run the pages touch, or to their place between two runs. */
    method Seek(a: nat, n: nat) returns (prev: int, b: int, ghost i: nat)
      requires Valid() && n > 0 && forall p :: Within(a, n, p) ==> !In(runs, p)
      ensures i <= |runs| && b == Start(runs, i) && prev == Start(runs, i - 1)
      ensures forall j :: 0 <= j < i ==> runs[j].End() < a
      ensures i < |runs| ==> runs[i].End() == a || a + n <= runs[i].start
    {
      prev, b, i := NIL, head, 0;
      while b != NIL
        invariant 0 <= i <= |runs| && b == Start(runs, i) && prev == Start(runs, i - 1)
        invariant forall j :: 0 <= j < i ==> runs[j].End() < a
        decreases |runs| - i
      {
        assert Linked(nodes, runs, i);
        Disjoint(runs, a, n, i);
        if b + nodes[b].page == a || b == a + n || b > a + n {
          return;
        }
        prev, b := b, nodes[b].next;
        i := i + 1;
      }
    }

    /** The pages follow run i, and may close the gap to the run behind it. */
    method Extend(a: nat, n: nat, b: int, ghost i: nat)
      requires Valid() && n > 0 && (forall p :: Within(a, n, p) ==> !In(runs, p))
      requires i < |runs| && b == runs[i].start && runs[i].End() == a
      modifies this
      ensures Valid() && forall p :: In(runs, p) <==> In(old(runs), p) || Within(a, n, p)
    {
      ghost var was := runs;
      assert Linked(nodes, runs, i) && (i + 1 < |runs| ==> Linked(nodes, runs, i + 1));
      assert i > 0 ==> Linked(nodes, runs, i - 1);
      Apart(was, i);
      if i + 1 < |was| {
        Disjoint(was, a, n, i + 1);
      }
      nodes := nodes[b := nodes[b].(page := nodes[b].page + n)];
      if b + nodes[b].page == nodes[b].next {
        var c := nodes[b].next;
        nodes := nodes[b := nodes[b].(page := nodes[b].page + nodes[c].page)];
        nodes := nodes[b := nodes[b].(next := nodes[c].next)];
        Bridge(was, old(nodes), nodes, head, a, n, i);
        runs := Splice(was, i, i + 2, Some(Run(was[i].start, was[i].count + n + was[i + 1].count)));
      } else {
        ghost var m := Run(was[i].start, was[i].count + n);
        StartsApart(was, i);
        SpliceListed(old(nodes), head, nodes, head, was, i, i + 1, Some(m));
        SpliceCanonical(was, i, i + 1, Some(m));
        runs := Splice(was, i, i + 1, Some(m));
        forall p ensures In(runs, p) <==> In(was, p) || Within(a, n, p) {
          SplicePages(was, i, i + 1, Some(m), p);
          OnlyIn(was, i, p);
        }
      }
    }

    /** The pages touch run i, which now begins with them. */
    method Prepend(a: nat, n: nat, prev: int, b: int, ghost i: nat)
      requires Valid() && n > 0 && i < |runs| && b == runs[i].start == a + n && prev == Start(runs, i - 1)
      requires forall j :: 0 <= j < i ==> runs[j].End() < a
      modifies this
      ensures Valid() && forall p :: In(runs, p) <==> In(old(runs), p) || Within(a, n, p)
    {
      ghost var was, m := runs, Run(a, n + runs[i].count);
      assert Linked(nodes, runs, i) && (i > 0 ==> Linked(nodes, runs, i - 1));
      Apart(was, i);
      StartsApart(was, i);
      nodes := nodes[a := Node(nodes[b].next, nodes[b].page + n)];
      SetLink(prev, a);
      SpliceListed(old(nodes), old(head), nodes, head, was, i, i + 1, Some(m));
      SpliceCanonical(was, i, i + 1, Some(m));
      runs := Splice(was, i, i + 1, Some(m));
      forall p ensures In(runs, p) <==> In(was, p) || Within(a, n, p) {
        SplicePages(was, i, i + 1, Some(m), p);
        OnlyIn(was, i, p);
      }
    }

    /** The pages touch no run: they become run i. */
    method Insert(a: nat, n: nat, prev: int, b: int, ghost i: nat)
      requires Valid() && n > 0 && i <= |runs| && b == Start(runs, i) && prev == Start(runs, i - 1)
      requires forall j :: 0 <= j < i ==> runs[j].End() < a
      requires i < |runs| ==> a + n < runs[i].start
      modifies this
      ensures Valid() && forall p :: In(runs, p) <==> In(old(runs), p) || Within(a, n, p)
    {
      ghost var was, m := runs, Run(a, n);
      assert i > 0 ==> Linked(nodes, runs, i - 1);
      if i < |was| {
        Apart(was, i);
      }
      if i > 0 {
        Apart(was, i - 1);
      }
      nodes := nodes[a := Node(b, n)];
      SetLink(prev, a);
      SpliceListed(old(nodes), old(head), nodes, head, was, i, i, Some(m));
      SpliceCanonical(was, i, i, Some(m));
      runs := Splice(was, i, i, Some(m));
      forall p ensures In(runs, p) <==> In(was, p) || Within(a, n, p) {
        SplicePages(was, i, i, Some(m), p);
        AllRest(was, i, p);
      }
    }

    /** Releasing what was just allocated restores the list. */
    method AllocThenRelease(n: nat)
      requires Valid()
      modifies this
      ensures Valid() && runs == old(runs) && head == old(head)
    {
      var r := Alloc(n);
      if r.Some? {
        Release(r.value, n);
        forall p ensures In(runs, p) <==> In(old(runs), p) {
          assert Within(r.value, n, p) ==> In(old(runs), p);
        }
        RunsAreDeterminedByPages(runs, old(runs));
      }
    }
  }

  /** A run has no page in common with pages that are not free. */
  lemma Disjoint(runs: seq<Run>, a: nat, n: nat, i: nat)
    requires Canonical(runs) && i < |runs| && n > 0 && forall p :: Within(a, n, p) ==> !In(runs, p)
    ensures runs[i].End() <= a || a + n <= runs[i].start
  {
    if runs[i].start <= a < runs[i].End() {
      assert Covers(runs, a, i) && Within(a, n, a);
    } else if a < runs[i].start < a + n {
      assert Covers(runs, runs[i].start, i) && Within(a, n, runs[i].start);
    }
  }

  lemma StartsApart(runs: seq<Run>, i: nat)
    requires Canonical(runs) && i < |runs|
    ensures forall k :: 0 <= k < |runs| && k != i ==> runs[k].start != runs[i].start
  {
    Apart(runs, i);
  }

  lemma AllRest(runs: seq<Run>, i: nat, p: int)
    requires i <= |runs|
    ensures In(runs, p) <==> InRest(runs, i, i, p)
  {
    if In(runs, p) {
      var k :| Covers(runs, p, k);
    }
  }

  /** The n pages from a on join run i and run i + 1. */
  lemma Bridge(runs: seq<Run>, nodes: map<int, Node>, nodes1: map<int, Node>, head: int, a: nat, n: nat, i: nat)
    requires Canonical(runs) && Listed(nodes, head, runs)
    requires i + 1 < |runs| && runs[i].End() == a && a + n == runs[i + 1].start
    requires runs[i].start in nodes && runs[i + 1].start in nodes
    requires nodes1 ==
      nodes[runs[i].start := Node(nodes[runs[i + 1].start].next, runs[i].count + n + runs[i + 1].count)]
    ensures var r := Splice(runs, i, i + 2, Some(Run(runs[i].start, runs[i].count + n + runs[i + 1].count)));
            && Canonical(r) && Listed(nodes1, head, r)
            && forall p :: In(r, p) <==> In(runs, p) || Within(a, n, p)
  {
    var m := Run(runs[i].start, runs[i].count + n + runs[i + 1].count);
    assert Linked(nodes, runs, i) && Linked(nodes, runs, i + 1) && (i > 0 ==> Linked(nodes, runs, i - 1));
    Apart(runs, i);
    Apart(runs, i + 1);
    SpliceListed(nodes, head, nodes1, head, runs, i, i + 2, Some(m));
    SpliceCanonical(runs, i, i + 2, Some(m));
    var r := Splice(runs, i, i + 2, Some(m));
    forall p ensures In(r, p) <==> In(runs, p) || Within(a, n, p) {
      SplicePages(runs, i, i + 2, Some(m), p);
      TwoIn(runs, i, p);
    }
  }

  lemma TwoIn(runs: seq<Run>, i: nat, p: int)
    requires i + 1 < |runs|
    ensures In(runs, p) <==> Within(runs[i].start, runs[i].count, p) || Within(runs[i + 1].start, runs[i + 1].count, p)
                             || InRest(runs, i, i + 2, p)
  {
    if Within(runs[i].start, runs[i].count, p) {
      assert Covers(runs, p, i);
    }
    if Within(runs[i + 1].start, runs[i + 1].count, p) {
      assert Covers(runs, p, i + 1);
    }
  }

  /** The other runs lie outside run i. */
  lemma Apart(runs: seq<Run>, i: nat)
    requires Canonical(runs) && i < |runs|
    ensures forall k :: 0 <= k < i ==> runs[k].End() < runs[i].start
    ensures forall k :: i < k < |runs| ==> runs[i].End() < runs[k].start
    ensures i > 0 ==> forall k :: 0 <= k < |runs| && k != i - 1 ==> runs[k].start != runs[i - 1].start
  {
    forall k | 0 <= k < i ensures runs[k].End() < runs[i].start {
      assert Gap(runs, k, i);
    }
    forall k | i < k < |runs| ensures runs[i].End() < runs[k].start {
      assert Gap(runs, i, k);
    }
    if i > 0 {
      forall k | 0 <= k < |runs| && k != i - 1 ensures runs[k].start != runs[i - 1].start {
        RunsApart(runs, k, i - 1);
      }
    }
  }

  /** A free page is in run i or in the rest, not in both. */
  lemma OnlyIn(runs: seq<Run>, i: nat, p: int)
    requires Canonical(runs) && i < |runs|
    ensures In(runs, p) <==> Within(runs[i].start, runs[i].count, p) || InRest(runs, i, i + 1, p)
    ensures !(Within(runs[i].start, runs[i].count, p) && InRest(runs, i, i + 1, p))
  {
    if Within(runs[i].start, runs[i].count, p) {
      assert Covers(runs, p, i);
    }
    if InRest(runs, i, i + 1, p) {
      var k :| Covers(runs, p, k) && (k < i || k >= i + 1);
      RunsApart(runs, k, i);
    }
  }

  /** The first run that is long enough holds the lowest n consecutive free pages. */
  lemma FirstFits(runs: seq<Run>, i: nat, n: nat)
    requires Canonical(runs) && i < |runs| && runs[i].count >= n > 0
    requires forall j :: 0 <= j < i ==> runs[j].count < n
    ensures AllIn(runs, runs[i].start, n)
    ensures forall a :: AllIn(runs, a, n) ==> runs[i].start <= a
  {
    forall p | Within(runs[i].start, n, p) ensures In(runs, p) {
      assert Covers(runs, p, i);
    }
    forall a | AllIn(runs, a, n) ensures runs[i].start <= a {
      OneRun(runs, a, n);
      var k :| Covers(runs, a, k) && a + n <= runs[k].End();
      Apart(runs, i);
    }
  }

  lemma NothingFits(runs: seq<Run>, n: nat)
    requires Canonical(runs) && n > 0 && forall j :: 0 <= j < |runs| ==> runs[j].count < n
    ensures forall a :: !AllIn(runs, a, n)
  {
    forall a ensures !AllIn(runs, a, n) {
      if AllIn(runs, a, n) {
        OneRun(runs, a, n);
      }
    }
  }
}
