/**
 * The cells of a message queue's pool (rt-thread/src/ipc.c:2948-2957 and the link code of send, urgent and receive):
 * singly linked chains over one array of next pointers, and who owns each cell.
 */
module MessageCells {
  import opened Lists

  type ThreadId = nat
  type Message = seq<int>

  /** The null pointer among cell numbers. */
  const NIL := -1

  // ----- Chains -----

  function At(cells: seq<nat>, i: nat): int {
    if i < |cells| then cells[i] else NIL
  }

  function Last(cells: seq<nat>): int {
    if cells == [] then NIL else cells[|cells| - 1]
  }

  ghost predicate Link(next: seq<int>, cells: seq<nat>, i: int)
    requires 0 <= i < |cells|
  {
    cells[i] < |next| && next[cells[i]] == At(cells, i + 1)
  }

  /** Following next from first visits exactly these cells and ends in null. */
  ghost predicate Chain(next: seq<int>, first: int, cells: seq<nat>) {
    && first == At(cells, 0)
    && forall i {:trigger Link(next, cells, i)} :: 0 <= i < |cells| ==> Link(next, cells, i)
  }

  lemma ChainTail(next: seq<int>, first: int, cells: seq<nat>)
    requires Chain(next, first, cells) && cells != []
    ensures first == cells[0] && 0 <= first < |next| && Chain(next, next[first], cells[1..])
  {
    assert Link(next, cells, 0);
    forall i | 0 <= i < |cells[1..]| ensures Link(next, cells[1..], i) {
      assert Link(next, cells, i + 1);
    }
  }

  /** Writing the next pointer of a foreign cell. */
  lemma ChainFrame(next: seq<int>, first: int, cells: seq<nat>, c: nat, v: int)
    requires Chain(next, first, cells) && c < |next| && c !in cells
    ensures Chain(next[c := v], first, cells)
  {
    var after := next[c := v];
    forall i | 0 <= i < |cells| ensures Link(after, cells, i) {
      assert Link(next, cells, i);
    }
  }

  lemma ChainPush(next: seq<int>, first: int, cells: seq<nat>, c: nat)
    requires Chain(next, first, cells) && c < |next| && c !in cells
    ensures Chain(next[c := first], c, [c] + cells)
  {
    ChainFrame(next, first, cells, c, first);
    var r, after := [c] + cells, next[c := first];
    forall i | 0 <= i < |r| ensures Link(after, r, i) {
      if i > 0 {
        assert Link(after, cells, i - 1);
      }
    }
  }

  lemma ChainAppend(next: seq<int>, first: int, cells: seq<nat>, c: nat)
    requires Chain(next, first, cells) && Distinct(cells) && c < |next| && c !in cells && next[c] == NIL
    ensures cells == [] ==> Chain(next, c, [c])
    ensures cells != [] ==> 0 <= Last(cells) < |next| && Chain(next[Last(cells) := c], first, cells + [c])
  {
    if cells == [] {
      assert Link(next, [c], 0);
    } else {
      var n := |cells|;
      assert Link(next, cells, n - 1);
      var r, after := cells + [c], next[cells[n - 1] := c];
      forall i | 0 <= i < |r| ensures Link(after, r, i) {
        if i < n {
          assert Link(next, cells, i);
        }
      }
    }
  }

  // ----- Owners -----

  /** What a thread holds between two of its critical sections. */
  datatype Hold =
    | Grabbed(cell: nat, message: Message, urgent: bool) // taken off the free chain, not written yet
    | Filled(cell: nat, message: Message, urgent: bool)  // written, not linked yet
    | Taken(cell: nat, message: Message)                 // unlinked, not copied out yet
    | Emptied(cell: nat)                                 // copied out, not freed yet

  datatype Place = Free | Queued | Held(owner: ThreadId)

  type Holds = map<ThreadId, Hold>

  ghost predicate Placed(place: seq<Place>, free: seq<nat>, queue: seq<nat>, held: Holds, c: int)
    requires 0 <= c < |place|
  {
    && (place[c] == Free <==> c in free)
    && (place[c] == Queued <==> c in queue)
    && (place[c].Held? ==> place[c].owner in held && held[place[c].owner].cell == c)
  }

  ghost predicate Holder(place: seq<Place>, held: Holds, t: ThreadId)
    requires t in held
  {
    held[t].cell < |place| && place[held[t].cell] == Held(t)
  }

  /** Conservation: every cell is in the free chain, in the queue or in one thread's hands, and in only one of them. */
  ghost predicate Split(place: seq<Place>, free: seq<nat>, queue: seq<nat>, held: Holds) {
    && Distinct(free) && Distinct(queue)
    && (forall c :: c in free ==> c < |place|)
    && (forall c :: c in queue ==> c < |place|)
    && (forall c {:trigger Placed(place, free, queue, held, c)} :: 0 <= c < |place| ==>
        Placed(place, free, queue, held, c))
    && (forall t: ThreadId {:trigger Holder(place, held, t)} :: t in held ==> Holder(place, held, t))
  }

  lemma HeldApart(place: seq<Place>, free: seq<nat>, queue: seq<nat>, held: Holds, t: ThreadId)
    requires Split(place, free, queue, held) && t in held
    ensures held[t].cell < |place| && held[t].cell !in free && held[t].cell !in queue
    ensures forall u :: u in held && u != t ==> held[u].cell != held[t].cell
  {
    assert Holder(place, held, t);
    assert Placed(place, free, queue, held, held[t].cell);
    forall u | u in held && u != t ensures held[u].cell != held[t].cell {
      assert Holder(place, held, u);
    }
  }

  lemma FreeApart(place: seq<Place>, free: seq<nat>, queue: seq<nat>, held: Holds, c: nat)
    requires Split(place, free, queue, held) && (c in free || c in queue)
    ensures c < |place| && !(c in free && c in queue)
    ensures forall u :: u in held ==> held[u].cell != c
  {
    assert Placed(place, free, queue, held, c);
    forall u | u in held ensures held[u].cell != c {
      assert Holder(place, held, u);
    }
  }

  /** The first free cell goes into a thread's hands. */
  lemma SplitGrab(place: seq<Place>, free: seq<nat>, queue: seq<nat>, held: Holds, t: ThreadId, h: Hold)
    requires Split(place, free, queue, held) && t !in held && free != [] && h.cell == free[0]
    ensures h.cell < |place| && Split(place[h.cell := Held(t)], free[1..], queue, held[t := h])
  {
    FreeApart(place, free, queue, held, free[0]);
    DistinctTail(free);
    TailIn(free);
    var p, f, g := place[h.cell := Held(t)], free[1..], held[t := h];
    forall c | 0 <= c < |p| ensures Placed(p, f, queue, g, c) {
      assert Placed(place, free, queue, held, c);
    }
    forall u | u in g ensures Holder(p, g, u) {
      assert u != t ==> Holder(place, held, u);
    }
  }

  /** The first queued cell goes into a thread's hands. */
  lemma SplitTake(place: seq<Place>, free: seq<nat>, queue: seq<nat>, held: Holds, t: ThreadId, h: Hold)
    requires Split(place, free, queue, held) && t !in held && queue != [] && h.cell == queue[0]
    ensures h.cell < |place| && Split(place[h.cell := Held(t)], free, queue[1..], held[t := h])
  {
    FreeApart(place, free, queue, held, queue[0]);
    DistinctTail(queue);
    TailIn(queue);
    var p, q, g := place[h.cell := Held(t)], queue[1..], held[t := h];
    forall c | 0 <= c < |p| ensures Placed(p, free, q, g, c) {
      assert Placed(place, free, queue, held, c);
    }
    forall u | u in g ensures Holder(p, g, u) {
      assert u != t ==> Holder(place, held, u);
    }
  }

  /** A thread's cell is linked into the queue, at either end. */
  lemma SplitLink(place: seq<Place>, free: seq<nat>, queue: seq<nat>, held: Holds, t: ThreadId, front: bool)
    requires Split(place, free, queue, held) && t in held
    ensures held[t].cell < |place|
    ensures var c := held[t].cell;
            Split(place[c := Queued], free, if front then [c] + queue else queue + [c], held - {t})
  {
    HeldApart(place, free, queue, held, t);
    var c := held[t].cell;
    var p, q, g := place[c := Queued], if front then [c] + queue else queue + [c], held - {t};
    forall d | 0 <= d < |p| ensures Placed(p, free, q, g, d) {
      assert Placed(place, free, queue, held, d);
      if d != c && place[d].Held? && place[d].owner == t {
        assert false;
      }
    }
    forall u | u in g ensures Holder(p, g, u) {
      assert Holder(place, held, u);
    }
  }

  /** A thread's cell goes back to the free chain. */
  lemma SplitFree(place: seq<Place>, free: seq<nat>, queue: seq<nat>, held: Holds, t: ThreadId)
    requires Split(place, free, queue, held) && t in held
    ensures held[t].cell < |place|
    ensures Split(place[held[t].cell := Free], [held[t].cell] + free, queue, held - {t})
  {
    HeldApart(place, free, queue, held, t);
    var c := held[t].cell;
    var p, f, g := place[c := Free], [c] + free, held - {t};
    forall d | 0 <= d < |p| ensures Placed(p, f, queue, g, d) {
      assert Placed(place, free, queue, held, d);
    }
    forall u | u in g ensures Holder(p, g, u) {
      assert Holder(place, held, u);
    }
  }

  /** Reset moves the first queued cell to the free chain. */
  lemma SplitDrop(place: seq<Place>, free: seq<nat>, queue: seq<nat>, held: Holds)
    requires Split(place, free, queue, held) && queue != []
    ensures queue[0] < |place| && queue[0] !in free
    ensures Split(place[queue[0] := Free], [queue[0]] + free, queue[1..], held)
  {
    var c := queue[0];
    FreeApart(place, free, queue, held, c);
    DistinctTail(queue);
    TailIn(queue);
    var p, f, q := place[c := Free], [c] + free, queue[1..];
    forall d | 0 <= d < |p| ensures Placed(p, f, q, held, d) {
      assert Placed(place, free, queue, held, d);
    }
    forall u | u in held ensures Holder(p, held, u) {
      assert Holder(place, held, u);
    }
  }

  /** A thread goes from one step to the next with the same cell. */
  lemma SplitSwap(place: seq<Place>, free: seq<nat>, queue: seq<nat>, held: Holds, t: ThreadId, h: Hold)
    requires Split(place, free, queue, held) && t in held && h.cell == held[t].cell
    ensures Split(place, free, queue, held[t := h])
  {
    var g := held[t := h];
    forall d | 0 <= d < |place| ensures Placed(place, free, queue, g, d) {
      assert Placed(place, free, queue, held, d);
    }
    forall u | u in g ensures Holder(place, g, u) {
      assert Holder(place, held, u);
    }
  }

  // ----- Counting -----

  lemma {:induction false} DistinctBound(s: seq<nat>, n: nat)
    requires Distinct(s) && forall x :: x in s ==> x < n
    ensures |s| <= n
    decreases n
  {
    if s != [] {
      assert s[0] in s;
      var r: seq<nat> := Without<nat>(s, n - 1);
      WithoutDistinct<nat>(s, n - 1);
      forall x | x in r ensures x < n - 1 {
        assert x in s;
      }
      DistinctBound(r, n - 1);
    }
  }

  /** While a thread holds a cell the queue is not full: the counter cannot overflow when the cell is linked. */
  lemma RoomToLink(place: seq<Place>, free: seq<nat>, queue: seq<nat>, held: Holds, t: ThreadId)
    requires Split(place, free, queue, held) && t in held
    ensures |queue| < |place|
  {
    HeldApart(place, free, queue, held, t);
    var s := [held[t].cell] + queue;
    DistinctBound(s, |place|);
  }

  // ----- Contents -----

  function Cell(data: seq<Message>, c: nat): Message {
    if c < |data| then data[c] else []
  }

  /** What a chain of cells holds, first cell first. */
  function Contents(data: seq<Message>, cells: seq<nat>): (r: seq<Message>)
    ensures |r| == |cells|
    ensures forall i :: 0 <= i < |cells| ==> r[i] == Cell(data, cells[i])
  {
    seq(|cells|, i requires 0 <= i < |cells| => Cell(data, cells[i]))
  }

  lemma ContentsEnds(data: seq<Message>, cells: seq<nat>, c: nat)
    ensures Contents(data, cells + [c]) == Contents(data, cells) + [Cell(data, c)]
    ensures Contents(data, [c] + cells) == [Cell(data, c)] + Contents(data, cells)
    ensures cells != [] ==> Contents(data, cells) == [Cell(data, cells[0])] + Contents(data, cells[1..])
  {}

  lemma LinkedContents(data: seq<Message>, cells: seq<nat>, c: nat, front: bool)
    ensures Contents(data, if front then [c] + cells else cells + [c]) ==
            if front then [Cell(data, c)] + Contents(data, cells) else Contents(data, cells) + [Cell(data, c)]
  {
    ContentsEnds(data, cells, c);
  }

  lemma ContentsFrame(data: seq<Message>, cells: seq<nat>, c: nat, m: Message)
    requires c < |data| && c !in cells
    ensures Contents(data[c := m], cells) == Contents(data, cells)
  {
    forall i | 0 <= i < |cells| ensures Cell(data[c := m], cells[i]) == Cell(data, cells[i]) {
      assert cells[i] in cells;
    }
  }

  lemma LastIn(cells: seq<nat>)
    requires Last(cells) != NIL
    ensures cells != [] && Last(cells) in cells
  {}

  function LinkedLast(next: seq<int>, queue: seq<nat>, c: nat): (r: seq<int>)
    requires Last(queue) < |next|
    ensures |r| == |next|
  {
    if queue == [] then next else next[Last(queue) := c]
  }

  /** Linking behind the last cell: both chains and the cells in other hands. */
  lemma LinkLastChains(next: seq<int>, head: int, freeHead: int, place: seq<Place>, free: seq<nat>, queue: seq<nat>,
                       held: Holds, t: ThreadId)
    requires Split(place, free, queue, held) && |place| == |next| && t in held && held[t].cell < |next|
    requires Chain(next, head, queue) && Chain(next, freeHead, free) && next[held[t].cell] == NIL
    ensures Last(queue) < |next|
    ensures var r := LinkedLast(next, queue, held[t].cell);
            && Chain(r, if queue == [] then held[t].cell else head, queue + [held[t].cell])
            && Chain(r, freeHead, free)
            && forall u :: u in held && u != t ==> held[u].cell < |r| && r[held[u].cell] == next[held[u].cell]
  {
    var c := held[t].cell;
    HeldApart(place, free, queue, held, t);
    ChainAppend(next, head, queue, c);
    if queue == [] {
      assert queue + [c] == [c];
    } else {
      LastIn(queue);
      FreeApart(place, free, queue, held, Last(queue));
      ChainFrame(next, freeHead, free, Last(queue), c);
    }
    forall u | u in held && u != t ensures held[u].cell < |next| {
      assert Holder(place, held, u);
    }
  }

  /** Linking before the first cell: both chains and the cells in other hands. */
  lemma LinkFirstChains(next: seq<int>, head: int, freeHead: int, place: seq<Place>, free: seq<nat>, queue: seq<nat>,
                        held: Holds, t: ThreadId)
    requires Split(place, free, queue, held) && |place| == |next| && t in held && held[t].cell < |next|
    requires Chain(next, head, queue) && Chain(next, freeHead, free)
    ensures var r := next[held[t].cell := head];
            && Chain(r, held[t].cell, [held[t].cell] + queue)
            && Chain(r, freeHead, free)
            && forall u :: u in held && u != t ==> held[u].cell < |r| && r[held[u].cell] == next[held[u].cell]
  {
    var c := held[t].cell;
    HeldApart(place, free, queue, held, t);
    ChainPush(next, head, queue, c);
    ChainFrame(next, freeHead, free, c, head);
    forall u | u in held && u != t ensures held[u].cell < |next| && held[u].cell != c {
      assert Holder(place, held, u);
    }
  }

  /** Only a queue of one begins and ends with the same cell; else the rest ends where the whole did. */
  lemma TailOfRest(cells: seq<nat>)
    requires Distinct(cells) && cells != []
    ensures Last(cells[1..]) == if Last(cells) == cells[0] then NIL else Last(cells)
  {}

  /** Unlinking the first cell: the chain, the owners, the tail and the contents. */
  lemma UnlinkedFirst(next: seq<int>, head: int, data: seq<Message>, free: seq<nat>, queue: seq<nat>,
                      place: seq<Place>, held: Holds, t: ThreadId)
    requires Split(place, free, queue, held) && |place| == |next| == |data| && t !in held && queue != []
    requires Chain(next, head, queue)
    ensures head == queue[0] && 0 <= head < |next| && Chain(next, next[head], queue[1..])
    ensures Last(queue[1..]) == if Last(queue) == head then NIL else Last(queue)
    ensures Contents(data, queue)[0] == data[head] && Contents(data, queue)[1..] == Contents(data, queue[1..])
    ensures Split(place[head := Held(t)], free, queue[1..], held[t := Taken(head, data[head])])
  {
    ChainTail(next, head, queue);
    TailOfRest(queue);
    ContentsEnds(data, queue, 0);
    SplitTake(place, free, queue, held, t, Taken(head, data[head]));
  }
}
