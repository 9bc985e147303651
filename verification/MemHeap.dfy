/**
 * The memory heap of rt-thread/src/memheap.c: first fit along the free list, merging on free, growing and shrinking in
 * place.
 */
module MemHeap {
  import opened Lists
  import opened Contents
  import opened BlockLayout
  import opened MemHeapLayout
  import opened MemHeapSteps

  const NIL := -1

  class MemHeap {
    const tail: nat
    const cells: array<int>
    var items: map<int, Item>
    var available: int
    var maxUsed: int
    ghost var blocks: seq<Block>
    ghost var frees: seq<int>

    function Size(): nat {
      tail + HEADER
    }

    /** The key of free_header, which lies outside the pool. */
    function Head(): int {
      tail + HEADER
    }

    ghost predicate Linked()
      reads this
    {
      Tiles(blocks, 0, tail) && Ring(items, blocks, tail) && FreeRing(items, frees, Head())
    }

    ghost predicate Valid()
      reads this
    {
      && Linked() && Shaped(blocks, frees, available, tail)
      && Size() - available <= maxUsed && cells.Length == tail
    }

    /** rt_memheap_init: one free block, and the used tailer behind it. */
    constructor (bytes: Bytes)
      requires bytes / 8 * 2 >= 2 * HEADER
      ensures Valid() && fresh(cells) && Size() == bytes / 8 * 2
      ensures blocks == [Block(0, tail, false)] && available == Size() - 2 * HEADER && maxUsed == 2 * HEADER
    {
      InitialIs(bytes);
      var size := bytes / 8 * 2;
      tail := size - HEADER;
      cells := new int[size - HEADER];
      available := InitialAvailable(bytes) / 4;
      maxUsed := size - InitialAvailable(bytes) / 4;
      var head, t := size, size - HEADER;
      items := map[head := Item(false, NIL, NIL, 0, 0),
                   0 := Item(false, t, t, head, head),
                   t := Item(true, 0, 0, NIL, NIL)];
      blocks, frees := [Block(0, t, false)], [0];
      new;
      OneTiles(blocks[0]);
      assert forall k :: 0 <= k <= 1 ==> Node(items, blocks, tail, k);
      assert forall i :: -1 <= i < 1 ==> FreeNode(items, frees, Head(), i);
      TotalOne(blocks[0], FreeRoom);
      forall p ensures p in frees <==> IsFree(blocks, p) {
        assert p == 0 ==> FreeBlock(blocks, 0, p);
      }
    }

    // ----- Links -----

    method Unfree(p: int, ghost i: nat)
      requires Linked() && i < |frees| && p == frees[i]
      modifies this`items, this`frees
      ensures Linked() && frees == Without(old(frees), p) && old(items).Keys <= items.Keys
    {
      assert FreeNode(items, frees, Head(), i);
      assert FreeNode(items, frees, Head(), i - 1);
      assert i + 1 < |frees| ==> FreeNode(items, frees, Head(), i + 1);
      assert FreeNode(items, frees, Head(), -1);
      var n, m := items[p].nextFree, items[p].prevFree;
      items := items[n := items[n].(prevFree := m)];
      ghost var items1 := items;
      items := items[m := items[m].(nextFree := n)];
      UnlinkedRing(old(items), items1, items, frees, Head(), i);
      WithoutAt(frees, i, p);
      frees := frees[..i] + frees[i + 1..];
      RingStays(old(items), items, blocks, tail);
    }

    method PushFree(q: int)
      requires Linked() && q in items && q != Head() && q !in frees
      modifies this`items, this`frees
      ensures Linked() && frees == [q] + old(frees)
    {
      assert FreeNode(items, frees, Head(), -1);
      assert frees != [] ==> FreeNode(items, frees, Head(), 0);
      var head := Head();
      items := items[q := items[q].(nextFree := items[head].nextFree, prevFree := head)];
      ghost var items1 := items;
      var n := items[head].nextFree;
      items := items[n := items[n].(prevFree := q)];
      ghost var items2 := items;
      items := items[head := items[head].(nextFree := q)];
      PushedRing(old(items), items1, items2, items, frees, head, q);
      frees := [q] + frees;
      RingStays(old(items), items, blocks, tail);
    }

    /** A new free node at q, in the middle of the block at p. */
    method CutAt(p: int, q: nat, ghost k: nat)
      requires Linked() && k < |blocks| && p == blocks[k].start && q % 2 == 0 && q !in frees
      requires p + HEADER <= q && q + HEADER <= blocks[k].end
      modifies this`items, this`blocks
      ensures Linked() && q in items && q != Head()
      ensures blocks == Splice(old(blocks), k, k + 1,
                               [Block(old(blocks)[k].start, q, old(blocks)[k].used),
                                Block(q, old(blocks)[k].end, false)])
    {
      assert Node(items, blocks, tail, k) && Node(items, blocks, tail, k + 1);
      AllApart(blocks, 0, tail);
      var n := items[p].next;
      items := items[q := Item(false, n, p, NIL, NIL)];
      items := items[n := items[n].(prev := q)];
      items := items[p := items[p].(next := q)];
      CutRing(old(items), items, blocks, tail, k, q, Item(false, n, p, NIL, NIL));
      FreeRingStays(old(items), items, frees, Head());
      blocks := Splice(blocks, k, k + 1, [Block(blocks[k].start, q, blocks[k].used), Block(q, blocks[k].end, false)]);
    }

    /** The block at p takes in the one behind it. */
    method Join(p: int, ghost k: nat)
      requires Linked() && k + 1 < |blocks| && p == blocks[k].start
      modifies this`items, this`blocks
      ensures Linked()
      ensures blocks ==
        Splice(old(blocks), k, k + 2, [Block(old(blocks)[k].start, old(blocks)[k + 1].end, old(blocks)[k].used)])
    {
      assert Node(items, blocks, tail, k) && Node(items, blocks, tail, k + 1) && Node(items, blocks, tail, k + 2);
      RingDistinct(blocks, tail, k, k + 2);
      var n := items[p].next;
      var m := items[n].next;
      items := items[m := items[m].(prev := p)];
      items := items[p := items[p].(next := m)];
      JoinRing(old(items), items, blocks, tail, k);
      FreeRingStays(old(items), items, frees, Head());
      blocks := Splice(blocks, k, k + 2, [Block(blocks[k].start, blocks[k + 1].end, blocks[k].used)]);
    }

    method Mark(p: int, used: bool, ghost k: nat)
      requires Linked() && k < |blocks| && p == blocks[k].start
      modifies this`items, this`blocks
      ensures Linked() && blocks == old(blocks)[k := old(blocks)[k].(used := used)]
    {
      assert Node(items, blocks, tail, k);
      MarkRing(items, blocks, tail, k, used);
      items := items[p := items[p].(used := used)];
      FreeRingStays(old(items), items, frees, Head());
      blocks := blocks[k := blocks[k].(used := used)];
    }

    /** available_size goes down, and the maximum of what is not available up. */
    method Take(n: int)
      requires Size() - available <= maxUsed
      modifies this`available, this`maxUsed
      ensures available == old(available) - n
      ensures maxUsed == if Size() - available > old(maxUsed) then Size() - available else old(maxUsed)
    {
      available := available - n;
      if Size() - available > maxUsed {
        maxUsed := Size() - available;
      }
    }

    // ----- Allocation -----

    /** The walk along the free list. */
    method Find(n: nat) returns (p: int, room: int, ghost i: nat, ghost k: nat)
      requires Valid() && n > 0
      ensures room < n ==> forall m :: !Fits(blocks, m, n)
      ensures room >= n ==> FirstFit(blocks, frees, k, n) && i < |frees| && frees[i] == p == blocks[k].start
      ensures room >= n ==> room == blocks[k].Room(HEADER)
    {
      assert FreeNode(items, frees, Head(), -1);
      p, room, i, k := items[Head()].nextFree, 0, 0, 0;
      while p != Head() && room < n
        invariant 0 <= i <= |frees| && p == FreeAt(frees, Head(), i)
        invariant forall j :: 0 <= j < i ==> !FitsAt(blocks, frees[j], n)
        invariant room >= n ==> i < |frees| && FreeBlock(blocks, k, p) && room == blocks[k].Room(HEADER)
        decreases |frees| - i, if room < n then 1 else 0
      {
        assert FreeNode(items, frees, Head(), i) && p in frees;
        k :| FreeBlock(blocks, k, p);
        RoomIs(items, blocks, tail, k);
        room := items[p].next - p - HEADER;
        if room < n {
          NotThere(blocks, tail, k, n);
          p, i := items[p].nextFree, i + 1;
        }
      }
      if room < n {
        forall m ensures !Fits(blocks, m, n) {
          if Fits(blocks, m, n) {
            assert FreeBlock(blocks, m, blocks[m].start);
            assert blocks[m].start in frees && FitsAt(blocks, blocks[m].start, n);
          }
        }
      }
    }

    /** rt_memheap_alloc: the first block of the free list that is large enough, unless all available words
        are asked for. */
    method Alloc(size: Bytes) returns (r: Option<nat>, ghost k: nat)
      requires Valid()
      modifies this
      ensures Valid()
      ensures r.None? <==> old(available) <= Need(size) || forall m :: !Fits(old(blocks), m, Need(size))
      ensures r.None? ==> Unchanged(old(items), old(blocks), old(frees), old(available), old(maxUsed))
      ensures r.Some? ==>
                && FirstFit(old(blocks), old(frees), k, Need(size)) && r.value == old(blocks)[k].start + HEADER
                && blocks == Splice(old(blocks), k, k + 1, Carve(old(blocks)[k], Need(size)))
                && Live(blocks) == old(Live(blocks)) + {Carve(old(blocks)[k], Need(size))[0]}
                && Carve(old(blocks)[k], Need(size))[0] !in old(Live(blocks))
                && frees == CarvedList(old(blocks), old(frees), k, Need(size))
                && maxUsed == if Size() - available > old(maxUsed) then Size() - available else old(maxUsed)
      ensures size <= SIZE_LIMIT - 8 ==>
                Served(old(blocks), old(frees), old(available), Live(blocks), size, r)
    {
      ghost var bs, fl, words := blocks, frees, available;
      r, k := Grant(size);
      if size <= SIZE_LIMIT - 8 {
        ServedOr(bs, fl, words, tail, Live(blocks), k, size, r);
      }
    }

    method Grant(size: Bytes) returns (r: Option<nat>, ghost k: nat)
      requires Valid()
      modifies this
      ensures Valid()
      ensures r.None? <==> old(available) <= Need(size) || forall m :: !Fits(old(blocks), m, Need(size))
      ensures r.None? ==> Unchanged(old(items), old(blocks), old(frees), old(available), old(maxUsed))
      ensures r.Some? ==>
                && FirstFit(old(blocks), old(frees), k, Need(size)) && r.value == old(blocks)[k].start + HEADER
                && blocks == Splice(old(blocks), k, k + 1, Carve(old(blocks)[k], Need(size)))
                && Live(blocks) == old(Live(blocks)) + {Carve(old(blocks)[k], Need(size))[0]}
                && Carve(old(blocks)[k], Need(size))[0] !in old(Live(blocks))
                && frees == CarvedList(old(blocks), old(frees), k, Need(size))
                && maxUsed == if Size() - available > old(maxUsed) then Size() - available else old(maxUsed)
    {
      var n := Need(size);
      r, k := None, 0;
      if n < available {
        var p, room;
        ghost var i;
        p, room, i, k := Find(n);
        if room >= n {
          Carved(blocks, frees, available, tail, k, n);
          HandOut(p, n, room, i, k);
          r := Some(p + HEADER);
        }
      }
    }

    ghost predicate Unchanged(items0: map<int, Item>, blocks0: seq<Block>, frees0: seq<int>, available0: int,
                              maxUsed0: int)
      reads this
    {
      items == items0 && blocks == blocks0 && frees == frees0 && available == available0 && maxUsed == maxUsed0
    }

    /** The found block, or its front, becomes used. */
    method HandOut(p: int, n: nat, room: int, ghost i: nat, ghost k: nat)
      requires Valid() && Fits(blocks, k, n) && i < |frees| && frees[i] == p == blocks[k].start
      requires room == blocks[k].Room(HEADER) && n % 2 == 0
      modifies this
      ensures Linked() && blocks == Splice(old(blocks), k, k + 1, Carve(old(blocks)[k], n))
      ensures frees == CarvedList(old(blocks), old(frees), k, n)
      ensures available == old(available) - if |Carve(old(blocks)[k], n)| == 2 then n + HEADER else room
      ensures maxUsed == if Size() - available > old(maxUsed) then Size() - available else old(maxUsed)
    {
      if room >= n + HEADER + MINI {
        CutFront(p, p + n + HEADER, i, k);
        Take(n + HEADER);
      } else {
        Take(room);
        Unfree(p, i);
      }
      Mark(p, true, k);
    }

    /** The rest of a free block takes its place on the free list. */
    method CutFront(p: int, q: int, ghost i: nat, ghost k: nat)
      requires Linked() && Exact(blocks, frees)
      requires k < |blocks| && !blocks[k].used && i < |frees| && frees[i] == p == blocks[k].start
      requires p + HEADER <= q && q + HEADER <= blocks[k].end && (q - p) % 2 == 0
      modifies this`items, this`blocks, this`frees
      ensures Linked() && frees == [q] + Without(old(frees), p)
      ensures q >= 0
      ensures blocks == Splice(old(blocks), k, k + 1, [Block(old(blocks)[k].start, q, false),
                                                       Block(q, old(blocks)[k].end, false)])
    {
      RoomIs(items, blocks, tail, k);
      InsideNotFree(blocks, frees, tail, k, q);
      CutAt(p, q, k);
      Unfree(p, i);
      PushFree(q);
    }

    // ----- Release -----

    /** rt_memheap_free: the block is no longer live; it has joined the free blocks it touches. */
    method Free(ptr: Option<nat>)
      requires Valid() && (ptr.Some? ==> IsLive(blocks, ptr.value))
      modifies this
      ensures Valid() && maxUsed == old(maxUsed)
      ensures ptr.None? ==> Unchanged(old(items), old(blocks), old(frees), old(available), old(maxUsed))
      ensures ptr.Some? ==> Live(blocks) == old(Live(blocks)) - old(Held(blocks, ptr.value))
    {
      if ptr.None? {
        return;
      }
      ghost var k :| LiveAt(blocks, k, ptr.value);
      HeldOne(blocks, tail, k);
      Freed(blocks, frees, available, tail, k);
      Merge(ptr.value - HEADER, k);
    }

    method Merge(p: int, ghost k: nat)
      requires Valid() && k < |blocks| && p == blocks[k].start && blocks[k].used
      modifies this`items, this`available, this`blocks, this`frees
      ensures Linked() && frees == FreedList(old(blocks), old(frees), k)
      ensures blocks == Splice(old(blocks), Lo(old(blocks), k), Hi(old(blocks), k), [Merged(old(blocks), k)])
      ensures available == old(available) + old(blocks)[k].Room(HEADER)
                           + (Hi(old(blocks), k) - Lo(old(blocks), k) - 1) * HEADER
    {
      ghost var bs := blocks;
      UsedNotFree(blocks, frees, tail, k);
      Mark(p, false, k);
      RoomIs(items, blocks, tail, k);
      available := available + (items[p].next - p - HEADER);
      Joins(bs, old(frees), k);
      var h;
      ghost var i;
      h, i := MergeLeft(p, k);
      var insert := h == p;
      MergeRight(h, i, if Hi(bs, k) == k + 2 then Listed(bs, frees, k + 1) else 0);
      if insert {
        RoomIs(items, blocks, tail, i);
        PushFree(h);
      }
    }

    /** A free block joins a free block in front of it; h is where it then begins. */
    method MergeLeft(p: int, ghost k: nat) returns (h: int, ghost i: nat)
      requires Linked() && k < |blocks| && p == blocks[k].start && !blocks[k].used
      modifies this`items, this`available, this`blocks
      ensures Linked() && i == Lo(old(blocks), k) && h == old(blocks)[i].start && (h == p <==> i == k)
      ensures available == old(available) + (k - i) * HEADER
      ensures blocks == JoinLeft(old(blocks), k)
    {
      AllApart(blocks, 0, tail);
      assert Node(items, blocks, tail, k);
      assert k > 0 ==> Node(items, blocks, tail, k - 1);
      assert Node(items, blocks, tail, |blocks|);
      h, i := p, k;
      if !items[items[p].prev].used {
        available := available + HEADER;
        h, i := items[p].prev, k - 1;
        Join(h, i);
      }
    }

    /** A free block takes in a free block behind it, which leaves the free list. */
    method MergeRight(h: int, ghost i: nat, ghost o: nat)
      requires Linked() && i < |blocks| && h == blocks[i].start && !blocks[i].used
      requires Hi(blocks, i) == i + 2 ==> o < |frees| && frees[o] == blocks[i + 1].start
      modifies this`items, this`available, this`blocks, this`frees
      ensures Linked() && frees == DropNext(old(blocks), old(frees), i)
      ensures available == old(available) + (Hi(old(blocks), i) - i - 1) * HEADER
      ensures blocks == JoinRight(old(blocks), i)
    {
      assert Node(items, blocks, tail, i) && Node(items, blocks, tail, i + 1);
      if !items[items[h].next].used {
        available := available + HEADER;
        var n := items[h].next;
        Join(h, i);
        Unfree(n, o);
      }
    }

    // ----- Changing the size -----

    /**
     * The free block behind is taken in, and the whole cut anew at n words: _remove_next_ptr and the new free block
     * of a
     * growing rt_memheap_realloc.
     */
    method Grow(p: int, n: nat, ghost k: nat)
      requires Valid() && k < |blocks| && p == blocks[k].start && blocks[k].used && Hi(blocks, k) == k + 2 && n % 2 == 0
      requires blocks[k].Room(HEADER) <= n && n + MINI < blocks[k].Room(HEADER) + blocks[k + 1].Room(HEADER)
      modifies this
      ensures Valid() && blocks == Splice(old(blocks), k, k + 2, Recut(old(blocks), k, n))
      ensures Live(blocks) == old(Live(blocks)) - {old(blocks)[k]} + {Recut(old(blocks), k, n)[0]}
      ensures maxUsed == if Size() - available > old(maxUsed) then Size() - available else old(maxUsed)
    {
      ghost var bs := blocks;
      Spans(bs, tail, k);
      Recutted(bs, frees, available, tail, k, n);
      RoomIs(items, blocks, tail, k);
      RoomIs(items, blocks, tail, k + 1);
      Take(n - (items[p].next - p - HEADER));
      var next := items[p].next;
      Unfree(next, Listed(bs, frees, k + 1));
      Join(p, k);
      var q := p + HEADER + n;
      FreeInRangeNot(bs, old(frees), tail, k, q);
      CutAt(p, q, k);
      PushFree(q);
      TwoSplices(bs, k, n);
    }

    /** The end of a block becomes a free block, together with the free block behind it. */
    method Shrink(p: int, n: nat, ghost k: nat)
      requires Valid() && k < |blocks| && p == blocks[k].start && blocks[k].used && n % 2 == 0
      requires n + HEADER + MINI < blocks[k].Room(HEADER)
      modifies this
      ensures Valid() && blocks == Splice(old(blocks), k, Hi(old(blocks), k), Recut(old(blocks), k, n))
      ensures Live(blocks) == old(Live(blocks)) - {old(blocks)[k]} + {Recut(old(blocks), k, n)[0]}
      ensures maxUsed == old(maxUsed)
    {
      ghost var bs := blocks;
      CanRecut(bs, tail, k, n);
      Recutted(bs, frees, available, tail, k, n);
      var q := CutOff(p, n, k);
      RoomIs(items, blocks, tail, k + 1);
      PushFree(q);
      RoomIs(items, blocks, tail, k + 1);
      available := available + (items[q].next - q - HEADER);
    }

    method CutOff(p: int, n: nat, ghost k: nat) returns (q: int)
      requires Linked() && Exact(blocks, frees) && k < |blocks| && p == blocks[k].start && blocks[k].used && n % 2 == 0
      requires n + HEADER + MINI < blocks[k].Room(HEADER)
      modifies this`items, this`available, this`blocks, this`frees
      ensures Linked() && blocks == Splice(old(blocks), k, Hi(old(blocks), k), Recut(old(blocks), k, n))
      ensures k + 1 < |blocks| && q == blocks[k + 1].start && q !in frees
      ensures blocks[k + 1] == Recut(old(blocks), k, n)[1]
      ensures frees == DropNext(old(blocks), old(frees), k)
      ensures available == old(available) - if Hi(old(blocks), k) == k + 2 then old(blocks)[k + 1].Room(HEADER) else 0
    {
      ghost var bs := blocks;
      q := p + HEADER + n;
      RoomIs(items, blocks, tail, k);
      InsideNotFree(bs, frees, tail, k, q);
      CutAt(p, q, k);
      CutThenJoin(bs, frees, k, n);
      TakeNext(q, k + 1, if Hi(bs, k) == k + 2 then Listed(bs, frees, k + 1) else 0);
    }

    /** The part cut off takes in a free block behind it. */
    method TakeNext(q: int, ghost i: nat, ghost o: nat)
      requires Linked() && i < |blocks| && q == blocks[i].start && !blocks[i].used
      requires Hi(blocks, i) == i + 2 ==> o < |frees| && frees[o] == blocks[i + 1].start
      modifies this`items, this`available, this`blocks, this`frees
      ensures Linked() && frees == DropNext(old(blocks), old(frees), i) && blocks == JoinRight(old(blocks), i)
      ensures available == old(available) - if Hi(old(blocks), i) == i + 2 then old(blocks)[i + 1].Room(HEADER) else 0
    {
      assert Node(items, blocks, tail, i) && Node(items, blocks, tail, i + 1);
      if !items[items[q].next].used {
        var f := items[q].next;
        RoomIs(items, blocks, tail, i + 1);
        available := available - (items[f].next - f - HEADER);
        Join(q, i);
        Unfree(f, o);
      }
    }

    /** New memory for a block that cannot grow where it is, and its content carried over. */
    method Move(ptr: nat, n: nat, ghost k: nat) returns (r: Option<nat>)
      requires Valid() && LiveAt(blocks, k, ptr) && n % 2 == 0 && MINI <= n && 4 * n <= SIZE_LIMIT - 8
      modifies this, cells
      ensures Valid() && maxUsed >= old(maxUsed)
      ensures r.None? <==> old(available) <= n || forall m :: !Fits(old(blocks), m, n)
      ensures r.None? ==>
        Unchanged(old(items), old(blocks), old(frees), old(available), old(maxUsed)) && cells[..] == old(cells[..])
      ensures r.Some? ==> Moved(old(blocks), old(frees), k, n, r.value, Live(blocks))
      ensures r.Some? ==> Carried(old(cells[..]), cells[..], ptr, r.value, Least(n, Payload(old(blocks)[k])))
      ensures KeepsPayloads(old(cells[..]), cells[..], old(Live(blocks)) - {old(blocks)[k]}, HEADER)
    {
      ghost var bs, m := blocks, 0;
      AllApart(bs, 0, tail);
      NeedAligned(n);
      r, m := Alloc(4 * n);
      if r.None? {
        return;
      }
      NewPlace(bs, tail, k, m, n);
      Resettle(ptr, r.value, n, bs, k, Carve(bs[m], n)[0]);
      MovedIs(bs, old(frees), k, n, m, Live(blocks));
    }

    /** The content goes to the new block c, and the old block is released. */
    method Resettle(ptr: nat, to: nat, n: nat, ghost bs: seq<Block>, ghost k: nat, ghost c: Block)
      requires Valid() && k < |bs| && bs[k].used && ptr == bs[k].start + HEADER && c.start != bs[k].start
      requires to == c.start + HEADER && n <= Payload(c) && c !in Live(bs) && Live(blocks) == Live(bs) + {c} && c.used
      modifies this, cells
      ensures Valid() && maxUsed == old(maxUsed) && Live(blocks) == Live(bs) + {c} - {bs[k]}
      ensures Carried(old(cells[..]), cells[..], ptr, to, Least(n, Payload(bs[k])))
      ensures KeepsPayloads(old(cells[..]), cells[..], Live(bs) - {bs[k]}, HEADER)
    {
      assert c in Live(blocks) && bs[k] in Live(blocks);
      CarryOver(ptr, to, n, bs[k], c);
      StillHeld(blocks, tail, bs[k]);
      Free(Some(ptr));
    }

    /** rt_memcpy of a move: nothing but the new block changes. */
    method CarryOver(from: nat, to: nat, n: nat, ghost b: Block, ghost c: Block)
      requires Valid() && b in Live(blocks) && c in Live(blocks) && b.start != c.start
      requires from == b.start + HEADER && to == c.start + HEADER && n <= Payload(c)
      modifies cells
      ensures Carried(old(cells[..]), cells[..], from, to, Least(n, Payload(b)))
      ensures KeepsPayloads(old(cells[..]), cells[..], Live(blocks) - {c}, HEADER)
    {
      LivePlaces(blocks, tail, b, c);
      ghost var i: nat :| i < |blocks| && blocks[i] == b;
      RoomIs(items, blocks, tail, i);
      var oldsize := items[from - HEADER].next - (from - HEADER) - HEADER;
      var k := if oldsize < n then oldsize else n;
      Copy(cells, from, to, k);
      forall d | d in Live(blocks) - {c}
        ensures Carried(old(cells[..]), cells[..], d.start + HEADER, d.start + HEADER, Payload(d))
      {
        LivePlaces(blocks, tail, d, c);
        OverlaidElsewhere(old(cells[..]), cells[..], from, to, k, d.start + HEADER, Payload(d));
      }
    }

    /** rt_memheap_realloc: in place when the block or the free block behind it has the room, else a move. */
    method Realloc(ptr: Option<nat>, newsize: Bytes) returns (r: Option<nat>, ghost k: nat)
      requires Valid() && (ptr.Some? ==> IsLive(blocks, ptr.value))
      requires ptr.Some? && SumWraps(Need(newsize)) ==>
        forall o: nat :: LiveAt(blocks, o, ptr.value) ==> Hi(blocks, o) == o + 1
      modifies this, cells
      ensures Valid() && maxUsed >= old(maxUsed)
      ensures newsize == 0 ==>
                r.None? && Live(blocks) == old(Live(blocks)) - (if ptr.Some? then old(Held(blocks, ptr.value)) else {})
      ensures newsize > 0 && ptr.None? ==>
                (r.None? <==> old(available) <= Need(newsize) || forall m :: !Fits(old(blocks), m, Need(newsize)))
      ensures newsize > 0 && ptr.None? && r.Some? ==>
                && FirstFit(old(blocks), old(frees), k, Need(newsize)) && r.value == old(blocks)[k].start + HEADER
                && blocks == Splice(old(blocks), k, k + 1, Carve(old(blocks)[k], Need(newsize)))
      ensures newsize > 0 && ptr.Some? ==>
                LiveAt(old(blocks), k, ptr.value) &&
                  Resized(old(blocks), old(frees), old(available), k, Need(newsize), r)
      ensures 0 < newsize <= SIZE_LIMIT - 8 && ptr.None? ==>
                Served(old(blocks), old(frees), old(available), Live(blocks), newsize, r)
      ensures 0 < newsize <= SIZE_LIMIT - 8 && ptr.Some? ==>
                k < |old(blocks)|
                && ResizedTo(old(blocks), old(frees), old(available), k, Live(blocks), newsize, r)
      ensures newsize > 0 && r.None? ==>
                Unchanged(old(items), old(blocks), old(frees), old(available), old(maxUsed)) &&
                  cells[..] == old(cells[..])
      ensures r.Some? && ptr.Some? ==>
                Carried(old(cells[..]), cells[..], ptr.value, r.value, Least(Need(newsize), Payload(old(blocks)[k])))
      ensures KeepsPayloads(old(cells[..]), cells[..],
                            old(Live(blocks)) - (if ptr.Some? then old(Held(blocks, ptr.value)) else {}), HEADER)
    {
      r, k := None, 0;
      if newsize == 0 {
        Free(ptr);
        return;
      }
      var n := Need(newsize);
      NeedAligned(n);
      ghost var bs, fl, words := blocks, frees, available;
      if ptr.None? {
        r, k := Alloc(4 * n);
        if newsize <= SIZE_LIMIT - 8 {
          ServedOr(bs, fl, words, tail, Live(blocks), k, newsize, r);
        }
        return;
      }
      k :| LiveAt(blocks, k, ptr.value);
      HeldOne(blocks, tail, k);
      r := ResizeBytes(ptr.value, newsize, k);
    }

    /** Resize, with what it leads to said in bytes. */
    method ResizeBytes(ptr: nat, newsize: Bytes, ghost k: nat) returns (r: Option<nat>)
      requires Valid() && LiveAt(blocks, k, ptr) && (SumWraps(Need(newsize)) ==> Hi(blocks, k) == k + 1)
      modifies this, cells
      ensures Valid() && maxUsed >= old(maxUsed)
      ensures Resized(old(blocks), old(frees), old(available), k, Need(newsize), r)
      ensures newsize <= SIZE_LIMIT - 8 ==>
                ResizedTo(old(blocks), old(frees), old(available), k, Live(blocks), newsize, r)
      ensures r.None? ==>
        Unchanged(old(items), old(blocks), old(frees), old(available), old(maxUsed)) && cells[..] == old(cells[..])
      ensures r.Some? ==>
                Carried(old(cells[..]), cells[..], ptr, r.value, Least(Need(newsize), Payload(old(blocks)[k])))
      ensures KeepsPayloads(old(cells[..]), cells[..], old(Live(blocks)) - {old(blocks)[k]}, HEADER)
    {
      ghost var bs, fl, words := blocks, frees, available;
      NeedAligned(Need(newsize));
      r := Resize(ptr, Need(newsize), k);
      if newsize <= SIZE_LIMIT - 8 {
        ResizedIs(bs, fl, words, tail, k, Live(blocks), newsize, r);
      }
    }

    /** The four ways a resize can end. */
    ghost predicate Resized(bs: seq<Block>, fl: seq<int>, words: int, k: nat, n: nat, r: Option<nat>)
      requires k < |bs|
      reads `blocks, `frees
    {
      var ptr := bs[k].start + HEADER;
      if Fitting(bs, k, n) then r == Some(ptr) && blocks == bs && frees == fl
      else if InPlace(bs, k, n) then
        && r == Some(ptr) && blocks == Splice(bs, k, Hi(bs, k), Recut(bs, k, n))
        && Live(blocks) == Live(bs) - {bs[k]} + {Recut(bs, k, n)[0]}
      else if words <= n || forall m :: !Fits(bs, m, n) then r == None
      else r.Some? && Moved(bs, fl, k, n, r.value, Live(blocks))
    }

    method Resize(ptr: nat, n: nat, ghost k: nat) returns (r: Option<nat>)
      requires Valid() && LiveAt(blocks, k, ptr) && n % 2 == 0 && MINI <= n && 4 * n <= SIZE_LIMIT - 8
      requires SumWraps(n) ==> Hi(blocks, k) == k + 1
      modifies this, cells
      ensures Valid() && maxUsed >= old(maxUsed) && Resized(old(blocks), old(frees), old(available), k, n, r)
      ensures r.None? ==>
        Unchanged(old(items), old(blocks), old(frees), old(available), old(maxUsed)) && cells[..] == old(cells[..])
      ensures r.Some? ==> Carried(old(cells[..]), cells[..], ptr, r.value, Least(n, Payload(old(blocks)[k])))
      ensures KeepsPayloads(old(cells[..]), cells[..], old(Live(blocks)) - {old(blocks)[k]}, HEADER)
    {
      var p := ptr - HEADER;
      RoomIs(items, blocks, tail, k);
      AllApart(blocks, 0, tail);
      var oldsize := items[p].next - p - HEADER;
      if n > oldsize {
        var grows := CanGrow(p, n, k);
        if grows {
          Grow(p, n, k);
          return Some(ptr);
        }
        r := Move(ptr, n, k);
        return;
      }
      if n + HEADER + MINI < oldsize {
        Shrink(p, n, k);
      }
      r := Some(ptr);
    }

    /** The test for growing in place; its sum is computed in 32 bits. */
    method CanGrow(p: int, n: nat, ghost k: nat) returns (yes: bool)
      requires Valid() && k < |blocks| && p == blocks[k].start && 4 * n <= SIZE_LIMIT - 8
      requires SumWraps(n) ==> Hi(blocks, k) == k + 1
      ensures yes <==> Hi(blocks, k) == k + 2 && n + MINI < blocks[k].Room(HEADER) + blocks[k + 1].Room(HEADER)
    {
      RoomIs(items, blocks, tail, k);
      assert Node(items, blocks, tail, k + 1);
      var next := items[p].next;
      if items[next].used {
        return false;
      }
      RoomIs(items, blocks, tail, k + 1);
      yes := GrowTest(items[next].next - next - HEADER, items[p].next - p - HEADER, n);
    }

    // ----- Runs -----

    /** After any run the heap is well formed; a run that has released everything leaves one free block. */
    method Run(script: seq<Request>) returns (held: set<nat>, ghost states: seq<set<nat>>)
      requires Valid() && Live(blocks) == {}
      modifies this, cells
      ensures Valid() && Holds(held, Live(blocks)) && maxUsed >= old(maxUsed)
      ensures |states| == |script| + 1 && states[0] == {} && states[|script|] == held
      ensures forall i :: 0 <= i < |script| ==> Does(script[i], states[i], states[i + 1])
      ensures held == {} ==> blocks == [Block(0, tail, false)] && available == Size() - 2 * HEADER && frees == [0]
    {
      held, states := {}, [{}];
      for i := 0 to |script|
        invariant Valid() && Holds(held, Live(blocks)) && maxUsed >= old(maxUsed)
        invariant |states| == i + 1 && states[0] == {} && states[i] == held
        invariant forall j :: 0 <= j < i ==> Does(script[j], states[j], states[j + 1])
      {
        match script[i] {
          case Get(size) =>
            held := Get(size, held);
          case Put(p) =>
            if p in held {
              HeldIsLive(blocks, held, p);
              HoldsDrop(blocks, held, p);
              Free(Some(p));
              held := held - {p};
            }
          case Change(p, size) =>
            if p in held && !SumWraps(Need(size)) {
              held := Change(p, size, held);
            }
        }
        states := states + [held];
      }
      if held == {} {
        forall b ensures b !in Live(blocks) {
          if b in Live(blocks) {
            assert PointsAt(Live(blocks), b.start + HEADER);
          }
        }
        assert Live(blocks) == {};
        Drained();
      }
    }

    method Get(size: Bytes, held: set<nat>) returns (now: set<nat>)
      requires Valid() && Holds(held, Live(blocks))
      modifies this
      ensures Valid() && Holds(now, Live(blocks)) && maxUsed >= old(maxUsed) && Got(held, now)
    {
      var r, k := Alloc(size);
      now := held;
      if r.Some? {
        HoldsAdd(held, old(Live(blocks)), Carve(old(blocks)[k], Need(size))[0]);
        now := held + {r.value};
      }
    }

    method Change(p: nat, size: Bytes, held: set<nat>) returns (now: set<nat>)
      requires Valid() && Holds(held, Live(blocks)) && p in held && !SumWraps(Need(size))
      modifies this, cells
      ensures Valid() && Holds(now, Live(blocks)) && maxUsed >= old(maxUsed) && Changed(held, now, p)
    {
      ghost var bs, fl := blocks, frees;
      HeldIsLive(bs, held, p);
      HoldsDrop(bs, held, p);
      var r, k := Realloc(Some(p), size);
      if size == 0 {
        now := held - {p};
      } else if r.None? {
        now := held;
      } else {
        now := held - {p} + {r.value};
        HeldOne(bs, tail, k);
        if !Fitting(bs, k, Need(size)) {
          HoldsResized(bs, fl, k, Need(size), r.value, held, Live(blocks));
        }
      }
    }

    lemma Drained()
      requires Valid() && Live(blocks) == {}
      ensures blocks == [Block(0, tail, false)] && available == Size() - 2 * HEADER && frees == [0]
    {
      AllApart(blocks, 0, tail);
      NothingLive(blocks, tail);
      TotalOne(blocks[0], FreeRoom);
      assert FreeBlock(blocks, 0, 0) && 0 in frees;
      forall p | p in frees ensures p == 0 {
        var k :| FreeBlock(blocks, k, p);
      }
      if |frees| > 1 {
        var a, b := TwoMembers(frees);
        assert false;
      }
    }
  }

  /** What clients do: allocate, release a pointer they hold, resize one. */
  datatype Request = Get(size: Bytes) | Put(p: nat) | Change(p: nat, size: Bytes)

  /** What one request does to the pointers a client holds. */
  ghost predicate Does(r: Request, held: set<nat>, now: set<nat>) {
    match r
    case Get(_) => Got(held, now)
    case Put(p) => now == held - {p}
    case Change(p, _) => Changed(held, now, p)
  }
}
