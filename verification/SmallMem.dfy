module SmallMem {
  import opened BlockLayout
  import opened Contents
  import opened Lists
  import opened SmallMemLayout

  class SmallHeap {
    const total: nat
    const pool: int
    const cells: array<int>
    var lfree: nat
    var used: int
    var max: int
    ghost var blocks: seq<Block>

    function End(): nat {
      total + SZ
    }

    /** The headers agree with the blocks; heap_end is a header that is always in use. */
    ghost predicate Laid()
      reads this, cells
    {
      && pool % 2 == 0
      && total % 2 == 0
      && 4 * (total + 2 * SZ) <= SIZE_LIMIT
      && cells.Length == total + 2 * SZ
      && Tiles(blocks, 0, End())
      && Linked(cells[..], blocks, pool)
      && cells[End()] == pool + 1
    }

    ghost predicate Valid()
      reads this, cells
    {
      && Laid()
      && Coalesced(blocks)
      && LowestFree(blocks, lfree, End())
      && used == UsedSum(blocks)
      && used <= max
    }

    predicate IsUsed(p: int)
      requires 0 <= p < cells.Length
      reads cells
    {
      cells[p] % 2 == 1
    }

    /** Steps through block k: its header can be read, and next leads to block k + 1 or to the end. */
    lemma At(k: nat)
      requires Laid() && k < |blocks|
      ensures var p := blocks[k].start;
              && p + 2 * SZ <= cells.Length && p % 2 == 0 && p + SZ <= blocks[k].end
              && (IsUsed(p) <==> blocks[k].used)
              && cells[p + 1] == blocks[k].end <= End()
              && cells[p + 1] == (if k + 1 < |blocks| then blocks[k + 1].start else End())
              && cells[p + 2] == (if k == 0 then 0 else blocks[k - 1].start)
    {
      assert Header(cells[..], blocks, k, pool);
      assert Piece(blocks, k, End());
      AllApart(blocks, 0, End());
    }

    /** Initial heap: one free block (rt_smem_init after the address arithmetic). */
    constructor (memSize: nat, self: int)
      requires memSize % 2 == 0 && self % 2 == 0 && 4 * (memSize + 2 * SZ) <= SIZE_LIMIT
      ensures Valid() && fresh(cells) && total == memSize
      ensures blocks == [Block(0, End(), false)] && used == 0 && max == 0
    {
      total, pool := memSize, self;
      cells := new int[memSize + 2 * SZ](i => 0);
      lfree, used, max := 0, 0, 0;
      blocks := [Block(0, memSize + SZ, false)];
      new;
      cells[0], cells[1], cells[2] := pool, End(), 0;
      cells[End()], cells[End() + 1], cells[End() + 2] := pool + 1, End(), End();
      assert Piece(blocks, 0, End());
      assert Header(cells[..], blocks, 0, pool);
      TotalOne(blocks[0], UsedExtent);
      assert blocks[0] in blocks;
    }

    /** Cuts a free header off the end of the block at ptr, behind size words of payload. */
    method Split(ptr: nat, size: nat, ghost k: nat)
      requires Laid() && k < |blocks| && blocks[k].start == ptr
      requires size % 2 == 0 && ptr + SZ + size + SZ <= blocks[k].end
      modifies cells, this`blocks
      ensures old(blocks)[k].end <= End() && Laid()
      ensures blocks == Splice(old(blocks), k, k + 1,
                               [Block(ptr, ptr + SZ + size, old(blocks)[k].used),
                                Block(ptr + SZ + size, old(blocks)[k].end, false)])
      ensures KeepsPayloads(old(cells[..]), cells[..], Live(old(blocks)) - {old(blocks)[k]}, SZ)
      ensures forall i :: ptr + SZ <= i < ptr + SZ + size ==> cells[i] == old(cells[i])
    {
      At(k);
      ghost var s := cells[..];
      ghost var e := blocks[k].end;
      var ptr2 := ptr + SZ + size;
      cells[ptr2] := pool;
      cells[ptr2 + 1] := cells[ptr + 1];
      cells[ptr2 + 2] := ptr;
      cells[ptr + 1] := ptr2;
      if cells[ptr2 + 1] != End() {
        cells[cells[ptr2 + 1] + 2] := ptr2;
      }
      ghost var mid := [Block(ptr, ptr2, blocks[k].used), Block(ptr2, e, false)];
      assert cells[..] == Cut(s, ptr, ptr2, e, pool, End());
      CutLinked(s, blocks, k, ptr2, pool, End());
      CutKeeps(s, blocks, k, ptr2, pool, End());
      assert Piece(mid, 0, e) && Piece(mid, 1, e);
      SpliceTiles(blocks, k, k + 1, mid, End());
      blocks := Splice(blocks, k, k + 1, mid);
    }

    /** Joins the free block at n to the free block at m before it: either half of plug_holes. */
    method Absorb(m: nat, n: nat, ghost k: nat)
      requires Laid() && k + 1 < |blocks| && blocks[k].start == m && blocks[k + 1].start == n
      requires !blocks[k].used && !blocks[k + 1].used
      modifies cells, this`blocks, this`lfree
      ensures Laid() && lfree == if old(lfree) == n then m else old(lfree)
      ensures blocks == Joined(old(blocks), k)
      ensures KeepsPayloads(old(cells[..]), cells[..], Live(old(blocks)), SZ)
    {
      At(k);
      At(k + 1);
      ghost var s := cells[..];
      ghost var bs := blocks;
      ghost var e := blocks[k + 1].end;
      if lfree == n {
        lfree := m;
      }
      cells[n] := 0;
      cells[m + 1] := cells[n + 1];
      cells[cells[n + 1] + 2] := m;
      ghost var mid := [Block(m, e, false)];
      AbsorbLinked(s, bs, k, pool, End());
      AbsorbKeeps(s, bs, k, End());
      assert cells[..] == Absorbed(s, m, n, e);
      assert Piece(mid, 0, e);
      assert Piece(bs, k, End()) && Piece(bs, k + 1, End());
      SpliceTiles(bs, k, k + 2, mid, End());
      blocks := Splice(bs, k, k + 2, mid);
    }

    /** Joins the free block at mem with its free neighbours. */
    method PlugHoles(mem: nat, ghost k: nat)
      requires Laid() && k < |blocks| && blocks[k].start == mem && !blocks[k].used
      requires CoalescedBut(blocks, k) && LowestFree(blocks, lfree, End())
      modifies cells, this`blocks, this`lfree
      ensures Laid() && Coalesced(blocks) && LowestFree(blocks, lfree, End())
      ensures Live(blocks) == old(Live(blocks)) && UsedSum(blocks) == old(UsedSum(blocks))
      ensures KeepsPayloads(old(cells[..]), cells[..], old(Live(blocks)), SZ)
    {
      PlugForward(mem, k);
      PlugBackward(mem, k);
    }

    method PlugForward(mem: nat, ghost k: nat)
      requires Laid() && k < |blocks| && blocks[k].start == mem && !blocks[k].used
      requires CoalescedBut(blocks, k) && LowestFree(blocks, lfree, End())
      modifies cells, this`blocks, this`lfree
      ensures Laid() && LowestFree(blocks, lfree, End())
      ensures k < |blocks| && blocks[k].start == mem && !blocks[k].used
      ensures CoalescedBut(blocks, k) && (k + 1 < |blocks| ==> blocks[k + 1].used)
      ensures Live(blocks) == old(Live(blocks)) && UsedSum(blocks) == old(UsedSum(blocks))
      ensures KeepsPayloads(old(cells[..]), cells[..], old(Live(blocks)), SZ)
    {
      At(k);
      if k + 1 < |blocks| {
        At(k + 1);
      }
      var nmem := cells[mem + 1];
      if mem != nmem && !IsUsed(nmem) && nmem != End() {
        JoinedForward(blocks, k, End(), lfree);
        Absorb(mem, nmem, k);
      }
    }

    method PlugBackward(mem: nat, ghost k: nat)
      requires Laid() && k < |blocks| && blocks[k].start == mem && !blocks[k].used
      requires CoalescedBut(blocks, k) && (k + 1 < |blocks| ==> blocks[k + 1].used)
      requires LowestFree(blocks, lfree, End())
      modifies cells, this`blocks, this`lfree
      ensures Laid() && Coalesced(blocks) && LowestFree(blocks, lfree, End())
      ensures Live(blocks) == old(Live(blocks)) && UsedSum(blocks) == old(UsedSum(blocks))
      ensures KeepsPayloads(old(cells[..]), cells[..], old(Live(blocks)), SZ)
    {
      At(k);
      if k > 0 {
        At(k - 1);
      }
      var pmem := cells[mem + 2];
      if pmem != mem && !IsUsed(pmem) {
        JoinedBackward(blocks, k - 1, End(), lfree);
        Absorb(pmem, mem, k - 1);
      } else {
        NeighboursUsed(blocks, k);
      }
    }

    /** Releases the block behind rmem; a null pointer is ignored. */
    method Free(rmem: Option<nat>)
      requires Valid() && (rmem.Some? ==> IsLive(blocks, rmem.value))
      modifies this, cells
      ensures Valid() && max == old(max)
      ensures rmem.None? ==> blocks == old(blocks) && cells[..] == old(cells[..])
      ensures rmem.Some? ==>
                && Live(blocks) == old(Live(blocks)) - {old(BlockOf(blocks, rmem.value))}
                && used == old(used) - old(BlockOf(blocks, rmem.value).end - BlockOf(blocks, rmem.value).start)
      ensures KeepsPayloads(old(cells[..]), cells[..], Live(blocks), SZ)
    {
      if rmem == None {
        return;
      }
      ghost var b := BlockOf(blocks, rmem.value);
      ghost var k: nat :| k < |blocks| && blocks[k] == b;
      var mem := rmem.value - SZ;
      Unmark(mem, k);
      ghost var t := cells[..];
      PlugHoles(mem, k);
      KeepsTrans(old(cells[..]), t, cells[..], Live(blocks));
    }

    /** Marks block k free, before the holes around it are plugged. */
    method Unmark(mem: nat, ghost k: nat)
      requires Valid() && k < |blocks| && blocks[k].used && blocks[k].start == mem
      modifies this, cells
      ensures Laid() && LowestFree(blocks, lfree, End()) && CoalescedBut(blocks, k)
      ensures blocks == old(blocks)[k := Block(mem, old(blocks)[k].end, false)]
      ensures Live(blocks) == old(Live(blocks)) - {old(blocks)[k]}
      ensures used == UsedSum(blocks) <= max == old(max)
      ensures used == old(used) - (old(blocks)[k].end - mem)
      ensures KeepsPayloads(old(cells[..]), cells[..], old(Live(blocks)), SZ)
    {
      At(k);
      MarkLinked(cells[..], blocks, k, false, pool, End());
      MarkKeeps(cells[..], blocks, k, pool, End());
      FreeBlock(blocks, k, End());
      FreeLowest(blocks, k, End(), lfree);
      cells[mem] := pool;
      if mem < lfree {
        lfree := mem;
      }
      used := used - (cells[mem + 1] - mem);
      assert cells[..] == old(cells[..])[mem := pool];
      blocks := blocks[k := blocks[k].(used := false)];
    }

    /** Turns the free block at ptr into a live block with room for n words. */
    method Claim(ptr: nat, n: nat, ghost k: nat)
      requires Valid() && k < |blocks| && Fits(blocks[k], n) && blocks[k].start == ptr && n % 2 == 0
      modifies this, cells
      ensures Valid() && blocks == Claimed(old(blocks), k, n)
      ensures used == old(used) + Granted(old(blocks)[k], n).end - ptr
      ensures max == if old(max) < used then used else old(max)
      ensures KeepsPayloads(old(cells[..]), cells[..], old(Live(blocks)), SZ)
    {
      ClaimedLayout(blocks, k, n, End());
      ClaimedCoalesced(blocks, k, n);
      ClaimedLowest(blocks, k, n, End(), lfree);
      Carve(ptr, n, k);
      if ptr == lfree {
        NextFree(k);
      }
    }

    /** The header writes of Claim: cut off what the request leaves, and mark the block used. */
    method Carve(ptr: nat, n: nat, ghost k: nat)
      requires Laid() && k < |blocks| && Fits(blocks[k], n) && blocks[k].start == ptr && n % 2 == 0
      modifies cells, this`blocks, this`used, this`max
      ensures Laid() && blocks == Claimed(old(blocks), k, n)
      ensures used == old(used) + Granted(old(blocks)[k], n).end - ptr
      ensures max == if old(max) < used then used else old(max)
      ensures KeepsPayloads(old(cells[..]), cells[..], old(Live(blocks)), SZ)
    {
      At(k);
      ghost var bs, live := blocks, Live(blocks);
      assert live - {bs[k]} == live;
      if cells[ptr + 1] - (ptr + SZ) >= n + SZ + MIN_SIZE_ALIGNED {
        Split(ptr, n, k);
        used := used + n + SZ;
        assert blocks[k] == Block(ptr, ptr + SZ + n, false);
      } else {
        used := used + (cells[ptr + 1] - ptr);
      }
      if max < used {
        max := used;
      }
      ghost var t := cells[..];
      Mark(ptr, k);
      MarkKeeps(t, bs, k, pool + 1, End());
      KeepsTrans(old(cells[..]), t, cells[..], live);
    }

    method Mark(ptr: nat, ghost k: nat)
      requires Laid() && k < |blocks| && blocks[k].start == ptr
      modifies cells, this`blocks
      ensures Laid() && blocks == old(blocks)[k := old(blocks)[k].(used := true)]
      ensures ptr < cells.Length && cells[..] == old(cells[..])[ptr := pool + 1]
    {
      At(k);
      MarkLinked(cells[..], blocks, k, true, pool, End());
      cells[ptr] := pool + 1;
      assert cells[..] == old(cells[..])[ptr := pool + 1];
      blocks := blocks[k := blocks[k].(used := true)];
    }

    /** Moves lfree from block k to the next free block or to the end. */
    method NextFree(ghost k: nat)
      requires Laid() && k < |blocks| && lfree == blocks[k].start
      requires forall i :: 0 <= i < k ==> blocks[i].used
      modifies this`lfree
      ensures LowestFree(blocks, lfree, End())
    {
      AllApart(blocks, 0, End());
      At(k);
      ghost var j := k;
      while IsUsed(lfree) && lfree != End()
        invariant k <= j <= |blocks|
        invariant lfree == if j < |blocks| then blocks[j].start else End()
        invariant lfree < cells.Length
        invariant forall i :: 0 <= i < j ==> blocks[i].used
        decreases |blocks| - j
      {
        At(j);
        lfree := cells[lfree + 1];
        j := j + 1;
      }
      if j < |blocks| {
        At(j);
        assert blocks[j] in blocks;
      }
    }

    /** First fit: the lowest free block that holds the aligned request, or null when there is none. */
    method Alloc(size: Bytes) returns (r: Option<nat>)
      requires Valid()
      modifies this, cells
      ensures Valid()
      ensures r.None? <==> size == 0 || NoneHas(old(blocks), Need(size))
      ensures r.None? ==> blocks == old(blocks) && cells[..] == old(cells[..]) && lfree == old(lfree) && max == old(max)
      ensures r.Some? ==> GrantedAt(old(blocks), Live(blocks), Need(size), r.value)
      ensures 0 < size <= SIZE_LIMIT - 8 ==> Served(old(blocks), Live(blocks), size, r)
      ensures r.Some? ==> max == if old(max) < used then used else old(max)
      ensures r.Some? ==> Charged(r.value, old(used))
      ensures KeepsPayloads(old(cells[..]), cells[..], old(Live(blocks)), SZ)
    {
      r := None;
      if size > 0 {
        ghost var bs := blocks;
        r := Grant(size);
        ServedOr(bs, Live(blocks), End(), size, r);
      }
    }

    /** Alloc for a size that is not zero. */
    method Grant(size: Bytes) returns (r: Option<nat>)
      requires Valid() && size > 0
      modifies this, cells
      ensures Valid()
      ensures r.None? <==> NoneHas(old(blocks), Need(size))
      ensures r.None? ==> blocks == old(blocks) && cells[..] == old(cells[..]) && lfree == old(lfree) && max == old(max)
      ensures r.Some? ==> GrantedAt(old(blocks), Live(blocks), Need(size), r.value)
      ensures r.Some? ==> max == if old(max) < used then used else old(max)
      ensures r.Some? ==> Charged(r.value, old(used))
      ensures KeepsPayloads(old(cells[..]), cells[..], old(Live(blocks)), SZ)
    {
      var n := Aligned(size);
      if n < MIN_SIZE_ALIGNED {
        n := MIN_SIZE_ALIGNED;
      }
      var ptr;
      ghost var k;
      ptr, k := Find(n);
      r := None;
      if ptr.Some? {
        Take(ptr.value, n, k);
        r := Some(ptr.value + SZ);
      }
    }

    /** The first block with room for n words, if there is one. */
    method Find(n: nat) returns (r: Option<nat>, ghost k: nat)
      requires Valid() && n > 0
      ensures r.None? <==> NoneHas(blocks, n)
      ensures r.Some? ==> FirstFit(blocks, n, k) && blocks[k].start == r.value
    {
      if n > total {
        NoneFits(blocks, End(), 0, n);
        return None, 0;
      }
      r, k := Search(n);
    }

    /** The block at p is live and counted, header included. */
    ghost predicate Charged(p: int, before: int)
      reads `blocks, `used
    {
      IsLive(blocks, p) && used == before + BlockOf(blocks, p).end - BlockOf(blocks, p).start
    }

    /** Claim, seen from outside. */
    method Take(ptr: nat, n: nat, ghost k: nat)
      requires Valid() && FirstFit(blocks, n, k) && blocks[k].start == ptr && n % 2 == 0
      modifies this, cells
      ensures Valid() && GrantedAt(old(blocks), Live(blocks), n, ptr + SZ) && Charged(ptr + SZ, old(used))
      ensures max == if old(max) < used then used else old(max)
      ensures KeepsPayloads(old(cells[..]), cells[..], old(Live(blocks)), SZ)
    {
      ClaimedLayout(blocks, k, n, End());
      Claim(ptr, n, k);
      OneBlockOf(blocks, End(), k);
    }

    /** Walks the headers from lfree on, as far as n words could still fit. */
    method Search(n: nat) returns (r: Option<nat>, ghost k: nat)
      requires Valid() && 0 < n <= total
      ensures r.None? <==> NoneHas(blocks, n)
      ensures r.Some? ==> FirstFit(blocks, n, k) && blocks[k].start == r.value
    {
      var ptr := lfree;
      k := LowestIndex(blocks, End(), lfree);
      while ptr <= total - n
        invariant k <= |blocks| && ptr == if k < |blocks| then blocks[k].start else End()
        invariant forall j :: 0 <= j < k ==> !Fits(blocks[j], n)
        decreases |blocks| - k
      {
        At(k);
        if !IsUsed(ptr) && cells[ptr + 1] - (ptr + SZ) >= n {
          assert blocks[k] in blocks && Fits(blocks[k], n);
          return Some(ptr), k;
        }
        ptr := cells[ptr + 1];
        k := k + 1;
      }
      NoneFits(blocks, End(), k, n);
      r := None;
    }

    /** Cuts the live block at mem down to n words and gives the rest back. */
    method Shrink(mem: nat, n: nat, ghost k: nat)
      requires Valid() && k < |blocks| && blocks[k].used && blocks[k].start == mem
      requires n % 2 == 0 && n + SZ + MIN_SIZE < blocks[k].Room(SZ)
      modifies this, cells
      ensures Valid() && max == old(max)
      ensures Live(blocks) == old(Live(blocks)) - {old(blocks)[k]} + {Block(mem, mem + SZ + n, true)}
      ensures KeepsPayloads(old(cells[..]), cells[..], old(Live(blocks)) - {old(blocks)[k]}, SZ)
      ensures forall i :: mem + SZ <= i < mem + SZ + n ==> i < cells.Length && cells[i] == old(cells[i])
    {
      ghost var s, live := cells[..], Live(blocks) - {blocks[k]};
      CutOff(mem, n, k);
      ghost var t, kept := cells[..], Block(mem, mem + SZ + n, true);
      assert kept in Live(blocks);
      At(k);
      PlugHoles(mem + SZ + n, k + 1);
      KeepsTrans(s, t, cells[..], live);
      forall i | mem + SZ <= i < mem + SZ + n ensures cells[..][i] == s[i] {
        assert t[i] == s[i];
      }
    }

    /** The first half of Shrink: the cut itself, before the holes are plugged. */
    method CutOff(mem: nat, n: nat, ghost k: nat)
      requires Valid() && k < |blocks| && blocks[k].used && blocks[k].start == mem
      requires n % 2 == 0 && n + SZ + MIN_SIZE < blocks[k].Room(SZ)
      modifies this, cells
      ensures Laid() && LowestFree(blocks, lfree, End()) && CoalescedBut(blocks, k + 1)
      ensures k + 1 < |blocks| && blocks[k + 1].start == mem + SZ + n && !blocks[k + 1].used
      ensures blocks[k] == Block(mem, mem + SZ + n, true)
      ensures used == UsedSum(blocks) <= max == old(max)
      ensures Live(blocks) == old(Live(blocks)) - {old(blocks)[k]} + {Block(mem, mem + SZ + n, true)}
      ensures KeepsPayloads(old(cells[..]), cells[..], old(Live(blocks)) - {old(blocks)[k]}, SZ)
      ensures forall i :: mem + SZ <= i < mem + SZ + n ==> i < cells.Length && cells[i] == old(cells[i])
    {
      At(k);
      var size := cells[mem + 1] - mem - SZ;
      used := used - (size - n);
      var mem2 := mem + SZ + n;
      ShrunkLayout(blocks, k, n, End(), lfree);
      ShrunkLowest(blocks, k, mem2, End(), lfree);
      Split(mem, n, k);
      if mem2 < lfree {
        lfree := mem2;
      }
      assert blocks[k] == Block(mem, mem2, true) && !blocks[k + 1].used;
      At(k);
    }

    /** Copies from the payload of block j into the payload of block i. */
    method CopyInto(dst: nat, src: nat, n: nat, ghost i: nat, ghost j: nat)
      requires Valid() && i < |blocks| && j < |blocks| && i != j
      requires dst == blocks[i].start + SZ && src == blocks[j].start + SZ
      requires n <= blocks[i].Room(SZ) && n <= blocks[j].Room(SZ)
      modifies cells
      ensures Valid()
      ensures Carried(old(cells[..]), cells[..], src, dst, n)
      ensures KeepsPayloads(old(cells[..]), cells[..], Live(blocks) - {blocks[i]}, SZ)
    {
      TwoApart(blocks, End(), i, j);
      Copy(cells, src, dst, n);
      PayloadWrite(old(cells[..]), cells[..], blocks, i, pool, End());
    }

    method CopyAndFree(dst: nat, src: nat, n: nat, ghost i: nat, ghost j: nat)
      requires Valid() && i < |blocks| && j < |blocks| && i != j && blocks[i].used && blocks[j].used
      requires dst == blocks[i].start + SZ && src == blocks[j].start + SZ
      requires n <= blocks[i].Room(SZ) && n <= blocks[j].Room(SZ)
      modifies this, cells
      ensures Valid() && max == old(max)
      ensures Live(blocks) == old(Live(blocks)) - {old(blocks)[j]}
      ensures KeepsPayloads(old(cells[..]), cells[..], old(Live(blocks)) - {old(blocks)[i]} - {old(blocks)[j]}, SZ)
      ensures Carried(old(cells[..]), cells[..], src, dst, n)
    {
      ghost var t, live, g, b := cells[..], Live(blocks), blocks[i], blocks[j];
      TwoApart(blocks, End(), i, j);
      CopyInto(dst, src, n, i, j);
      ghost var u := cells[..];
      OneBlockOf(blocks, End(), j);
      Free(Some(src));
      CopyKeeps(t, u, cells[..], live, g, b, n);
    }

    lemma Grantee(bs: seq<Block>, after: seq<Block>, b: Block, n: nat, p: nat) returns (g: Block)
      requires Tiles(bs, 0, End()) && b in Live(bs) && GrantedAt(bs, Live(after), AtLeast(n), p)
      ensures g in Live(after) && b in Live(after) && g !in Live(bs) && g.start + SZ == p && n <= g.Room(SZ)
      ensures Live(after) == Live(bs) + {g} && MovedTo(bs, Live(bs) + {g} - {b}, b, AtLeast(n), p)
    {
      var f :| FirstFit(bs, AtLeast(n), f) && p == bs[f].start + SZ
               && Live(after) == Live(bs) + {Granted(bs[f], AtLeast(n))};
      g := Granted(bs[f], AtLeast(n));
      GrantedIsNew(bs, f, AtLeast(n), End());
    }

    /** Resizes by moving: allocate, copy the shorter of the two payloads, free the old block. */
    method Move(rmem: nat, n: nat, ghost k: nat) returns (r: Option<nat>)
      requires Valid() && k < |blocks| && blocks[k].used && rmem == blocks[k].start + SZ
      requires 0 < n <= total && n % 2 == 0 && n != blocks[k].Room(SZ)
      modifies this, cells
      ensures Valid()
      ensures r.None? ==> blocks == old(blocks) && cells[..] == old(cells[..]) && lfree == old(lfree) && max == old(max)
      ensures r.None? ==> NoneHas(blocks, AtLeast(n))
      ensures r.Some? ==> MovedTo(old(blocks), Live(blocks), old(blocks)[k], AtLeast(n), r.value)
      ensures KeepsPayloads(old(cells[..]), cells[..], old(Live(blocks)) - {old(blocks)[k]}, SZ)
      ensures r.Some? ==> Carried(old(cells[..]), cells[..], rmem, r.value, Least(n, old(blocks[k].Room(SZ))))
    {
      At(k);
      var size := cells[rmem - SZ + 1] - (rmem - SZ) - SZ;
      AlignedStays(n);
      r := Alloc(4 * n);
      if r.Some? {
        CopyOver(r.value, rmem, Least(n, size), n, old(blocks), old(blocks)[k], old(cells[..]));
      }
    }

    /** The second half of Move, once the new block at dst has been granted; s is the heap before the grant. */
    method CopyOver(dst: nat, src: nat, m: nat, n: nat, ghost bs: seq<Block>, ghost b: Block, ghost s: seq<int>)
      requires Valid() && Tiles(bs, 0, End()) && b in Live(bs) && src == b.start + SZ
      requires m <= n && m <= b.Room(SZ) && GrantedAt(bs, Live(blocks), AtLeast(n), dst)
      requires KeepsPayloads(s, cells[..], Live(bs), SZ)
      modifies this, cells
      ensures Valid()
      ensures MovedTo(bs, Live(blocks), b, AtLeast(n), dst)
      ensures KeepsPayloads(s, cells[..], Live(bs) - {b}, SZ)
      ensures Carried(s, cells[..], src, dst, m)
    {
      ghost var t := cells[..];
      ghost var g := Grantee(bs, blocks, b, n, dst);
      ghost var i: nat :| i < |blocks| && blocks[i] == g;
      ghost var j: nat :| j < |blocks| && blocks[j] == b;
      TwoApart(blocks, End(), i, j);
      CopyAndFree(dst, src, m, i, j);
      MoveKeeps(s, t, cells[..], Live(bs), g, b, m);
    }

    /** Changes the size of the block at rmem, in place when it shrinks enough, else by moving it. */
    method Realloc(rmem: Option<nat>, newsize: Bytes) returns (r: Option<nat>)
      requires Valid() && (rmem.Some? ==> IsLive(blocks, rmem.value))
      modifies this, cells
      ensures Valid()
      ensures Aligned(newsize) > total ==> r.None?
      ensures Aligned(newsize) == 0 ==>
                r.None? && Live(blocks) ==
                  old(Live(blocks)) - (if rmem.Some? then {old(BlockOf(blocks, rmem.value))} else {})
      ensures rmem.None? && 0 < Aligned(newsize) <= total ==>
                if r.None? then NoneHas(old(blocks), AtLeast(Aligned(newsize)))
                else GrantedAt(old(blocks), Live(blocks), AtLeast(Aligned(newsize)), r.value)
      ensures rmem.Some? && 0 < Aligned(newsize) <= total ==>
                Resized(old(blocks), blocks, rmem.value, Aligned(newsize), r)
      ensures rmem.None? && 0 < newsize <= 4 * total ==> Served(old(blocks), Live(blocks), newsize, r)
      ensures rmem.Some? && 0 < newsize <= 4 * total ==>
                ResizedTo(old(blocks), blocks, old(BlockOf(blocks, rmem.value)), newsize, r)
      ensures r.None? && Aligned(newsize) > 0 ==> blocks == old(blocks) && cells[..] == old(cells[..])
      ensures r.Some? && rmem.Some? ==>
                Carried(old(cells[..]), cells[..], rmem.value, r.value,
                  Least(Aligned(newsize), old(BlockOf(blocks, rmem.value).Room(SZ))))
      ensures KeepsPayloads(old(cells[..]), cells[..],
                            old(Live(blocks)) - (if rmem.Some? then {old(BlockOf(blocks, rmem.value))} else {}), SZ)
    {
      var n := Aligned(newsize);
      AlignedCovers(newsize);
      if n > total {
        return None;
      } else if n == 0 {
        Free(rmem);
        return None;
      }
      if rmem == None {
        AlignedStays(n);
        ghost var bs := blocks;
        r := Alloc(4 * n);
        ServedOr(bs, Live(blocks), End(), newsize, r);
        return;
      }
      r := ResizeBytes(rmem.value, newsize);
    }

    /** The part of a resize behind the checks, and what it means in bytes. */
    method ResizeBytes(rmem: nat, newsize: Bytes) returns (r: Option<nat>)
      requires Valid() && IsLive(blocks, rmem) && 0 < Aligned(newsize) <= total && Aligned(newsize) % 2 == 0
      modifies this, cells
      ensures Valid() && Resized(old(blocks), blocks, rmem, Aligned(newsize), r)
      ensures 0 < newsize <= SIZE_LIMIT - 8 ==>
                ResizedTo(old(blocks), blocks, old(BlockOf(blocks, rmem)), newsize, r)
      ensures r.None? ==> blocks == old(blocks) && cells[..] == old(cells[..])
      ensures r.Some? ==>
                Carried(old(cells[..]), cells[..], rmem, r.value,
                        Least(Aligned(newsize), old(BlockOf(blocks, rmem).Room(SZ))))
      ensures KeepsPayloads(old(cells[..]), cells[..], old(Live(blocks)) - {old(BlockOf(blocks, rmem))}, SZ)
    {
      r := Resize(rmem, Aligned(newsize));
      if 0 < newsize <= SIZE_LIMIT - 8 {
        ResizedIs(old(blocks), blocks, End(), rmem, newsize, r);
      }
    }

    method Resize(rmem: nat, n: nat) returns (r: Option<nat>)
      requires Valid() && IsLive(blocks, rmem) && 0 < n <= total && n % 2 == 0
      modifies this, cells
      ensures Valid() && Resized(old(blocks), blocks, rmem, n, r)
      ensures r.None? ==> blocks == old(blocks) && cells[..] == old(cells[..])
      ensures r.Some? ==>
                Carried(old(cells[..]), cells[..], rmem, r.value, Least(n, old(BlockOf(blocks, rmem).Room(SZ))))
      ensures KeepsPayloads(old(cells[..]), cells[..], old(Live(blocks)) - {old(BlockOf(blocks, rmem))}, SZ)
    {
      ghost var b := BlockOf(blocks, rmem);
      ghost var k: nat :| k < |blocks| && blocks[k] == b;
      var mem := rmem - SZ;
      At(k);
      var size := cells[mem + 1] - mem - SZ;
      if size == n {
        return Some(rmem);
      }
      if n + SZ + MIN_SIZE < size {
        Shrink(mem, n, k);
        return Some(rmem);
      }
      r := Move(rmem, n, k);
    }

    /** A client may write any word of a payload that is its own. */
    method Store(p: nat, i: nat, v: int)
      requires Valid() && IsLive(blocks, p) && i < BlockOf(blocks, p).Room(SZ)
      modifies cells
      ensures Valid() && p + i < cells.Length && cells[..] == old(cells[..])[p + i := v]
      ensures KeepsPayloads(old(cells[..]), cells[..], Live(blocks) - {BlockOf(blocks, p)}, SZ)
    {
      ghost var k: nat :| k < |blocks| && blocks[k] == BlockOf(blocks, p);
      At(k);
      cells[p + i] := v;
      PayloadWrite(old(cells[..]), cells[..], blocks, k, pool, End());
    }

    /** Releasing what was just granted restores the layout, lfree and used, whatever was split or merged. */
    method AllocThenFree(size: Bytes)
      requires Valid()
      modifies this, cells
      ensures Valid() && blocks == old(blocks) && lfree == old(lfree) && used == old(used)
      ensures KeepsPayloads(old(cells[..]), cells[..], old(Live(blocks)), SZ)
    {
      var r := Alloc(size);
      if r.Some? {
        GrantedBlock(old(blocks), blocks, Need(size), r.value, End());
        KeptThroughFree(r.value, old(blocks), old(cells[..]));
        LayoutIsDeterminedByLiveBlocks(blocks, old(blocks), 0, End());
        LowestIsUnique(blocks, End(), lfree, old(lfree));
      }
    }

    method KeptThroughFree(p: nat, ghost bs: seq<Block>, ghost s: seq<int>)
      requires Valid() && IsLive(blocks, p) && Live(blocks) - {BlockOf(blocks, p)} == Live(bs)
      requires KeepsPayloads(s, cells[..], Live(bs), SZ)
      modifies this, cells
      ensures Valid() && Live(blocks) == Live(bs)
      ensures KeepsPayloads(s, cells[..], Live(bs), SZ)
    {
      ghost var t := cells[..];
      Free(Some(p));
      KeepsTrans(s, t, cells[..], Live(bs));
    }

    /** A client allocates; the pointers held before and after. */
    method Get(size: Bytes, held: set<nat>) returns (now: set<nat>)
      requires Valid() && held == Pointers(Live(blocks))
      modifies this, cells
      ensures Valid() && now == Pointers(Live(blocks)) && Got(held, now)
    {
      now := held;
      var r := Alloc(size);
      if r.Some? {
        GrantedPointers(old(blocks), Live(blocks), Need(size), r.value);
        now := held + {r.value};
      }
    }

    method Put(p: nat, held: set<nat>) returns (now: set<nat>)
      requires Valid() && held == Pointers(Live(blocks)) && p in held
      modifies this, cells
      ensures Valid() && now == Pointers(Live(blocks)) && now == held - {p}
    {
      PointersLive(blocks, p);
      PointersDrop(blocks, End(), p);
      Free(Some(p));
      now := held - {p};
    }

    method Change(p: nat, size: Bytes, held: set<nat>) returns (now: set<nat>)
      requires Valid() && held == Pointers(Live(blocks)) && p in held
      modifies this, cells
      ensures Valid() && now == Pointers(Live(blocks)) && Changed(held, now, p)
    {
      PointersLive(blocks, p);
      PointersDrop(blocks, End(), p);
      var r := Realloc(Some(p), size);
      if Aligned(size) == 0 {
        now := held - {p};
      } else if r.Some? {
        PointersResized(old(blocks), blocks, p, Aligned(size), r, End());
        now := held - {p} + {r.value};
      } else {
        now := held;
      }
    }

    /** After any run the heap is well formed; a run that has released everything leaves one free block. */
    method Run(script: seq<Request>) returns (held: set<nat>, ghost states: seq<set<nat>>)
      requires Valid() && Live(blocks) == {}
      modifies this, cells
      ensures Valid() && held == Pointers(Live(blocks))
      ensures |states| == |script| + 1 && states[0] == {} && states[|script|] == held
      ensures forall i :: 0 <= i < |script| ==> Does(script[i], states[i], states[i + 1])
      ensures held == {} ==> blocks == [Block(0, End(), false)] && lfree == 0 && used == 0
    {
      held, states := {}, [{}];
      for i := 0 to |script|
        invariant Valid() && held == Pointers(Live(blocks))
        invariant |states| == i + 1 && states[0] == {} && states[i] == held
        invariant forall j :: 0 <= j < i ==> Does(script[j], states[j], states[j + 1])
      {
        match script[i] {
          case Get(size) =>
            held := Get(size, held);
          case Put(p) =>
            if p in held {
              held := Put(p, held);
            }
          case Change(p, size) =>
            if p in held {
              held := Change(p, size, held);
            }
        }
        states := states + [held];
      }
      if held == {} {
        Drained();
      }
    }

    lemma Drained()
      requires Valid() && Pointers(Live(blocks)) == {}
      ensures blocks == [Block(0, End(), false)] && lfree == 0 && used == 0
    {
      NoPointers(Live(blocks));
      NothingLive(blocks, End());
      TotalOne(blocks[0], UsedExtent);
      assert blocks[0] in blocks;
    }
  }

  /** What clients do: allocate, release a pointer they hold, resize one. */
  datatype Request = Get(size: Bytes) | Put(p: nat) | Change(p: nat, size: Bytes)

  /** What one request does to the pointers a client holds. */
  ghost predicate Does(r: Request, held: set<nat>, now: set<nat>) {
    match r
    case Get(_) => Got(held, now)
    case Put(p) => now == held - {p}
    case Change(p, _) => Changed(held, now, p)
  }
}
