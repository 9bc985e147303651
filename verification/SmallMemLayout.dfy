/**
 * The small-memory heap (rt-thread/src/mem.c): a first-fit allocator whose block headers lie in the heap itself.
 *
 * The heap is one array of 32-bit words and every offset and size counts words: all byte offsets of the source are
 * multiples of 8, so nothing is lost. A header at offset p is pool_ptr at p, next at p + 1, prev at p + 2, and one
 * word of padding.
 */
module SmallMemLayout {
  import opened BlockLayout
  import opened Contents
  import opened Lists

  const MIN_SIZE := 3
  const MIN_SIZE_ALIGNED := 4

  /** The header of block k says what the block is: use flag, next and prev. */
  ghost predicate Header(s: seq<int>, bs: seq<Block>, k: int, pool: int)
    requires 0 <= k < |bs|
  {
    && bs[k].start + SZ <= |s|
    && s[bs[k].start] == (if bs[k].used then pool + 1 else pool)
    && s[bs[k].start + 1] == bs[k].end
    && s[bs[k].start + 2] == (if k == 0 then 0 else bs[k - 1].start)
  }

  ghost predicate Linked(s: seq<int>, bs: seq<Block>, pool: int) {
    forall k {:trigger Header(s, bs, k, pool)} :: 0 <= k < |bs| ==> Header(s, bs, k, pool)
  }

  ghost predicate LowestFree(bs: seq<Block>, lfree: nat, end: nat) {
    && (lfree == end || exists b :: b in bs && !b.used && b.start == lfree)
    && forall b :: b in bs && !b.used ==> lfree <= b.start
  }

  function UsedExtent(b: Block): int {
    if b.used then b.end - b.start else 0
  }

  ghost function UsedSum(bs: seq<Block>): int {
    Total(bs, UsedExtent)
  }

  // ----- The three edits: mark, split, absorb -----

  /** What the headers say when the block at m has taken in its successor at n. */
  ghost function Absorbed(s: seq<int>, m: int, n: int, e: int): (r: seq<int>)
    requires 0 <= m && m + SZ <= n && n + SZ <= e && e + SZ <= |s|
    ensures |r| == |s|
  {
    s[n := 0][m + 1 := e][e + 2 := m]
  }

  lemma AbsorbedHeader(s: seq<int>, bs: seq<Block>, k: nat, pool: int, hi: nat, o: nat)
    requires Tiles(bs, 0, hi) && Linked(s, bs, pool) && |s| == hi + SZ && k + 1 < |bs| && o < |bs| && o != k + 1
    requires bs[k].start + SZ <= bs[k + 1].start && bs[k + 1].start + SZ <= bs[k + 1].end <= hi
    ensures bs[o].start + SZ <= |s|
    ensures var t := Absorbed(s, bs[k].start, bs[k + 1].start, bs[k + 1].end);
            && t[bs[o].start] == (if bs[o].used then pool + 1 else pool)
            && t[bs[o].start + 1] == (if o == k then bs[k + 1].end else bs[o].end)
            && t[bs[o].start + 2] == (if o == 0 then 0 else if o == k + 2 then bs[k].start else bs[o - 1].start)
  {
    AllApart(bs, 0, hi);
    assert Piece(bs, k, hi) && Piece(bs, k + 1, hi);
    assert Header(s, bs, o, pool);
    if o > k + 2 {
      assert bs[k + 2].end <= bs[o].start;
    }
  }

  lemma AbsorbLinked(s: seq<int>, bs: seq<Block>, k: nat, pool: int, hi: nat)
    requires Tiles(bs, 0, hi) && Linked(s, bs, pool) && |s| == hi + SZ && k + 1 < |bs|
    ensures bs[k].start + SZ <= bs[k + 1].start && bs[k + 1].start + SZ <= bs[k + 1].end <= hi
    ensures Linked(Absorbed(s, bs[k].start, bs[k + 1].start, bs[k + 1].end),
                   Splice(bs, k, k + 2, [Block(bs[k].start, bs[k + 1].end, bs[k].used)]), pool)
  {
    AbsorbRoom(bs, k, hi);
    var t := Absorbed(s, bs[k].start, bs[k + 1].start, bs[k + 1].end);
    var r := Splice(bs, k, k + 2, [Block(bs[k].start, bs[k + 1].end, bs[k].used)]);
    forall i | 0 <= i < |r| ensures Header(t, r, i, pool) {
      AbsorbedHeader(s, bs, k, pool, hi, if i <= k then i else i + 1);
      AbsorbedAt(bs, k, i);
    }
  }

  lemma AbsorbRoom(bs: seq<Block>, k: nat, hi: nat)
    requires Tiles(bs, 0, hi) && k + 1 < |bs|
    ensures bs[k].start + SZ <= bs[k + 1].start && bs[k + 1].start + SZ <= bs[k + 1].end <= hi
  {
    assert Piece(bs, k, hi) && Piece(bs, k + 1, hi);
    AllApart(bs, 0, hi);
  }

  /** Where a block of the joined layout, and the one before it, come from. */
  lemma AbsorbedAt(bs: seq<Block>, k: nat, i: nat)
    requires k + 1 < |bs| && i < |bs| - 1
    ensures var m := Block(bs[k].start, bs[k + 1].end, bs[k].used);
            var r := Splice(bs, k, k + 2, [m]);
            && |r| == |bs| - 1
            && r[i] == (if i < k then bs[i] else if i == k then m else bs[i + 1])
            && (i > 0 ==> r[i - 1] == if i - 1 < k then bs[i - 1] else if i - 1 == k then m else bs[i])
  {}

  /** What the headers say when the block p..e has been cut at q. */
  ghost function Cut(s: seq<int>, p: int, q: int, e: int, pool: int, hi: int): (r: seq<int>)
    requires 0 <= p && p + SZ <= q && q + SZ <= e && e <= hi && hi + SZ == |s|
    ensures |r| == |s|
  {
    var t := s[q := pool][q + 1 := e][q + 2 := p][p + 1 := q];
    if e != hi then t[e + 2 := q] else t
  }

  lemma CutHeader(s: seq<int>, bs: seq<Block>, k: nat, q: nat, pool: int, hi: nat, o: nat)
    requires Tiles(bs, 0, hi) && Linked(s, bs, pool) && |s| == hi + SZ && k < |bs| && o < |bs|
    requires bs[k].start + SZ <= q && q + SZ <= bs[k].end <= hi
    ensures bs[o].start + SZ <= |s|
    ensures var t := Cut(s, bs[k].start, q, bs[k].end, pool, hi);
            && t[bs[o].start] == (if bs[o].used then pool + 1 else pool)
            && t[bs[o].start + 1] == (if o == k then q else bs[o].end)
            && t[bs[o].start + 2] == (if o == 0 then 0 else if o == k + 1 then q else bs[o - 1].start)
  {
    AllApart(bs, 0, hi);
    assert Piece(bs, k, hi);
    assert Header(s, bs, o, pool);
    if o > k + 1 {
      assert bs[k + 1].end <= bs[o].start;
    }
  }

  lemma CutLinked(s: seq<int>, bs: seq<Block>, k: nat, q: nat, pool: int, hi: nat)
    requires Tiles(bs, 0, hi) && Linked(s, bs, pool) && |s| == hi + SZ && k < |bs|
    requires bs[k].start + SZ <= q && q + SZ <= bs[k].end
    ensures bs[k].end <= hi
    ensures Linked(Cut(s, bs[k].start, q, bs[k].end, pool, hi),
                   Splice(bs, k, k + 1, [Block(bs[k].start, q, bs[k].used), Block(q, bs[k].end, false)]), pool)
  {
    AllApart(bs, 0, hi);
    var t := Cut(s, bs[k].start, q, bs[k].end, pool, hi);
    var r := Splice(bs, k, k + 1, [Block(bs[k].start, q, bs[k].used), Block(q, bs[k].end, false)]);
    forall i | 0 <= i < |r| ensures Header(t, r, i, pool) {
      if i == k + 1 {
        assert r[i] == Block(q, bs[k].end, false);
      } else {
        var o := if i <= k then i else i - 1;
        CutHeader(s, bs, k, q, pool, hi, o);
        assert i != k ==> r[i] == bs[o];
        assert i > 0 && i - 1 != k && i - 1 != k + 1 ==> r[i - 1] == bs[o - 1];
      }
    }
  }

  lemma MarkLinked(s: seq<int>, bs: seq<Block>, k: nat, used: bool, pool: int, hi: nat)
    requires Tiles(bs, 0, hi) && Linked(s, bs, pool) && |s| == hi + SZ && k < |bs|
    ensures bs[k].start + SZ <= bs[k].end <= hi
    ensures Linked(s[bs[k].start := if used then pool + 1 else pool], bs[k := bs[k].(used := used)], pool)
    ensures Tiles(bs[k := bs[k].(used := used)], 0, hi)
  {
    AllApart(bs, 0, hi);
    var t := s[bs[k].start := if used then pool + 1 else pool];
    var r := bs[k := bs[k].(used := used)];
    forall i | 0 <= i < |r| ensures Header(t, r, i, pool) && Piece(r, i, hi) {
      assert Header(s, bs, i, pool) && Piece(bs, i, hi);
    }
  }

  lemma CutKeeps(s: seq<int>, bs: seq<Block>, k: nat, q: nat, pool: int, hi: nat)
    requires Tiles(bs, 0, hi) && |s| == hi + SZ && k < |bs|
    requires bs[k].start + SZ <= q && q + SZ <= bs[k].end <= hi
    ensures KeepsPayloads(s, Cut(s, bs[k].start, q, bs[k].end, pool, hi), Live(bs) - {bs[k]}, SZ)
    ensures forall i :: bs[k].start + SZ <= i < q ==> Cut(s, bs[k].start, q, bs[k].end, pool, hi)[i] == s[i]
    ensures Cut(s, bs[k].start, q, bs[k].end, pool, hi)[hi] == s[hi]
  {
    AllApart(bs, 0, hi);
    assert k + 1 < |bs| ==> bs[k + 1].start + SZ <= hi;
    var t := Cut(s, bs[k].start, q, bs[k].end, pool, hi);
    assert Piece(bs, k, hi);
    forall b, i | b in Live(bs) - {bs[k]} && b.start + SZ <= i < b.end && 0 <= i < |s| ensures t[i] == s[i] {
      var j :| 0 <= j < |bs| && bs[j] == b;
      if j > k {
        assert bs[k + 1].start == bs[k].end;
        assert j > k + 1 ==> bs[k + 1].end <= bs[j].start;
      }
    }
  }

  lemma AbsorbKeeps(s: seq<int>, bs: seq<Block>, k: nat, hi: nat)
    requires Tiles(bs, 0, hi) && |s| == hi + SZ && k + 1 < |bs| && !bs[k].used && !bs[k + 1].used
    requires bs[k].start + SZ <= bs[k + 1].start && bs[k + 1].start + SZ <= bs[k + 1].end <= hi
    ensures KeepsPayloads(s, Absorbed(s, bs[k].start, bs[k + 1].start, bs[k + 1].end), Live(bs), SZ)
    ensures Absorbed(s, bs[k].start, bs[k + 1].start, bs[k + 1].end)[hi] == s[hi]
  {
    AllApart(bs, 0, hi);
    var t := Absorbed(s, bs[k].start, bs[k + 1].start, bs[k + 1].end);
    assert Piece(bs, k, hi) && Piece(bs, k + 1, hi);
    assert k + 2 < |bs| ==> bs[k + 2].start + SZ <= hi;
    forall b, i | b in Live(bs) && b.start + SZ <= i < b.end && 0 <= i < |s| ensures t[i] == s[i] {
      var j :| 0 <= j < |bs| && bs[j] == b;
      if j > k + 1 {
        assert bs[k + 2].start == bs[k + 1].end;
        assert j > k + 2 ==> bs[k + 2].end <= bs[j].start;
      }
    }
  }

  lemma MarkKeeps(s: seq<int>, bs: seq<Block>, k: nat, v: int, hi: nat)
    requires Tiles(bs, 0, hi) && |s| == hi + SZ && k < |bs| && bs[k].start < |s|
    ensures KeepsPayloads(s, s[bs[k].start := v], Live(bs), SZ)
  {
    AllApart(bs, 0, hi);
  }

  /** The block behind a payload pointer. */
  ghost predicate IsLive(bs: seq<Block>, p: int) {
    exists b :: b in Live(bs) && b.start + SZ == p
  }

  ghost function BlockOf(bs: seq<Block>, p: int): (b: Block)
    requires IsLive(bs, p)
    ensures b in bs && b.used && b.start + SZ == p
  {
    var b :| b in Live(bs) && b.start + SZ == p;
    b
  }

  lemma OneBlockOf(bs: seq<Block>, hi: nat, k: nat)
    requires Tiles(bs, 0, hi) && k < |bs| && bs[k].used
    ensures IsLive(bs, bs[k].start + SZ) && BlockOf(bs, bs[k].start + SZ) == bs[k]
  {
    assert bs[k] in Live(bs);
    var b := BlockOf(bs, bs[k].start + SZ);
    var j :| 0 <= j < |bs| && bs[j] == b;
    SameStart(bs, 0, hi, j, k);
  }

  /** Block k is the lowest free block that holds n words. */
  ghost predicate FirstFit(bs: seq<Block>, n: int, k: int) {
    && 0 <= k < |bs|
    && Fits(bs[k], n)
    && forall j :: 0 <= j < k ==> !Fits(bs[j], n)
  }

  ghost predicate NoneHas(bs: seq<Block>, n: int) {
    forall b :: b in bs ==> !Fits(b, n)
  }

  ghost predicate Fits(b: Block, n: int) {
    !b.used && b.Room(SZ) >= n
  }

  /** What an allocation makes of the free block it has found. */
  ghost function Granted(b: Block, n: nat): Block {
    Block(b.start, if b.Room(SZ) >= n + SZ + MIN_SIZE_ALIGNED then b.start + SZ + n else b.end, true)
  }

  lemma AbsorbLowest(bs: seq<Block>, k: nat, hi: nat, lfree: nat)
    requires Tiles(bs, 0, hi) && k + 1 < |bs| && !bs[k].used && !bs[k + 1].used && LowestFree(bs, lfree, hi)
    ensures lfree != bs[k + 1].start
    ensures LowestFree(Splice(bs, k, k + 2, [Block(bs[k].start, bs[k + 1].end, false)]), lfree, hi)
  {
    AllApart(bs, 0, hi);
    var m := Block(bs[k].start, bs[k + 1].end, false);
    var r := Splice(bs, k, k + 2, [m]);
    SpliceMembers(bs, k, k + 2, [m]);
    assert lfree <= bs[k].start;
    assert bs[k..k + 2] == [bs[k], bs[k + 1]];
    if lfree == bs[k].start {
      assert m in r;
    } else if lfree != hi {
      var b :| b in bs && !b.used && b.start == lfree;
      assert b in r;
    }
  }

  lemma AbsorbFree(bs: seq<Block>, k: nat, hi: nat)
    requires Tiles(bs, 0, hi) && k + 1 < |bs| && !bs[k].used && !bs[k + 1].used
    ensures var r := Splice(bs, k, k + 2, [Block(bs[k].start, bs[k + 1].end, false)]);
            Live(r) == Live(bs) && UsedSum(r) == UsedSum(bs)
  {
    var m := Block(bs[k].start, bs[k + 1].end, false);
    var r := Splice(bs, k, k + 2, [m]);
    SpliceMembers(bs, k, k + 2, [m]);
    assert bs[k..k + 2] == [bs[k], bs[k + 1]];
    assert Live(r) == Live(bs);
    TotalReplace(bs, k, k + 2, [m], UsedExtent);
    TotalTwo(bs[k], bs[k + 1], UsedExtent);
    TotalOne(bs[k], UsedExtent);
    TotalOne(bs[k + 1], UsedExtent);
    TotalOne(m, UsedExtent);
  }

  lemma AbsorbCoalesces(bs: seq<Block>, k: nat, c: nat, m: Block)
    requires k + 1 < |bs| && !bs[k].used && !bs[k + 1].used && (c == k || c == k + 1) && CoalescedBut(bs, c)
    ensures var r := Splice(bs, k, k + 2, [m]);
            && CoalescedBut(r, k)
            && (c == k && k + 1 < |r| ==> r[k + 1].used)
            && (c == k + 1 && k > 0 ==> r[k - 1].used)
            && (k + 1 < |r| ==> r[k + 1] == bs[k + 2])
            && (k > 0 ==> r[k - 1] == bs[k - 1])
  {
    var r := Splice(bs, k, k + 2, [m]);
    forall i | 0 < i < |r| && i != k && i != k + 1 ensures Parted(r, i) {
      if i < k {
        assert Parted(bs, i) && r[i] == bs[i] && r[i - 1] == bs[i - 1];
      } else {
        assert Parted(bs, i + 1) && r[i] == bs[i + 1] && r[i - 1] == bs[i];
      }
    }
    if c == k {
      assert k + 2 < |bs| ==> Parted(bs, k + 2);
    } else if k > 0 {
      assert Parted(bs, k);
    }
  }

  /** The layout once the free block k has taken in its free successor. */
  ghost function Joined(bs: seq<Block>, k: nat): (r: seq<Block>)
    requires k + 1 < |bs|
  {
    Splice(bs, k, k + 2, [Block(bs[k].start, bs[k + 1].end, false)])
  }

  lemma JoinedForward(bs: seq<Block>, k: nat, hi: nat, lfree: nat)
    requires Tiles(bs, 0, hi) && k + 1 < |bs| && !bs[k].used && !bs[k + 1].used
    requires CoalescedBut(bs, k) && LowestFree(bs, lfree, hi)
    ensures lfree != bs[k + 1].start && LowestFree(Joined(bs, k), lfree, hi)
    ensures Live(Joined(bs, k)) == Live(bs) && UsedSum(Joined(bs, k)) == UsedSum(bs)
    ensures CoalescedBut(Joined(bs, k), k) && (k + 1 < |Joined(bs, k)| ==> Joined(bs, k)[k + 1].used)
    ensures Joined(bs, k)[k] == Block(bs[k].start, bs[k + 1].end, false)
  {
    AbsorbFree(bs, k, hi);
    AbsorbCoalesces(bs, k, k, Block(bs[k].start, bs[k + 1].end, false));
    AbsorbLowest(bs, k, hi, lfree);
  }

  lemma JoinedBackward(bs: seq<Block>, k: nat, hi: nat, lfree: nat)
    requires Tiles(bs, 0, hi) && k + 1 < |bs| && !bs[k].used && !bs[k + 1].used
    requires CoalescedBut(bs, k + 1) && LowestFree(bs, lfree, hi) && (k + 2 < |bs| ==> bs[k + 2].used)
    ensures lfree != bs[k + 1].start && LowestFree(Joined(bs, k), lfree, hi)
    ensures Live(Joined(bs, k)) == Live(bs) && UsedSum(Joined(bs, k)) == UsedSum(bs)
    ensures Coalesced(Joined(bs, k))
  {
    AbsorbFree(bs, k, hi);
    AbsorbCoalesces(bs, k, k + 1, Block(bs[k].start, bs[k + 1].end, false));
    AbsorbLowest(bs, k, hi, lfree);
    NeighboursUsed(Joined(bs, k), k);
  }

  lemma KeepsTrans(s: seq<int>, t: seq<int>, u: seq<int>, live: set<Block>)
    requires KeepsPayloads(s, t, live, SZ) && KeepsPayloads(t, u, live, SZ)
    ensures KeepsPayloads(s, u, live, SZ)
  {}

  /** What replacing block k does to the live blocks and to the sum. */
  lemma ReplaceOne(bs: seq<Block>, k: nat, mid: seq<Block>, hi: nat)
    requires Tiles(bs, 0, hi) && k < |bs|
    ensures UsedSum(Splice(bs, k, k + 1, mid)) == UsedSum(bs) - UsedExtent(bs[k]) + UsedSum(mid)
    ensures Live(Splice(bs, k, k + 1, mid)) == Live(bs) - {bs[k]} + Live(mid)
  {
    assert bs[k..k + 1] == [bs[k]];
    TotalReplace(bs, k, k + 1, mid, UsedExtent);
    TotalOne(bs[k], UsedExtent);
    ReplaceLive(bs, k, mid, hi);
  }

  lemma FreeBlock(bs: seq<Block>, k: nat, hi: nat)
    requires Tiles(bs, 0, hi) && k < |bs| && bs[k].used && Coalesced(bs)
    ensures var r := bs[k := bs[k].(used := false)];
            && Live(r) == Live(bs) - {bs[k]}
            && UsedSum(r) == UsedSum(bs) - (bs[k].end - bs[k].start)
            && CoalescedBut(r, k)
  {
    var f := bs[k].(used := false);
    var r := bs[k := f];
    ReplaceOne(bs, k, [f], hi);
    assert r == Splice(bs, k, k + 1, [f]);
    TotalOne(f, UsedExtent);
    TotalOne(bs[k], UsedExtent);
    forall i | 0 < i < |r| && i != k && i != k + 1 ensures Parted(r, i) {
      assert Parted(bs, i);
    }
  }

  lemma FreeLowest(bs: seq<Block>, k: nat, hi: nat, lfree: nat)
    requires Tiles(bs, 0, hi) && k < |bs| && bs[k].used && LowestFree(bs, lfree, hi)
    ensures LowestFree(bs[k := bs[k].(used := false)], if bs[k].start < lfree then bs[k].start else lfree, hi)
  {
    AllApart(bs, 0, hi);
    var f := bs[k].(used := false);
    var r := bs[k := f];
    if bs[k].start < lfree {
      assert r[k] == f && f in r;
    } else if lfree != hi {
      var b :| b in bs && !b.used && b.start == lfree;
      var j :| 0 <= j < |bs| && bs[j] == b;
      assert r[j] == b && b in r;
    }
  }

  /** The layout after granting n words from block k. */
  ghost function Claimed(bs: seq<Block>, k: nat, n: nat): (r: seq<Block>)
    requires k < |bs|
  {
    var g := Granted(bs[k], n);
    Splice(bs, k, k + 1, [g] + if g.end < bs[k].end then [Block(g.end, bs[k].end, false)] else [])
  }

  lemma GrantedPieces(g: Block, rest: seq<Block>)
    requires g.used && (rest == [] || exists r :: rest == [r] && !r.used)
    ensures Live([g] + rest) == {g} && UsedSum([g] + rest) == g.end - g.start
  {
    TotalSplit([g], rest, UsedExtent);
    TotalOne(g, UsedExtent);
    if rest == [] {
      assert UsedSum(rest) == 0;
    } else {
      TotalOne(rest[0], UsedExtent);
    }
  }

  lemma ClaimedLayout(bs: seq<Block>, k: nat, n: nat, hi: nat)
    requires Tiles(bs, 0, hi) && k < |bs| && Fits(bs[k], n)
    ensures Live(Claimed(bs, k, n)) == Live(bs) + {Granted(bs[k], n)}
    ensures UsedSum(Claimed(bs, k, n)) == UsedSum(bs) + Granted(bs[k], n).end - bs[k].start
  {
    var g := Granted(bs[k], n);
    var rest := if g.end < bs[k].end then [Block(g.end, bs[k].end, false)] else [];
    ReplaceOne(bs, k, [g] + rest, hi);
    GrantedPieces(g, rest);
    TotalOne(bs[k], UsedExtent);
    assert bs[k] !in Live(bs);
  }

  lemma ClaimedCoalesced(bs: seq<Block>, k: nat, n: nat)
    requires Coalesced(bs) && k < |bs| && Fits(bs[k], n)
    ensures Coalesced(Claimed(bs, k, n))
  {
    var r := Claimed(bs, k, n);
    var g := Granted(bs[k], n);
    var d := if g.end < bs[k].end then 1 else 0;
    forall i | 0 < i < |r| ensures Parted(r, i) {
      if i < k {
        assert Parted(bs, i) && r[i] == bs[i] && r[i - 1] == bs[i - 1];
      } else if i == k || (i == k + 1 && d == 1) {
        assert r[k] == g;
      } else {
        assert Parted(bs, i - d) && r[i] == bs[i - d];
        assert i > k + d + 1 ==> r[i - 1] == bs[i - d - 1];
      }
    }
  }

  lemma ClaimedLowest(bs: seq<Block>, k: nat, n: nat, hi: nat, lfree: nat)
    requires Tiles(bs, 0, hi) && k < |bs| && Fits(bs[k], n) && LowestFree(bs, lfree, hi)
    ensures bs[k].start != lfree ==> LowestFree(Claimed(bs, k, n), lfree, hi)
    ensures bs[k].start == lfree ==> forall i :: 0 <= i < k ==> Claimed(bs, k, n)[i].used
  {
    AllApart(bs, 0, hi);
    var r := Claimed(bs, k, n);
    var g := Granted(bs[k], n);
    var rest := Block(g.end, bs[k].end, false);
    SpliceMembers(bs, k, k + 1, [g] + if g.end < bs[k].end then [rest] else []);
    assert bs[k..k + 1] == [bs[k]];
    if bs[k].start != lfree {
      assert lfree <= bs[k].start;
      assert lfree != hi;
      var b :| b in bs && !b.used && b.start == lfree;
      assert b in r;
    } else {
      forall i | 0 <= i < k ensures r[i].used {
        assert r[i] == bs[i];
      }
    }
  }

  /** The words a nonzero request gets at least. */
  function Need(size: Bytes): (n: nat)
    ensures n >= MIN_SIZE_ALIGNED && n >= Aligned(size) && n % 2 == 0
    ensures size <= SIZE_LIMIT - 8 ==> size <= 4 * n && (n == MIN_SIZE_ALIGNED || 4 * n < size + 8)
  {
    AlignedCovers(size);
    if Aligned(size) < MIN_SIZE_ALIGNED then MIN_SIZE_ALIGNED else Aligned(size)
  }

  /** n words were granted at p: the lowest free block that holds them became live, and nothing else changed. */
  ghost predicate GrantedAt(bs: seq<Block>, live: set<Block>, n: nat, p: int) {
    exists k :: FirstFit(bs, n, k) && p == bs[k].start + SZ && live == Live(bs) + {Granted(bs[k], n)}
  }

  /** Sizes are even numbers of words, so a block fits when it holds the bytes. */
  lemma FitsIs(b: Block, size: Bytes)
    requires b.start % 2 == 0 && b.end % 2 == 0 && size <= SIZE_LIMIT - 8
    ensures Fits(b, Need(size)) <==> CanHold(b, SZ, MIN_SIZE_ALIGNED, size)
    ensures Fits(b, Need(size)) ==> HandedOut(Granted(b, Need(size)), b, SZ, MIN_SIZE_ALIGNED, size)
  {
  }

  lemma AllFit(bs: seq<Block>, hi: nat, size: Bytes)
    requires Tiles(bs, 0, hi) && hi % 2 == 0 && size <= SIZE_LIMIT - 8
    ensures forall b :: b in bs ==> (Fits(b, Need(size)) <==> CanHold(b, SZ, MIN_SIZE_ALIGNED, size))
  {
    forall k | 0 <= k < |bs| ensures Fits(bs[k], Need(size)) <==> CanHold(bs[k], SZ, MIN_SIZE_ALIGNED, size) {
      EvenEnds(bs, hi, k);
      FitsIs(bs[k], size);
    }
  }

  /** Of the free blocks that can hold size bytes the lowest one has given block g, which is live now, for them. */
  ghost predicate Serves(bs: seq<Block>, k: int, live: set<Block>, g: Block, size: Bytes) {
    && 0 <= k < |bs| && HandedOut(g, bs[k], SZ, MIN_SIZE_ALIGNED, size)
    && (forall j :: 0 <= j < k ==> !CanHold(bs[j], SZ, MIN_SIZE_ALIGNED, size))
    && live == Live(bs) + {g} && g !in Live(bs)
  }

  lemma GrantServes(bs: seq<Block>, live: set<Block>, hi: nat, size: Bytes, p: int) returns (k: nat, g: Block)
    requires Tiles(bs, 0, hi) && hi % 2 == 0 && size <= SIZE_LIMIT - 8 && GrantedAt(bs, live, Need(size), p)
    ensures Serves(bs, k, live, g, size) && p == g.start + SZ
  {
    var n := Need(size);
    k :| FirstFit(bs, n, k) && p == bs[k].start + SZ && live == Live(bs) + {Granted(bs[k], n)};
    g := Granted(bs[k], n);
    GrantedIsNew(bs, k, n, hi);
    EvenEnds(bs, hi, k);
    FitsIs(bs[k], size);
    AllFit(bs, hi, size);
  }

  /** A request of size bytes is served, or no block can hold them. */
  ghost predicate Served(bs: seq<Block>, live: set<Block>, size: Bytes, r: Option<nat>) {
    if r.None? then forall b :: b in bs ==> !CanHold(b, SZ, MIN_SIZE_ALIGNED, size)
    else exists k, g :: Serves(bs, k, live, g, size) && r.value == g.start + SZ
  }

  lemma ServedOr(bs: seq<Block>, live: set<Block>, hi: nat, size: Bytes, r: Option<nat>)
    requires Tiles(bs, 0, hi) && hi % 2 == 0
    requires r.None? ==> NoneHas(bs, Need(size))
    requires r.Some? ==> GrantedAt(bs, live, Need(size), r.value)
    ensures size <= SIZE_LIMIT - 8 ==> Served(bs, live, size, r)
  {
    if size <= SIZE_LIMIT - 8 {
      if r.None? {
        AllFit(bs, hi, size);
      } else {
        var k, g := GrantServes(bs, live, hi, size, r.value);
      }
    }
  }

  lemma LowestIndex(bs: seq<Block>, hi: nat, lfree: nat) returns (k: nat)
    requires Tiles(bs, 0, hi) && LowestFree(bs, lfree, hi)
    ensures k <= |bs| && lfree == (if k < |bs| then bs[k].start else hi)
    ensures forall j :: 0 <= j < k ==> bs[j].used
  {
    AllApart(bs, 0, hi);
    if lfree == hi {
      k := |bs|;
      assert forall j :: 0 <= j < k ==> bs[j] in bs;
    } else {
      var b :| b in bs && !b.used && b.start == lfree;
      k :| 0 <= k < |bs| && bs[k] == b;
      assert forall j :: 0 <= j < k ==> bs[j] in bs;
    }
  }

  /** Behind the point where n words would run past the end nothing fits. */
  lemma NoneFits(bs: seq<Block>, hi: nat, k: nat, n: nat)
    requires Tiles(bs, 0, hi) && k <= |bs|
    requires forall j :: 0 <= j < k ==> !Fits(bs[j], n)
    requires k < |bs| ==> bs[k].start + SZ + n > hi
    ensures NoneHas(bs, n)
  {
    AllApart(bs, 0, hi);
    forall b | b in bs ensures !Fits(b, n) {
      var j :| 0 <= j < |bs| && bs[j] == b;
      if j > k {
        assert bs[k].start + SZ <= bs[k].end <= bs[j].start;
      }
    }
  }

  /** Writing inside one block's payload disturbs no header and no other payload. */
  lemma PayloadWrite(s: seq<int>, t: seq<int>, bs: seq<Block>, k: nat, pool: int, hi: nat)
    requires Tiles(bs, 0, hi) && Linked(s, bs, pool) && |s| == |t| == hi + SZ && k < |bs|
    requires forall i :: 0 <= i < |s| && !(bs[k].start + SZ <= i < bs[k].end) ==> t[i] == s[i]
    ensures Linked(t, bs, pool) && t[hi] == s[hi]
    ensures KeepsPayloads(s, t, Live(bs) - {bs[k]}, SZ)
  {
    AllApart(bs, 0, hi);
    forall j | 0 <= j < |bs| ensures Header(t, bs, j, pool) {
      assert Header(s, bs, j, pool);
    }
  }

  lemma GrantedIsNew(bs: seq<Block>, k: nat, n: nat, hi: nat)
    requires Tiles(bs, 0, hi) && k < |bs| && Fits(bs[k], n)
    ensures Granted(bs[k], n) !in Live(bs)
  {
    if Granted(bs[k], n) in Live(bs) {
      var j :| 0 <= j < |bs| && bs[j] == Granted(bs[k], n);
      SameStart(bs, 0, hi, j, k);
    }
  }

  /** Cutting the live block k down to n words, before the holes behind it are plugged. */
  lemma ShrunkLayout(bs: seq<Block>, k: nat, n: nat, hi: nat, lfree: nat)
    requires Tiles(bs, 0, hi) && Coalesced(bs) && LowestFree(bs, lfree, hi) && k < |bs| && bs[k].used
    requires n + SZ + SZ <= bs[k].end - bs[k].start
    ensures var q := bs[k].start + SZ + n;
            var r := Splice(bs, k, k + 1, [Block(bs[k].start, q, true), Block(q, bs[k].end, false)]);
            && CoalescedBut(r, k + 1)
            && Live(r) == Live(bs) - {bs[k]} + {Block(bs[k].start, q, true)}
            && UsedSum(r) == UsedSum(bs) - (bs[k].Room(SZ) - n)
  {
    var q := bs[k].start + SZ + n;
    var g := Block(bs[k].start, q, true);
    var rest := [Block(q, bs[k].end, false)];
    assert [g, rest[0]] == [g] + rest;
    ReplaceOne(bs, k, [g] + rest, hi);
    GrantedPieces(g, rest);
    TotalOne(bs[k], UsedExtent);
    var r := Splice(bs, k, k + 1, [g] + rest);
    forall i | 0 < i < |r| && i != k + 1 && i != k + 2 ensures Parted(r, i) {
      if i < k {
        assert Parted(bs, i) && r[i] == bs[i] && r[i - 1] == bs[i - 1];
      } else if i == k {
        assert r[k] == g;
      } else {
        assert Parted(bs, i - 1) && r[i] == bs[i - 1] && r[i - 1] == bs[i - 2];
      }
    }
  }

  lemma ShrunkLowest(bs: seq<Block>, k: nat, q: nat, hi: nat, lfree: nat)
    requires Tiles(bs, 0, hi) && LowestFree(bs, lfree, hi) && k < |bs| && bs[k].used
    requires bs[k].start < q < bs[k].end
    ensures LowestFree(Splice(bs, k, k + 1, [Block(bs[k].start, q, true), Block(q, bs[k].end, false)]),
                       if q < lfree then q else lfree, hi)
  {
    AllApart(bs, 0, hi);
    var mid := [Block(bs[k].start, q, true), Block(q, bs[k].end, false)];
    SpliceMembers(bs, k, k + 1, mid);
    assert bs[k..k + 1] == [bs[k]];
    var r := Splice(bs, k, k + 1, mid);
    if q < lfree {
      assert mid[1] in r;
    } else if lfree != hi {
      var b :| b in bs && !b.used && b.start == lfree;
      assert b in r;
    }
  }

  /** The words a resize to n words asks for when it has to move. */
  function AtLeast(n: nat): nat {
    if n < MIN_SIZE_ALIGNED then MIN_SIZE_ALIGNED else n
  }

  /** What resizing the live block at p to n words does to the layout, and the pointer it returns. */
  ghost predicate Resized(bs: seq<Block>, after: seq<Block>, p: nat, n: nat, r: Option<nat>)
    requires IsLive(bs, p)
  {
    var b := BlockOf(bs, p);
    if n == b.Room(SZ) then
      r == Some(p) && after == bs
    else if n + SZ + MIN_SIZE < b.Room(SZ) then
      r == Some(p) && Live(after) == Live(bs) - {b} + {Block(b.start, b.start + SZ + n, true)}
    else if r.None? then
      after == bs && NoneHas(bs, AtLeast(n))
    else
      MovedTo(bs, Live(after), b, AtLeast(n), r.value)
  }

  /** The live block b has become g, in place, with as many bytes as the alignment asks for. */
  ghost predicate Trimmed(bs: seq<Block>, live: set<Block>, b: Block, g: Block, size: Bytes) {
    g.used && g.start == b.start && size <= 4 * g.Room(SZ) < size + 8 && live == Live(bs) - {b} + {g}
  }

  /** What a resize of block b to size bytes leads to: in place when they fill it or leave room for another block,
      else a move to the lowest block that can hold them, if there is one. */
  ghost predicate ResizedTo(bs: seq<Block>, after: seq<Block>, b: Block, size: Bytes, r: Option<nat>) {
    var room := 4 * b.Room(SZ);
    if room - 8 < size <= room || size <= room - 32 then
      r == Some(b.start + SZ) && exists g :: Trimmed(bs, Live(after), b, g, size)
    else if r.None? then
      after == bs && forall f :: f in bs ==> !CanHold(f, SZ, MIN_SIZE_ALIGNED, size)
    else
      exists k, g :: Serves(bs, k, Live(after) + {b}, g, size) && r == Some(g.start + SZ) && b !in Live(after)
  }

  lemma ResizedIs(bs: seq<Block>, after: seq<Block>, hi: nat, p: nat, size: Bytes, r: Option<nat>)
    requires Tiles(bs, 0, hi) && hi % 2 == 0 && 0 < size <= SIZE_LIMIT - 8
    requires IsLive(bs, p) && Resized(bs, after, p, Aligned(size), r)
    ensures ResizedTo(bs, after, BlockOf(bs, p), size, r)
  {
    var b, n := BlockOf(bs, p), Aligned(size);
    var k: nat :| k < |bs| && bs[k] == b;
    EvenEnds(bs, hi, k);
    AlignedCovers(size);
    if n == b.Room(SZ) {
      assert Live(bs) == Live(bs) - {b} + {b};
      assert Trimmed(bs, Live(after), b, b, size);
    } else if n + SZ + MIN_SIZE < b.Room(SZ) {
      assert Trimmed(bs, Live(after), b, Block(b.start, b.start + SZ + n, true), size);
    } else if r.None? {
      AllFit(bs, hi, size);
    } else {
      ResizeMoves(bs, Live(after), hi, b, size, r.value);
    }
  }

  lemma ResizeMoves(bs: seq<Block>, live: set<Block>, hi: nat, b: Block, size: Bytes, p: nat)
    requires Tiles(bs, 0, hi) && hi % 2 == 0 && 0 < size <= SIZE_LIMIT - 8 && b in Live(bs)
    requires MovedTo(bs, live, b, Need(size), p)
    ensures b !in live && exists k, g :: Serves(bs, k, live + {b}, g, size) && p == g.start + SZ
  {
    var n := Need(size);
    var f :| FirstFit(bs, n, f) && p == bs[f].start + SZ && live == Live(bs) + {Granted(bs[f], n)} - {b};
    GrantedIsNew(bs, f, n, hi);
    assert live + {b} == Live(bs) + {Granted(bs[f], n)};
    var k, g := GrantServes(bs, live + {b}, hi, size, p);
  }

  /** The live block b made way for n words at p. */
  ghost predicate MovedTo(bs: seq<Block>, live: set<Block>, b: Block, n: nat, p: int) {
    exists k :: FirstFit(bs, n, k) && p == bs[k].start + SZ && live == Live(bs) + {Granted(bs[k], n)} - {b}
  }

  /** A payload that one step keeps can be read before the step or after it. */
  lemma KeptPayload(s: seq<int>, t: seq<int>, live: set<Block>, b: Block, n: nat)
    requires KeepsPayloads(s, t, live, SZ) && b in live && n <= b.Room(SZ) && b.end <= |s|
    ensures Carried(s, t, b.start + SZ, b.start + SZ, n)
  {}

  /** After the copy t..u into block g, freeing b (u..v) leaves the copy and every other payload in place. */
  lemma CopyKeeps(t: seq<int>, u: seq<int>, v: seq<int>, live: set<Block>, g: Block, b: Block, n: nat)
    requires KeepsPayloads(t, u, live - {g}, SZ) && KeepsPayloads(u, v, live - {b}, SZ)
    requires g in live && g != b && n <= g.Room(SZ) && g.end <= |t|
    requires Carried(t, u, b.start + SZ, g.start + SZ, n)
    ensures KeepsPayloads(t, v, live - {g} - {b}, SZ)
    ensures Carried(t, v, b.start + SZ, g.start + SZ, n)
  {
    forall c, i | c in live - {g} - {b} && c.start + SZ <= i < c.end && 0 <= i < |t| ensures v[i] == t[i] {
      assert c in live - {g} && c in live - {b};
      assert u[i] == t[i];
    }
    KeptPayload(u, v, live - {b}, g, n);
    CarriedOn(t, u, v, b.start + SZ, g.start + SZ, g.start + SZ, n);
  }

  /** Through a move - grant g (s..t), copy b into it and free b (t..v) - nothing live is lost. */
  lemma MoveKeeps(s: seq<int>, t: seq<int>, v: seq<int>, live: set<Block>, g: Block, b: Block, n: nat)
    requires KeepsPayloads(s, t, live, SZ) && KeepsPayloads(t, v, live + {g} - {g} - {b}, SZ)
    requires g !in live && b in live && n <= b.Room(SZ) && b.end <= |s|
    requires Carried(t, v, b.start + SZ, g.start + SZ, n)
    ensures KeepsPayloads(s, v, live - {b}, SZ)
    ensures Carried(s, v, b.start + SZ, g.start + SZ, n)
  {
    assert live + {g} - {g} - {b} == live - {b};
    KeepsTrans(s, t, v, live - {b});
    KeptPayload(s, t, live, b, n);
    CarriedOn(s, t, v, b.start + SZ, b.start + SZ, g.start + SZ, n);
  }

  /** The pointers clients hold. */
  ghost function Pointers(live: set<Block>): set<nat> {
    set b | b in live :: b.start + SZ
  }

  lemma PointersLive(bs: seq<Block>, p: nat)
    ensures p in Pointers(Live(bs)) <==> IsLive(bs, p)
  {}

  lemma PointersDrop(bs: seq<Block>, hi: nat, p: nat)
    requires Tiles(bs, 0, hi) && IsLive(bs, p)
    ensures Pointers(Live(bs) - {BlockOf(bs, p)}) == Pointers(Live(bs)) - {p}
  {
    var b := BlockOf(bs, p);
    forall q | q in Pointers(Live(bs) - {b}) ensures q != p {
      var c :| c in Live(bs) - {b} && c.start + SZ == q;
      if q == p {
        var i :| 0 <= i < |bs| && bs[i] == b;
        var j :| 0 <= j < |bs| && bs[j] == c;
        SameStart(bs, 0, hi, i, j);
      }
    }
    forall q | q in Pointers(Live(bs)) - {p} ensures q in Pointers(Live(bs) - {b}) {
      var c :| c in Live(bs) && c.start + SZ == q;
      assert c in Live(bs) - {b};
    }
  }

  lemma PointersAdd(live: set<Block>, g: Block)
    ensures Pointers(live + {g}) == Pointers(live) + {g.start + SZ}
  {
    forall q | q in Pointers(live) + {g.start + SZ} ensures q in Pointers(live + {g}) {
      if q == g.start + SZ {
        assert g in live + {g};
      } else {
        var c :| c in live && c.start + SZ == q;
        assert c in live + {g};
      }
    }
  }

  lemma PointersResized(bs: seq<Block>, after: seq<Block>, p: nat, n: nat, r: Option<nat>, hi: nat)
    requires Tiles(bs, 0, hi) && IsLive(bs, p) && Resized(bs, after, p, n, r)
    ensures Pointers(Live(after)) == if r.Some? then Pointers(Live(bs)) - {p} + {r.value} else Pointers(Live(bs))
  {
    var b := BlockOf(bs, p);
    PointersDrop(bs, hi, p);
    if n == b.Room(SZ) {
      assert p in Pointers(Live(bs));
    } else if n + SZ + MIN_SIZE < b.Room(SZ) {
      PointersAdd(Live(bs) - {b}, Block(b.start, b.start + SZ + n, true));
    } else if r.Some? {
      var k :| FirstFit(bs, AtLeast(n), k) && r.value == bs[k].start + SZ
               && Live(after) == Live(bs) + {Granted(bs[k], AtLeast(n))} - {b};
      GrantedIsNew(bs, k, AtLeast(n), hi);
      var g := Granted(bs[k], AtLeast(n));
      assert Live(bs) + {g} - {b} == Live(bs) - {b} + {g};
      PointersAdd(Live(bs) - {b}, g);
    }
  }

  /** Bookkeeping is determined too: two states with the same live blocks agree on the layout, lfree and used. */
  lemma LowestIsUnique(bs: seq<Block>, hi: nat, x: nat, y: nat)
    requires Tiles(bs, 0, hi) && LowestFree(bs, x, hi) && LowestFree(bs, y, hi)
    ensures x == y
  {
    AllApart(bs, 0, hi);
  }

  lemma GrantedPointers(bs: seq<Block>, live: set<Block>, n: nat, p: nat)
    requires GrantedAt(bs, live, n, p)
    ensures Pointers(live) == Pointers(Live(bs)) + {p}
  {
    var k :| FirstFit(bs, n, k) && p == bs[k].start + SZ && live == Live(bs) + {Granted(bs[k], n)};
    PointersAdd(Live(bs), Granted(bs[k], n));
  }

  /** The block behind a granted pointer is the only news. */
  lemma GrantedBlock(bs: seq<Block>, after: seq<Block>, n: nat, p: nat, hi: nat)
    requires Tiles(bs, 0, hi) && Tiles(after, 0, hi) && GrantedAt(bs, Live(after), n, p)
    ensures IsLive(after, p) && Live(after) - {BlockOf(after, p)} == Live(bs)
  {
    var k :| FirstFit(bs, n, k) && p == bs[k].start + SZ && Live(after) == Live(bs) + {Granted(bs[k], n)};
    var g := Granted(bs[k], n);
    GrantedIsNew(bs, k, n, hi);
    assert g in Live(after);
    var i: nat :| i < |after| && after[i] == g;
    OneBlockOf(after, hi, i);
  }

  lemma NoPointers(live: set<Block>)
    ensures live != {} ==> Pointers(live) != {}
  {
    if live != {} {
      var b :| b in live;
      assert b.start + SZ in Pointers(live);
    }
  }
}
