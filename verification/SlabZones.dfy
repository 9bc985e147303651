/**
 * Zones of the slab heap (rt-thread/src/slab.c): a run of pages cut into chunks of one size, with its header in the
 * first page. Addresses count bytes from the start of the heap.
 */
module SlabZones {
  import opened Bits
  import opened Lists
  import opened SlabPages

  const PAGE := 4096
  const NZONES := 72
  const ZONE_HEADER := 36 // sizeof(struct rt_slab_zone)

  // ----- zoneindex -----

  datatype Slot = Slot(index: int, chunk: nat)

  /** zoneindex for the sizes it is meant for: the index, and the chunk size left in its argument. */
  function ZoneIndex(n: nat): Slot
    requires n < 16384
  {
    if n < 128 then Slot((n + 7) / 8 - 1, (n + 7) / 8 * 8)
    else if n < 256 then Slot((n + 15) / 16 + 7, (n + 15) / 16 * 16)
    else if n < 512 then Slot((n + 31) / 32 + 15, (n + 31) / 32 * 32)
    else if n < 1024 then Slot((n + 63) / 64 + 23, (n + 63) / 64 * 64)
    else if n < 2048 then Slot((n + 127) / 128 + 31, (n + 127) / 128 * 128)
    else if n < 4096 then Slot((n + 255) / 256 + 39, (n + 255) / 256 * 256)
    else if n < 8192 then Slot((n + 511) / 512 + 47, (n + 511) / 512 * 512)
    else Slot((n + 1023) / 1024 + 55, (n + 1023) / 1024 * 1024)
  }

  /** The chunk size behind an index. */
  function ChunkSize(zi: nat): nat {
    if zi < 16 then (zi + 1) * 8
    else if zi < 24 then (zi - 7) * 16
    else if zi < 32 then (zi - 15) * 32
    else if zi < 40 then (zi - 23) * 64
    else if zi < 48 then (zi - 31) * 128
    else if zi < 56 then (zi - 39) * 256
    else if zi < 64 then (zi - 47) * 512
    else (zi - 55) * 1024
  }

  /** k grains of size g are the fewest that hold n. */
  ghost predicate Grains(n: nat, g: nat, k: nat) {
    k * g >= n && k * g < n + g
  }

  /** The index determines the chunk size, the chunk holds the request, and from 128 bytes up wastes less than an
      eighth. */
  lemma ZoneIndexIs(n: nat)
    requires 0 < n < 16384
    ensures 0 <= ZoneIndex(n).index < NZONES
    ensures ChunkSize(ZoneIndex(n).index) == ZoneIndex(n).chunk
    ensures n <= ZoneIndex(n).chunk
    ensures if n < 128 then ZoneIndex(n).chunk < n + 8 else 8 * (ZoneIndex(n).chunk - n) < n
  {
    if n < 1024 {
      SmallSizes(n);
    } else {
      LargeSizes(n);
    }
  }

  lemma SmallSizes(n: nat)
    requires 0 < n < 1024
    ensures var s := ZoneIndex(n);
            && 0 <= s.index < NZONES && ChunkSize(s.index) == s.chunk
            && n <= s.chunk && (if n < 128 then s.chunk < n + 8 else 8 * (s.chunk - n) < n)
  {
    if n < 128 {
      assert Grains(n, 8, (n + 7) / 8);
    } else if n < 256 {
      assert Grains(n, 16, (n + 15) / 16);
    } else if n < 512 {
      assert Grains(n, 32, (n + 31) / 32);
    } else {
      assert Grains(n, 64, (n + 63) / 64);
    }
  }

  lemma LargeSizes(n: nat)
    requires 1024 <= n < 16384
    ensures var s := ZoneIndex(n);
            && 0 <= s.index < NZONES && ChunkSize(s.index) == s.chunk
            && n <= s.chunk && 8 * (s.chunk - n) < n
  {
    if n < 2048 {
      assert Grains(n, 128, (n + 127) / 128);
    } else if n < 4096 {
      assert Grains(n, 256, (n + 255) / 256);
    } else if n < 8192 {
      assert Grains(n, 512, (n + 511) / 512);
    } else {
      assert Grains(n, 1024, (n + 1023) / 1024);
    }
  }

  // ----- One zone -----

  /** nfree, nmax, uindex, chunksize, baseptr, zoneindex and the free chunk list of a zone header. */
  datatype Zone = Zone(nfree: nat, nmax: nat, uindex: nat, chunk: nat, base: nat, index: nat, freeChunks: seq<nat>) {
    function Addr(i: nat): nat {
      base + i * chunk
    }

    /** a is the address of a chunk that has been handed out at least once. */
    ghost predicate IsChunk(a: nat) {
      exists i: nat :: i <= uindex && a == Addr(i)
    }

    /**
     * The free count is the chunks never used plus the length of the free list; the live chunks are exactly as many as
     * are not free, and none of them is on the free list. The chunks lie between header and end of the zone at page z.
     */
    ghost predicate Valid(z: nat, pages: nat, live: set<nat>) {
      && chunk > 0 && nmax >= 2 && uindex < nmax && index < NZONES && chunk == ChunkSize(index)
      && base == z * PAGE + Offset(chunk) && base + nmax * chunk <= (z + pages) * PAGE
      && nfree == nmax - 1 - uindex + |freeChunks|
      && Distinct(freeChunks)
      && (forall a :: a in freeChunks ==> IsChunk(a))
      && |live| == nmax - nfree
      && (forall a :: a in live ==> IsChunk(a) && a !in freeChunks)
    }
  }

  lemma {:induction false} AddrOrder(base: nat, chunk: nat, i: nat, j: nat)
    requires i < j && chunk > 0
    ensures base + i * chunk + chunk <= base + j * chunk
    decreases j
  {
    assert j * chunk == (j - 1) * chunk + chunk;
    if i < j - 1 {
      AddrOrder(base, chunk, i, j - 1);
    }
  }

  /** Two chunks of a zone are the same or do not overlap. */
  lemma ChunksApart(z: Zone, a: nat, b: nat)
    requires z.chunk > 0 && z.IsChunk(a) && z.IsChunk(b) && a != b
    ensures a + z.chunk <= b || b + z.chunk <= a
  {
    var i: nat :| i <= z.uindex && a == z.Addr(i);
    var j: nat :| j <= z.uindex && b == z.Addr(j);
    if i < j {
      AddrOrder(z.base, z.chunk, i, j);
    } else if j < i {
      AddrOrder(z.base, z.chunk, j, i);
    }
  }

  lemma ChunkFits(z: Zone, a: nat)
    requires z.chunk > 0 && z.uindex < z.nmax && z.IsChunk(a)
    ensures z.base <= a && a + z.chunk <= z.base + z.nmax * z.chunk
  {
    var i: nat :| i <= z.uindex && a == z.Addr(i);
    AddrOrder(z.base, z.chunk, i, z.nmax);
    AddrAbove(z.base, z.chunk, i);
  }

  lemma AddrAbove(base: nat, chunk: nat, i: nat)
    ensures base <= base + i * chunk
  {}

  /** A chunk lies in the pages of its zone, behind the header. */
  lemma ChunkInside(z: Zone, page: nat, pages: nat, live: set<nat>, a: nat)
    requires z.Valid(page, pages, live) && z.IsChunk(a)
    ensures page * PAGE + ZONE_HEADER <= a && a + z.chunk <= (page + pages) * PAGE
    ensures page <= a / PAGE < page + pages
  {
    ChunkFits(z, a);
    OffsetBounds(z.chunk);
    InPages(a, page, pages);
  }

  lemma InPages(a: nat, page: nat, pages: nat)
    requires page * PAGE <= a < (page + pages) * PAGE
    ensures page <= a / PAGE < page + pages
  {}

  // ----- A zone that starts over -----

  /** A quotient is the largest multiple below. */
  lemma Quotient(x: nat, c: nat)
    requires c > 0
    ensures x / c >= 0 && x / c * c <= x < x / c * c + c
  {
    assert x == x / c * c + x % c;
  }

  lemma Remainder(x: nat, c: nat)
    requires c > 0
    ensures x / c >= 0 && x - x % c == x / c * c
  {}

  /** The next multiple of c. */
  function RoundUp(x: nat, c: nat): nat
    requires c > 0
  {
    x + c - 1 - (x + c - 1) % c
  }

  /** Where the chunks begin: behind the header, aligned to the chunk size when that is a power of two, else to 8. */
  function Offset(chunk: nat): nat
    requires chunk > 0
  {
    if Or(chunk, chunk - 1) + 1 == 2 * chunk then RoundUp(ZONE_HEADER, chunk) else RoundUp(ZONE_HEADER, 8)
  }

  lemma OffsetBounds(chunk: nat)
    requires chunk > 0
    ensures ZONE_HEADER <= Offset(chunk) < ZONE_HEADER + chunk + 8
  {}

  /** How many chunks fit into x bytes. */
  function Fit(x: nat, chunk: nat): nat
    requires chunk > 0
  {
    x / chunk
  }

  function Capacity(pages: nat, chunk: nat): nat
    requires chunk > 0
  {
    if Offset(chunk) <= pages * PAGE then Fit(pages * PAGE - Offset(chunk), chunk) else 0
  }

  /** The header of a zone with its first chunk handed out. */
  function Started(z: nat, pages: nat, slot: Slot): Zone
    requires slot.chunk > 0 && slot.index >= 0
  {
    var nmax := Capacity(pages, slot.chunk);
    Zone(if nmax > 0 then nmax - 1 else 0, nmax, 0, slot.chunk, z * PAGE + Offset(slot.chunk), slot.index, [])
  }

  /** The same zone before its first chunk was handed out. */
  ghost function Unstarted(r: Zone): Zone {
    r.(nfree := r.nmax, freeChunks := [r.base])
  }

  lemma AtMostOne(q: nat, c: nat)
    ensures q < 2 ==> q * c <= c
  {}

  /** Two chunks fit, all that fit end with the zone, and one more would not fit. */
  lemma CapacityBounds(pages: nat, chunk: nat)
    requires chunk > 0 && 4 * chunk <= pages * PAGE && pages >= 8
    ensures Capacity(pages, chunk) >= 2
    ensures Offset(chunk) + Capacity(pages, chunk) * chunk <= pages * PAGE
    ensures pages * PAGE < Offset(chunk) + Capacity(pages, chunk) * chunk + chunk
  {
    OffsetBounds(chunk);
    Quotient(pages * PAGE - Offset(chunk), chunk);
    AtMostOne(Capacity(pages, chunk), chunk);
  }

  /** A fresh zone holds at least two chunks and as many as fit, and keeps the zone rules, with one chunk live or with
      none. */
  lemma StartedValid(z: nat, pages: nat, slot: Slot)
    requires 0 < slot.chunk && 4 * slot.chunk <= pages * PAGE && pages >= 8
    requires 0 <= slot.index < NZONES && slot.chunk == ChunkSize(slot.index)
    ensures var r := Started(z, pages, slot);
            && r.Valid(z, pages, {r.base}) && r.nfree > 0
            && Unstarted(r).Valid(z, pages, {})
            && r.base + r.nmax * r.chunk <= (z + pages) * PAGE < r.base + r.nmax * r.chunk + r.chunk
            && r.chunk == slot.chunk && r.nfree == r.nmax - 1
  {
    CapacityBounds(pages, slot.chunk);
    var r := Started(z, pages, slot);
    FirstChunk(r);
    FirstChunk(Unstarted(r));
  }

  lemma FirstChunk(z: Zone)
    ensures z.base == z.Addr(0) && z.IsChunk(z.base)
  {
    assert z.base == z.Addr(0);
  }

  lemma OffsetMultiple(c: nat) returns (q: nat)
    requires PowerOfTwo(c)
    ensures c > 0 && Offset(c) == q * c
  {
    OrTestsPower(c);
    q := (ZONE_HEADER + c - 1) / c;
    Remainder(ZONE_HEADER + c - 1, c);
  }

  lemma Multiples(z: nat, page: nat, k: nat, q: nat, i: nat, c: nat)
    requires page == k * c
    ensures z * page + q * c + i * c == (z * k + q + i) * c
  {
    assert z * (k * c) == z * k * c;
  }

  /** Chunks whose size is a power of two up to a page are aligned to their size. */
  lemma PowerOfTwoAligned(r: Zone, z: nat, pages: nat, live: set<nat>, a: nat) returns (m: nat)
    requires r.Valid(z, pages, live) && r.IsChunk(a) && PowerOfTwo(r.chunk) && r.chunk <= PAGE
    ensures a == m * r.chunk
  {
    var q := OffsetMultiple(r.chunk);
    var i, k := PageParts(r, a);
    Multiples(z, PAGE, k, q, i, r.chunk);
    m := z * k + q + i;
  }

  lemma PageParts(r: Zone, a: nat) returns (i: nat, k: nat)
    requires r.IsChunk(a) && PowerOfTwo(r.chunk) && r.chunk <= PAGE
    ensures a == r.base + i * r.chunk && PAGE == k * r.chunk
  {
    i :| i <= r.uindex && a == r.Addr(i);
    k := PowerDivides(r.chunk, PAGE);
  }

  /** A request below the limit of slab-managed sizes gets a chunk no larger than the limit. */
  lemma ChunkBelowLimit(n: nat, limit: nat)
    requires 0 < n < limit && (limit == 8192 || limit == 16384)
    ensures ZoneIndex(n).chunk <= limit
  {
    if n < 1024 {
      SmallSizes(n);
    } else if n < 8192 {
      assert ZoneIndex(n).chunk <= 8192;
    }
  }

  /** The next never-used chunk. */
  function TakeNew(z: Zone): Zone
    requires z.nfree > 0
  {
    z.(nfree := z.nfree - 1, uindex := z.uindex + 1)
  }

  /** The first chunk of the free list. */
  function TakeFree(z: Zone): Zone
    requires z.nfree > 0 && z.freeChunks != []
  {
    z.(nfree := z.nfree - 1, freeChunks := z.freeChunks[1..])
  }

  /** A chunk goes back to the front of the free list. */
  function GiveBack(z: Zone, a: nat): Zone {
    z.(nfree := z.nfree + 1, freeChunks := [a] + z.freeChunks)
  }

  lemma TakeNewValid(z: Zone, page: nat, pages: nat, live: set<nat>)
    requires z.Valid(page, pages, live) && z.nfree > 0 && z.uindex + 1 != z.nmax
    ensures var a := z.Addr(z.uindex + 1);
            && a !in live && TakeNew(z).Valid(page, pages, live + {a}) && TakeNew(z).IsChunk(a)
  {
    var a, r := z.Addr(z.uindex + 1), TakeNew(z);
    forall b | z.IsChunk(b) ensures r.IsChunk(b) && b != a {
      var i: nat :| i <= z.uindex && b == z.Addr(i);
      assert b == r.Addr(i);
      AddrOrder(z.base, z.chunk, i, z.uindex + 1);
    }
    assert a == r.Addr(r.uindex);
  }

  lemma TakeFreeValid(z: Zone, page: nat, pages: nat, live: set<nat>)
    requires z.Valid(page, pages, live) && z.nfree > 0 && z.uindex + 1 == z.nmax
    ensures z.freeChunks != []
    ensures var a := z.freeChunks[0];
            && a !in live && TakeFree(z).Valid(page, pages, live + {a}) && TakeFree(z).IsChunk(a)
  {
    var a, r := z.freeChunks[0], TakeFree(z);
    DistinctTail(z.freeChunks);
    TailIn(z.freeChunks);
    forall b | z.IsChunk(b) ensures r.IsChunk(b) {
      var i: nat :| i <= z.uindex && b == z.Addr(i);
      assert b == r.Addr(i);
    }
    assert a in z.freeChunks;
  }

  lemma GiveBackValid(z: Zone, page: nat, pages: nat, live: set<nat>, a: nat)
    requires z.Valid(page, pages, live) && a in live
    ensures GiveBack(z, a).Valid(page, pages, live - {a})
    ensures |live| > 0
  {
    var r := GiveBack(z, a);
    forall b | z.IsChunk(b) ensures r.IsChunk(b) {
      var i: nat :| i <= z.uindex && b == z.Addr(i);
      assert b == r.Addr(i);
    }
    assert |live - {a}| == |live| - 1;
  }

  ghost predicate CanPop(z: Zone) {
    z.nfree > 0 && (z.uindex + 1 == z.nmax ==> z.freeChunks != [])
  }

  /** The next chunk of a zone: one never used before, else the first of the free list. */
  ghost function Pop(z: Zone): (Zone, nat)
    requires CanPop(z)
  {
    if z.uindex + 1 != z.nmax then (TakeNew(z), z.Addr(z.uindex + 1)) else (TakeFree(z), z.freeChunks[0])
  }

  lemma PopValid(z: Zone, page: nat, pages: nat, live: set<nat>)
    requires z.Valid(page, pages, live) && z.nfree > 0
    ensures CanPop(z)
    ensures var (r, a) := Pop(z);
            && a !in live && r.Valid(page, pages, live + {a}) && r.IsChunk(a)
            && r.nfree == z.nfree - 1 && r.chunk == z.chunk && r.index == z.index
  {
    if z.uindex + 1 != z.nmax {
      TakeNewValid(z, page, pages, live);
    } else {
      TakeFreeValid(z, page, pages, live);
    }
  }
}
