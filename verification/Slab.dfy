/**
 * The slab heap (rt-thread/src/slab.c): small sizes are chunks of zones, large ones runs of pages. Addresses count
 * bytes from the start of the heap, which begins at a page.
 */
module Slab {
  import opened Bits
  import opened Contents
  import opened Lists
  import opened SlabPages
  import opened SlabZones
  import opened SlabView

  const WORD32 := 0x1_0000_0000

  type Bytes = n: int | 0 <= n < WORD32

  function Max(a: nat, b: nat): nat {
    if a < b then b else a
  }

  /** The pages a request takes when it goes past the zones. */
  function PagesFor(size: nat): (n: nat)
    ensures size <= n * PAGE < size + PAGE
  {
    (size + PAGE - 1) / PAGE
  }

  /** The bytes behind the pointer that a request gets. */
  function Granted(size: nat, limit: nat): nat
    requires limit <= 16384
  {
    if size >= limit then PagesFor(size) * PAGE else ZoneIndex(size).chunk
  }

  /** n bytes hold a request: whole pages past the zones, less than 8 bytes too many for a small one, and less than an
      eighth too many between. */
  ghost predicate Snug(size: nat, limit: nat, n: nat) {
    && size <= n
    && if size >= limit then n % PAGE == 0 && n < size + PAGE
       else if size < 128 then n < size + 8
       else 8 * (n - size) < size
  }

  /** No n consecutive pages are free. */
  ghost predicate NoRun(runs: seq<Run>, n: nat) {
    forall a :: !AllIn(runs, a, n)
  }

  /** No zone of the index has a free chunk, no whole zone is free, and there are no pages for another one. */
  ghost predicate Exhausted(v: View, zi: int) {
    && (forall z :: z in v.zones && v.zones[z].index == zi ==> v.zones[z].nfree == 0)
    && v.zoneFree == [] && NoRun(v.runs, v.pages)
  }

  /** There is no memory for a request. */
  ghost predicate CannotServe(v: View, limit: nat, size: nat)
    requires limit <= 16384
  {
    if size >= limit then NoRun(v.runs, PagesFor(size)) else Exhausted(v, ZoneIndex(size).index)
  }

  ghost predicate InSomeZone(v: View, a: nat) {
    exists z :: InZone(v, a, z)
  }

  /** The size that rt_slab_realloc asks for a chunk's successor: rounded as a chunk size already. */
  function Rounded(size: nat): nat {
    if size < 16384 then ZoneIndex(size).chunk else size
  }

  lemma RoundedFits(size: Bytes)
    ensures size <= Rounded(size) < WORD32
    ensures if size >= 16384 then Rounded(size) == size
            else Rounded(size) < size + 8 || 8 * (Rounded(size) - size) < size
  {
    if 0 < size < 16384 {
      ZoneIndexIs(size);
    }
  }

  /** The bytes of every listed allocation are the same before and after. */
  ghost predicate KeepsBytes(was: seq<int>, now: seq<int>, live: map<nat, nat>) {
    && |was| == |now|
    && forall b, i {:trigger b in live, now[i]} ::
         b in live && b <= i < b + live[b] && 0 <= i < |was| ==> now[i] == was[i]
  }

  /** Free chunks of an index are found from the head of its list, or in a whole free zone. */
  lemma ListEmpty(v: View, zi: nat)
    requires Valid(v) && zi < NZONES
    ensures v.zoneArray[zi] == [] && v.zoneFree == [] <==>
              v.zoneFree == [] && forall z :: z in v.zones && v.zones[z].index == zi ==> v.zones[z].nfree == 0
  {
    assert ListOk(v, zi);
    if v.zoneArray[zi] == [] && v.zoneFree == [] {
      forall z | z in v.zones && v.zones[z].index == zi ensures v.zones[z].nfree == 0 {
        assert OnItsList(v, z);
      }
    }
    if v.zoneArray[zi] != [] {
      assert v.zoneArray[zi][0] in v.zoneArray[zi];
    }
  }

  /** RT_ALIGN on 32 bits: a request just below 2^32 wraps to no page at all; the heap has no such run either. */
  method AlignedPages(size: Bytes, ghost v: View) returns (n: nat)
    requires PagesOk(v) && |v.owner| < 0x10_0000 && size > 0
    ensures n == PagesFor(size) > 0 || (n == 0 && NoRun(v.runs, PagesFor(size)))
  {
    n := (size + PAGE - 1) % WORD32 / PAGE;
    if size + PAGE - 1 >= WORD32 {
      ghost var m := PagesFor(size);
      forall a ensures !AllIn(v.runs, a, m) {
        if AllIn(v.runs, a, m) {
          FreeInHeap(v, a, m);
        }
      }
    }
  }

  /** Free pages are pages of the heap. */
  lemma FreeInHeap(v: View, a: int, n: nat)
    requires PagesOk(v) && n > 0 && AllIn(v.runs, a, n)
    ensures 0 <= a && a + n <= |v.owner|
  {
    assert Within(a, n, a) && Within(a, n, a + n - 1);
    assert Inside(v, a) && Inside(v, a + n - 1);
  }

  lemma SameWith(m: map<nat, Zone>, n: map<nat, Zone>, k: nat, v: Zone)
    requires m - {k} == n - {k}
    ensures m[k := v] == n[k := v]
  {
    assert m[k := v] == (m - {k})[k := v];
    assert n[k := v] == (n - {k})[k := v];
  }

  lemma LaidOut(v: View, z: nat, runs: seq<Run>, slot: Slot)
    requires Valid(v) && AllIn(v.runs, z, v.pages)
    requires forall p :: In(runs, p) <==> In(v.runs, p) && !Within(z, v.pages, p)
    requires 0 < slot.chunk && 4 * slot.chunk <= v.pages * PAGE && v.pages >= 8
    requires 0 <= slot.index < NZONES && slot.chunk == ChunkSize(slot.index)
    ensures Valid(Made(v, z, runs, Unstarted(Started(z, v.pages, slot))))
  {
    StartedValid(z, v.pages, slot);
    MadeValid(v, z, runs, Unstarted(Started(z, v.pages, slot)));
  }

  lemma Restarted(v: View, slot: Slot)
    requires Valid(v) && v.zoneFree != [] && 0 < slot.chunk && 4 * slot.chunk <= v.pages * PAGE && v.pages >= 8
    requires 0 <= slot.index < NZONES && slot.chunk == ChunkSize(slot.index)
    ensures var s := Started(v.zoneFree[0], v.pages, slot);
            s.base !in v.live && Valid(Reused(v, s)) && s.uindex == 0
  {
    StartedValid(v.zoneFree[0], v.pages, slot);
    ReusedValid(v, Started(v.zoneFree[0], v.pages, slot));
  }

  /** The zone at the head of a list can hand out a chunk. */
  lemma Popped(v: View, zi: nat)
    requires Valid(v) && zi < NZONES && v.zoneArray[zi] != []
    ensures var z := v.zoneArray[zi][0];
            && z in v.zones && z in v.liveOf && CanPop(v.zones[z])
            && Without(v.zoneArray[zi], z) == v.zoneArray[zi][1..]
            && var (r, a) := Pop(v.zones[z]);
               r.chunk == ChunkSize(zi) && r.index == zi && a !in v.live && Valid(Took(v, z, r, a))
  {
    var z := v.zoneArray[zi][0];
    HeadZone(v, zi);
    PopValid(v.zones[z], z, v.pages, v.liveOf[z]);
    var (r, a) := Pop(v.zones[z]);
    TookValid(v, z, r, a);
  }

  lemma GrantedFits(size: Bytes, limit: nat)
    requires limit == 8192 || limit == 16384
    ensures size > 0 ==> Snug(size, limit, Granted(size, limit))
    ensures 0 < size < limit ==>
              var s := ZoneIndex(size); 0 <= s.index < NZONES && ChunkSize(s.index) == s.chunk && 0 < s.chunk <= limit
  {
    if 0 < size < limit {
      ZoneIndexIs(size);
      ChunkBelowLimit(size, limit);
    }
  }

  /** A zone with a free chunk that is not on zone_free is on the list of its index. */
  lemma OnList(v: View, z: nat)
    requires Valid(v) && z in v.zones && z !in v.zoneFree
    requires v.zones[z].nfree > 0 || v.zones[z].nfree == v.zones[z].nmax
    ensures v.zones[z].index < NZONES && z in v.zoneArray[v.zones[z].index]
  {
    assert ZoneOk(v, z) && OnItsList(v, z);
  }

  lemma ChunkIsLive(v: View, a: nat, z: nat)
    requires Valid(v) && InZone(v, a, z)
    ensures z !in v.zoneFree && v.zones[z].index < NZONES && v.used >= v.zones[z].chunk
    ensures a in v.live && v.live[a] == v.zones[z].chunk
  {
    PutValid(v, z, a);
    assert ZoneOk(v, z);
  }

  /** A large allocation is no chunk. */
  lemma NoChunk(v: View, a: nat)
    requires Valid(v) && a % PAGE == 0 && a / PAGE in v.large
    ensures !InSomeZone(v, a)
  {
    if z: nat :| InZone(v, a, z) {
      ChunkNotLarge(v, z, a, a / PAGE);
    }
  }

  /** Two live allocations, and every other one, have room of their own in the heap. */
  lemma ApartFrom(v: View, a: nat, b: nat, live: map<nat, nat>)
    requires Valid(v) && a in v.live && b in v.live && a != b
    requires forall c :: c in live && c != b ==> c in v.live && v.live[c] == live[c]
    ensures a + v.live[a] <= |v.owner| * PAGE && b + v.live[b] <= |v.owner| * PAGE
    ensures a + v.live[a] <= b || b + v.live[b] <= a
    ensures forall c {:trigger live[c]} :: c in live && c != b ==> c + live[c] <= b || b + v.live[b] <= c
  {
    LiveInHeap(v, a);
    LiveInHeap(v, b);
    LiveApart(v, a, b);
    forall c | c in live && c != b ensures c + live[c] <= b || b + v.live[b] <= c {
      LiveApart(v, c, b);
    }
  }

  /** A live chunk whose size is a power of two up to a page is aligned to its size. */
  lemma LiveAligned(v: View, a: nat) returns (m: nat)
    requires Valid(v) && InSomeZone(v, a) && a in v.live && PowerOfTwo(v.live[a]) && v.live[a] <= PAGE
    ensures a == m * v.live[a]
  {
    var z: nat :| InZone(v, a, z);
    assert ZoneOk(v, z);
    m := PowerOfTwoAligned(v.zones[z], z, v.pages, v.liveOf[z], a);
  }

  /** With nothing allocated nothing is counted, no large run is left and every zone is all free. */
  lemma NothingLive(v: View)
    requires Valid(v) && v.live == map[]
    ensures v.used == 0 && v.large == map[]
    ensures forall z :: z in v.zones ==> v.zones[z].nfree == v.zones[z].nmax
  {
    forall l: nat ensures l !in v.large {
      assert LargeOk(v, l);
    }
    assert v.large.Keys == {};
    forall z | z in v.zones ensures v.zones[z].nfree == v.zones[z].nmax {
      assert ZoneOk(v, z);
      assert v.liveOf[z] == {};
    }
  }

  /** A live allocation lies in the heap. */
  lemma LiveInHeap(v: View, a: nat)
    requires Valid(v) && a in v.live
    ensures 0 < v.live[a] && a + v.live[a] <= |v.owner| * PAGE
  {
    var s, n, o := Region(v, a);
    assert Within(s, n, s + n - 1);
    assert OwnedBy(v, s + n - 1, o);
    LivePositive(v, a);
  }

  /** The page table of n pages takes this many of them. */
  function TablePages(n: nat): (m: nat)
    ensures n * 4 <= m * PAGE < n * 4 + PAGE
  {
    (n * 4 + PAGE - 1) / PAGE
  }

  /** The heap before the first request: the page table is in use, all other pages are free. */
  lemma InitialValid(v: View, n: nat)
    requires |v.usage| == |v.owner| == n > 0 && v.pages > 0
    requires forall p :: In(v.runs, p) <==> TablePages(n) <= p < n
    requires forall p :: 0 <= p < n ==> v.owner[p] == if p < TablePages(n) then Table else Nobody
    requires v.zones == map[] && v.zoneArray == seq(NZONES, _ => []) && v.zoneFree == []
    requires v.used == 0 && v.large == map[] && v.live == map[]
    ensures Valid(v)
  {
    forall p ensures PageOk(v, p) && Inside(v, p) {
      assert In(v.runs, p) <==> TablePages(n) <= p < n;
    }
    forall i ensures ListOk(v, i) {
      if 0 <= i < |v.zoneArray| {
        assert v.zoneArray[i] == [];
      }
    }
    assert forall z: nat :: ZoneOk(v, z) && OnItsList(v, z);
    assert forall l: nat :: LargeOk(v, l);
  }

  lemma TableIsFirst(runs: seq<Run>, n: nat, m: nat, table: Option<nat>)
    requires 0 < m <= n && forall p :: In(runs, p) <==> Within(0, n, p)
    requires table.None? ==> NoRun(runs, m)
    requires table.Some? ==> AllIn(runs, table.value, m) && forall a :: AllIn(runs, a, m) ==> table.value <= a
    ensures table == Some(0)
  {
    assert AllIn(runs, 0, m);
  }

  // ----- Where the heap lies -----

  /** sizeof(struct rt_slab) */
  const SIZEOF_SLAB := 364

  /** RT_ALIGN on 32 bits. */
  function Align32(x: nat, a: nat): Bytes
    requires 0 < a < WORD32
  {
    var y := (x + a - 1) % WORD32;
    y - y % a
  }

  /** The heap begins at the first page behind the slab object ... */
  function HeapBegin(begin: Bytes): Bytes {
    Align32((Align32(begin, 8) + SIZEOF_SLAB) % WORD32, PAGE)
  }

  /** ... and ends with the last whole page of the region. */
  function HeapEnd(begin: Bytes, size: Bytes): Bytes {
    var y := (begin + size) % WORD32;
    y - y % PAGE
  }

  function HeapPages(begin: Bytes, size: Bytes): nat {
    if HeapBegin(begin) >= HeapEnd(begin, size) then 0 else (HeapEnd(begin, size) - HeapBegin(begin)) / PAGE
  }

  lemma AlignedUp(x: nat, a: nat)
    requires 0 < a < WORD32 && x + a <= WORD32
    ensures x <= Align32(x, a) < x + a && Align32(x, a) % a == 0
  {
    var y := x + a - 1;
    assert y % WORD32 == y;
    var z := y - y % a;
    assert Align32(x, a) == z;
    assert x - 1 < z <= y;
    Whole(y, a);
  }

  lemma Whole(y: nat, a: nat)
    requires a > 0
    ensures (y - y % a) % a == 0
  {
    Remainder(y, a);
    MultipleOf(y / a, a);
  }

  lemma MultipleOf(q: nat, a: nat)
    requires a > 0
    ensures q * a % a == 0
  {
    var x := q * a;
    Remainder(x, a);
    if q > x / a {
      Difference(q, x / a, a);
    } else if q < x / a {
      Difference(x / a, q, a);
    }
  }

  lemma Difference(p: nat, q: nat, a: nat)
    requires p > q
    ensures p * a >= q * a + a
  {
    assert p * a == (q + 1) * a + (p - q - 1) * a;
    NonNegative(p - q - 1, a);
  }

  lemma NonNegative(x: nat, a: nat)
    ensures x * a >= 0
  {}

  /** The slab object lies at the first multiple of 8 of the region. */
  ghost predicate ObjectAt(begin: nat, o: nat) {
    begin <= o < begin + 8 && o % 8 == 0
  }

  lemma BeginInRegion(begin: Bytes)
    requires begin + SIZEOF_SLAB + 8 + PAGE <= WORD32
    ensures HeapBegin(begin) % PAGE == 0
    ensures exists o: nat :: ObjectAt(begin, o) && o + SIZEOF_SLAB <= HeapBegin(begin) < o + SIZEOF_SLAB + PAGE
  {
    assert ObjectAt(begin, Align32(begin, 8)) by {
      AlignedUp(begin, 8);
    }
    AlignedUp(begin, 8);
    AlignedUp(Align32(begin, 8) + SIZEOF_SLAB, PAGE);
  }

  lemma EndInRegion(begin: Bytes, size: Bytes)
    requires begin + size < WORD32
    ensures HeapEnd(begin, size) <= begin + size < HeapEnd(begin, size) + PAGE && HeapEnd(begin, size) % PAGE == 0
  {
    assert (begin + size) % WORD32 == begin + size;
    Whole(begin + size, PAGE);
  }

  lemma PagesBetween(first: nat, last: nat)
    requires first % PAGE == 0 && last % PAGE == 0 && first < last
    ensures first + (last - first) / PAGE * PAGE == last
  {
  }

  /** In a region of the address space the heap lies behind the slab object, and wastes less than two more pages. */
  lemma HeapInRegion(begin: Bytes, size: Bytes)
    requires begin + size < WORD32 && begin + SIZEOF_SLAB + 8 + PAGE <= WORD32
    ensures exists o: nat :: ObjectAt(begin, o) && o + SIZEOF_SLAB <= HeapBegin(begin) < o + SIZEOF_SLAB + PAGE
    ensures HeapEnd(begin, size) <= begin + size < HeapEnd(begin, size) + PAGE
    ensures HeapPages(begin, size) > 0 ==>
              HeapBegin(begin) % PAGE == 0 && HeapBegin(begin) + HeapPages(begin, size) * PAGE == HeapEnd(begin, size)
    ensures size < SIZEOF_SLAB + 8 + (HeapPages(begin, size) + 2) * PAGE
  {
    BeginInRegion(begin);
    EndInRegion(begin, size);
    if HeapBegin(begin) < HeapEnd(begin, size) {
      PagesBetween(HeapBegin(begin), HeapEnd(begin, size));
    }
  }

  /** rt_slab_init: nothing when the region has no whole page behind the object. */
  method Init(begin: Bytes, size: Bytes) returns (h: SlabHeap?)
    ensures h == null <==> HeapPages(begin, size) == 0
    ensures h != null ==>
              fresh(h) && h.Ok() && h.live == map[] && h.used == 0 && h.usage.Length == HeapPages(begin, size)
  {
    if HeapBegin(begin) >= HeapEnd(begin, size) {
      return null;
    }
    WholePages(begin, size);
    h := new SlabHeap(HeapPages(begin, size));
  }

  lemma WholePages(begin: Bytes, size: Bytes)
    requires HeapBegin(begin) < HeapEnd(begin, size)
    ensures 0 < HeapPages(begin, size) < 0x10_0000
  {
    Whole(((Align32(begin, 8) + SIZEOF_SLAB) % WORD32 + PAGE - 1) % WORD32, PAGE);
    Whole((begin + size) % WORD32, PAGE);
  }

  class SlabHeap {
    const pool: PagePool
    const usage: array<Usage>
    const zoneArray: array<seq<nat>>
    const bytes: array<int>
    const zonePages: nat
    const limit: nat
    var zones: map<nat, Zone>
    var zoneFree: seq<nat>
    var used: nat
    var max: nat
    ghost var owner: seq<Owner>
    ghost var liveOf: map<nat, set<nat>>
    ghost var large: map<nat, nat>
    ghost var live: map<nat, nat>

    ghost function V(): View
      reads this, pool, usage, zoneArray
    {
      View(pool.runs, usage[..], zonePages, zones, zoneArray[..], zoneFree, used, owner, liveOf, large, live)
    }

    ghost predicate Sizes() {
      && zonePages >= 8 && (limit == 8192 || limit == 16384) && 4 * limit <= zonePages * PAGE
      && usage.Length < 0x10_0000 && bytes.Length == usage.Length * PAGE
    }

    ghost predicate Ok()
      reads this, pool, usage, zoneArray
    {
      Sizes() && pool.Valid() && Valid(V()) && |zoneFree| <= ZONE_RELEASE_THRESH && used <= max
    }

    /** rt_slab_init on n whole pages. */
    constructor (n: nat)
      requires 0 < n < 0x10_0000
      ensures Ok() && live == map[] && used == 0 && fresh(pool) && fresh(usage) && fresh(zoneArray) && fresh(bytes)
      ensures usage.Length == n && forall p :: In(pool.runs, p) <==> TablePages(n) <= p < n
      ensures zonePages == if 4 * n <= 0x1_0000 then 8 else if 4 * n <= 0x2_0000 then 16 else 32
      ensures limit == if zonePages == 8 then 8192 else 16384
    {
      var size := 0x8000;
      while size < 0x2_0000 && 2 * size < n * PAGE / 1024
        invariant size in {0x8000, 0x1_0000, 0x2_0000}
        invariant size > 0x8000 ==> 0x1_0000 < 4 * n
        invariant size > 0x1_0000 ==> 0x2_0000 < 4 * n
        decreases 0x2_0000 - size
      {
        size := 2 * size;
      }
      zonePages := size / PAGE;
      limit := if size / 4 > 16384 then 16384 else size / 4;
      pool := new PagePool();
      usage := new Usage[n];
      zoneArray := new seq<nat>[NZONES](_ => []);
      bytes := new int[n * PAGE];
      zones, zoneFree, used, max := map[], [], 0, 0;
      owner, liveOf, large, live := seq(n, _ => Nobody), map[], map[], map[];
      new;
      pool.Release(0, n);
      ghost var all := pool.runs;
      var m := (n * 4 + PAGE - 1) / PAGE;
      var table := pool.Alloc(m);
      TableIsFirst(all, n, m, table);
      owner := Given(owner, 0, m, Table);
      InitialValid(V(), n);
    }

    // ----- Large allocations -----

    method AllocLarge(size: Bytes) returns (r: Option<nat>)
      requires Ok() && size > 0
      modifies this, pool, usage
      ensures Ok()
      ensures r.None? <==> NoRun(old(pool.runs), PagesFor(size))
      ensures r.None? ==> V() == old(V()) && max == old(max)
      ensures r.Some? ==> r.value !in old(live) && live == old(live)[r.value := PagesFor(size) * PAGE]
      ensures r.Some? ==> used == old(used) + PagesFor(size) * PAGE && max == Max(old(max), used)
    {
      ghost var v := V();
      var n := AlignedPages(size, v);
      r := pool.Alloc(n);
      if r.None? {
        return;
      }
      TookLargeValid(v, r.value, n, pool.runs);
      RecordLarge(r.value, n, v);
      r := Some(r.value * PAGE);
    }

    /** The page table entry of a large allocation whose pages have just been taken. */
    method RecordLarge(l: nat, n: nat, ghost v: View)
      requires Sizes() && pool.Valid() && v.(runs := pool.runs) == V()
      requires |zoneFree| <= ZONE_RELEASE_THRESH && used <= max
      requires l < usage.Length && Valid(TookLarge(v, l, n, pool.runs))
      modifies this, usage
      ensures Ok() && live == old(live)[l * PAGE := n * PAGE]
      ensures used == old(used) + n * PAGE && max == Max(old(max), used)
    {
      usage[l] := Usage(Large, n);
      Count(n * PAGE);
      owner, large, live := Given(owner, l, n, OfLarge(l)), large[l := n], live[l * PAGE := n * PAGE];
      assert V() == TookLarge(v, l, n, pool.runs);
    }

    method FreeLarge(a: nat)
      requires Ok() && a % PAGE == 0 && a / PAGE in large
      modifies this, pool, usage
      ensures Ok() && live == old(live) - {a} && max == old(max)
      ensures used == old(used) - old(large)[a / PAGE] * PAGE
    {
      ghost var v := V();
      var l := a / PAGE;
      LargePages(v, l);
      var n := usage[l].size;
      usage[l] := usage[l].(size := 0);
      used := used - n * PAGE;
      pool.Release(l, n);
      PutLargeValid(v, l, pool.runs);
      owner, large, live := Given(owner, l, n, Nobody), large - {l}, live - {a};
      assert V() == PutLarge(v, l, pool.runs);
    }

    // ----- Chunks -----

    /** The first zone on the list of the index hands out a chunk. */
    method TakeChunk(zi: nat) returns (a: nat)
      requires Ok() && zi < NZONES && zoneArray[zi] != []
      modifies this, zoneArray
      ensures Ok() && a !in old(live) && live == old(live)[a := ChunkSize(zi)]
      ensures used == old(used) + ChunkSize(zi) && max == Max(old(max), used)
    {
      ghost var v := V();
      var z := zoneArray[zi][0];
      Popped(v, zi);
      ghost var r := Pop(zones[z]).0;
      a := PopChunk(z);
      if zones[z].nfree == 0 {
        zoneArray[zi] := zoneArray[zi][1..];
      }
      Count(zones[z].chunk);
      liveOf, live := liveOf[z := liveOf[z] + {a}], live[a := r.chunk];
      assert V() == Took(v, z, r, a);
    }

    method PopChunk(z: nat) returns (a: nat)
      requires z in zones && CanPop(zones[z])
      modifies this`zones
      ensures zones == old(zones)[z := Pop(old(zones)[z]).0] && a == Pop(old(zones)[z]).1
    {
      zones := zones[z := zones[z].(nfree := zones[z].nfree - 1)];
      if zones[z].uindex + 1 != zones[z].nmax {
        zones := zones[z := zones[z].(uindex := zones[z].uindex + 1)];
        a := zones[z].Addr(zones[z].uindex);
      } else {
        a := zones[z].freeChunks[0];
        zones := zones[z := zones[z].(freeChunks := zones[z].freeChunks[1..])];
      }
    }

    /** The statistics of an allocation. */
    method Count(n: nat)
      requires used <= max
      modifies this`used, this`max
      ensures used == old(used) + n && max == Max(old(max), used)
    {
      used := used + n;
      if used > max {
        max := used;
      }
    }

    /** A whole zone, from zone_free or from new pages, starts over with chunks of another size. */
    method StartZone(slot: Slot) returns (r: Option<nat>)
      requires Ok() && 0 <= slot.index < NZONES && ChunkSize(slot.index) == slot.chunk && 0 < slot.chunk <= limit
      modifies this, pool, usage, zoneArray
      ensures Ok()
      ensures r.None? <==> old(zoneFree) == [] && NoRun(old(pool.runs), zonePages)
      ensures r.None? ==> V() == old(V()) && max == old(max)
      ensures r.Some? ==> r.value !in old(live) && live == old(live)[r.value := slot.chunk]
      ensures r.Some? ==> used == old(used) + slot.chunk && max == Max(old(max), used)
      ensures old(zoneFree) != [] ==> pool.runs == old(pool.runs)
    {
      if zoneFree != [] {
        ghost var w := V();
        var z := zoneFree[0];
        zoneFree := zoneFree[1..];
        var a := LayOut(z, slot, w);
        r := Some(a);
      } else {
        var z;
        ghost var w;
        z, w := MakeZone(slot);
        if z.None? {
          return None;
        }
        var a := LayOut(z.value, slot, w);
        r := Some(a);
      }
    }

    /** Zone z, in front of zone_free in the state w, gets a new header; its first chunk is handed out. */
    method LayOut(z: nat, slot: Slot, ghost w: View) returns (a: nat)
      requires Sizes() && pool.Valid() && Valid(w) && |zoneFree| <= ZONE_RELEASE_THRESH && used <= max
      requires w == V().(zoneFree := [z] + zoneFree, zones := w.zones) && w.zones - {z} == zones - {z}
      requires 0 <= slot.index < NZONES && ChunkSize(slot.index) == slot.chunk && 0 < slot.chunk <= limit
      modifies this`zones, this`liveOf, this`live, this`used, this`max, zoneArray
      ensures Ok() && a !in old(live) && live == old(live)[a := slot.chunk]
      ensures used == old(used) + slot.chunk && max == Max(old(max), used)
    {
      ghost var s := Started(z, zonePages, slot);
      Restarted(w, slot);
      SameWith(w.zones, zones, z, s);
      zones := zones[z := Started(z, zonePages, slot)];
      a := zones[z].base;
      zoneArray[slot.index] := [z] + zoneArray[slot.index];
      Count(slot.chunk);
      liveOf, live := liveOf[z := {s.base}], live[s.base := slot.chunk];
      assert V() == Reused(w, s);
    }

    /** Pages for another zone; w is the state in which it lies empty on zone_free. */
    method MakeZone(slot: Slot) returns (z: Option<nat>, ghost w: View)
      requires Ok() && 0 <= slot.index < NZONES && ChunkSize(slot.index) == slot.chunk && 0 < slot.chunk <= limit
      modifies this`owner, this`liveOf, pool, usage
      ensures z.None? <==> NoRun(old(pool.runs), zonePages)
      ensures z.None? ==> V() == old(V())
      ensures pool.Valid()
      ensures z.Some? ==>
                Valid(w) && w == V().(zoneFree := [z.value] + zoneFree, zones := w.zones)
                && w.zones - {z.value} == zones - {z.value}
    {
      ghost var v := V();
      w := v;
      z := pool.Alloc(zonePages);
      if z.None? {
        return;
      }
      FreeInHeap(v, z.value, zonePages);
      MarkZone(z.value);
      ghost var u := Unstarted(Started(z.value, zonePages, slot));
      LaidOut(v, z.value, pool.runs, slot);
      owner, liveOf := Given(owner, z.value, zonePages, OfZone(z.value)), liveOf[z.value := {}];
      w := Made(v, z.value, pool.runs, u);
    }

    /** The page table of a new zone. */
    method MarkZone(z: nat)
      requires z + zonePages <= usage.Length
      modifies usage
      ensures usage[..] == ZoneUsage(old(usage[..]), z, zonePages)
    {
      for off := 0 to zonePages
        invariant forall p :: 0 <= p < usage.Length ==>
                    usage[p] == if z <= p < z + off then Usage(Small, p - z) else old(usage[p])
      {
        usage[z + off] := Usage(Small, off);
      }
    }

    /** The page table of a zone that is given back. */
    method ClearZone(z: nat)
      requires z + zonePages <= usage.Length
      modifies usage
      ensures usage[..] == FreeUsage(old(usage[..]), z, zonePages)
    {
      for i := 0 to zonePages
        invariant forall p :: 0 <= p < usage.Length ==>
                    usage[p] == if z <= p < z + i then Usage(Unused, 0) else old(usage[p])
      {
        usage[z + i] := Usage(Unused, 0);
      }
    }

    /** rt_slab_alloc: no memory exactly when there is none, else an address of its own with room for the request. */
    method Alloc(size: Bytes) returns (r: Option<nat>)
      requires Ok()
      modifies this, pool, usage, zoneArray
      ensures Ok()
      ensures r.None? <==> size == 0 || CannotServe(old(V()), limit, size)
      ensures r.None? ==> V() == old(V()) && max == old(max)
      ensures r.Some? ==> r.value !in old(live) && live == old(live)[r.value := Granted(size, limit)]
      ensures r.Some? ==> used == old(used) + Granted(size, limit) && max == Max(old(max), used)
      ensures r.Some? ==> Snug(size, limit, live[r.value])
      // pages make a new zone only when no zone has a free chunk of the size and no empty zone is kept
      ensures 0 < size < limit && pool.runs != old(pool.runs) ==>
                old(zoneFree) == [] &&
                forall z :: z in old(zones) && old(zones)[z].index == ZoneIndex(size).index ==> old(zones)[z].nfree == 0
    {
      GrantedFits(size, limit);
      if size == 0 {
        return None;
      }
      if size >= limit {
        r := AllocLarge(size);
        return;
      }
      var slot := ZoneIndex(size);
      ListEmpty(V(), slot.index);
      if zoneArray[slot.index] != [] {
        var a := TakeChunk(slot.index);
        return Some(a);
      }
      r := StartZone(slot);
    }

    // ----- Giving back -----

    /** The chunk goes to the front of the free list of its zone, a full zone to the front of the list of its index. */
    method FreeChunk(z: nat, a: nat)
      requires Ok() && InZone(V(), a, z) && zones[z].index < NZONES && used >= zones[z].chunk
      modifies this, zoneArray
      ensures Ok() && V() == Put(old(V()), z, a) && max == old(max)
    {
      ghost var v := V();
      PutValid(v, z, a);
      var wasFull := PushChunk(z, a);
      used := used - zones[z].chunk;
      if wasFull {
        zoneArray[zones[z].index] := [z] + zoneArray[zones[z].index];
      }
      liveOf, live := liveOf[z := liveOf[z] - {a}], live - {a};
      assert V() == Put(v, z, a);
    }

    method PushChunk(z: nat, a: nat) returns (wasFull: bool)
      requires z in zones
      modifies this`zones
      ensures zones == old(zones)[z := GiveBack(old(zones)[z], a)] && (wasFull <==> old(zones)[z].nfree == 0)
    {
      zones := zones[z := zones[z].(freeChunks := [a] + zones[z].freeChunks)];
      wasFull := zones[z].nfree == 0;
      zones := zones[z := zones[z].(nfree := zones[z].nfree + 1)];
    }

    /** The walk that takes a zone off a list. */
    method Unlink(list: seq<nat>, z: nat) returns (r: seq<nat>)
      requires z in list
      ensures r == Without(list, z)
    {
      var i := 0;
      while list[i] != z
        invariant 0 <= i < |list| && forall j :: 0 <= j < i ==> list[j] != z
        decreases |list| - i
      {
        i := i + 1;
      }
      r := list[..i] + list[i + 1..];
      WithoutAt(list, i, z);
    }

    /** A zone that became all free moves to zone_free; one zone beyond the threshold gives its pages back. */
    method Retire(z: nat)
      requires Ok() && z in zones && z !in zoneFree && zones[z].nfree == zones[z].nmax
      modifies this, pool, usage, zoneArray
      ensures Ok() && live == old(live) && used == old(used) && max == old(max)
      ensures |old(zoneFree)| < ZONE_RELEASE_THRESH ==> zoneFree == [z] + old(zoneFree) && pool.runs == old(pool.runs)
      ensures |old(zoneFree)| == ZONE_RELEASE_THRESH ==> zoneFree == old(zoneFree) && z !in zones
    {
      ghost var v := V();
      RetiredValid(v, z);
      OnList(v, z);
      var i := zones[z].index;
      zoneArray[i] := Unlink(zoneArray[i], z);
      zoneFree := [z] + zoneFree;
      assert V() == Retired(v, z);
      if |zoneFree| > ZONE_RELEASE_THRESH {
        ReleaseZone();
      }
    }

    method ReleaseZone()
      requires Sizes() && pool.Valid() && Valid(V()) && used <= max && zoneFree != []
      modifies this, pool, usage
      ensures Sizes() && pool.Valid() && Valid(V()) && used <= max && zoneFree == old(zoneFree)[1..]
      ensures zones == old(zones) - {old(zoneFree)[0]}
      ensures live == old(live) && used == old(used) && max == old(max)
    {
      ghost var v := V();
      var z := zoneFree[0];
      ZonePages(v, z);
      zoneFree := zoneFree[1..];
      ClearZone(z);
      pool.Release(z, zonePages);
      ReleasedValid(v, pool.runs);
      zones := zones - {z};
      owner, liveOf := Given(owner, z, zonePages, Nobody), liveOf - {z};
      assert V() == Released(v, pool.runs);
    }

    /** rt_slab_free: the address is no longer live, and every other one is as it was. */
    method Free(p: Option<nat>)
      requires Ok() && (p.Some? ==> p.value in live)
      modifies this, pool, usage, zoneArray
      ensures Ok() && max == old(max)
      ensures p.None? ==> V() == old(V())
      ensures p.Some? ==> live == old(live) - {p.value} && used == old(used) - old(live)[p.value]
      // an empty zone is kept as long as few are
      ensures p.Some? && InSomeZone(old(V()), p.value) && |old(zoneFree)| < ZONE_RELEASE_THRESH ==>
                pool.runs == old(pool.runs)
    {
      if p.None? {
        return;
      }
      var a := p.value;
      TableFinds(V(), a);
      var u := usage[a / PAGE];
      if u.kind == Large {
        LargePages(V(), a / PAGE);
        NoChunk(V(), a);
        FreeLarge(a);
        return;
      }
      var z := a / PAGE - u.size;
      ChunkIsLive(V(), a, z);
      FreeChunk(z, a);
      OnList(V(), z);
      var list := zoneArray[zones[z].index];
      if zones[z].nfree == zones[z].nmax && (list[|list| - 1] != z || list[0] != z) {
        Retire(z);
      }
    }

    // ----- Changing the size -----

    /** Memory for n bytes, the content of a carried over, and a freed. */
    method Move(a: nat, n: Bytes, size: nat) returns (r: Option<nat>)
      requires Ok() && a in live && 0 < size <= n
      modifies this, pool, usage, zoneArray, bytes
      ensures Ok()
      ensures r.None? <==> CannotServe(old(V()), limit, n)
      ensures r.None? ==> V() == old(V()) && bytes[..] == old(bytes[..])
      ensures r.Some? ==> r.value !in old(live) && live == (old(live) - {a})[r.value := Granted(n, limit)]
      ensures r.Some? ==> Carried(old(bytes[..]), bytes[..], a, r.value, Least(n, old(live)[a]))
      ensures KeepsBytes(old(bytes[..]), bytes[..], old(live) - {a})
      ensures Granted(n, limit) >= n
    {
      r := Alloc(n);
      if r.None? {
        return;
      }
      CarryOver(a, r.value, n, old(live));
      Free(Some(a));
    }

    /** The first n bytes of a, or as many as it has, go to b, which was not live before. */
    method CarryOver(a: nat, b: nat, n: nat, ghost before: map<nat, nat>)
      requires Ok() && a in live && b in live && a != b && b !in before && n <= live[b]
      requires forall c :: c in before ==> c in live && live[c] == before[c]
      modifies bytes
      ensures Carried(old(bytes[..]), bytes[..], a, b, Least(n, live[a]))
      ensures KeepsBytes(old(bytes[..]), bytes[..], before)
    {
      var osize := SizeOf(a);
      ApartFrom(V(), a, b, before);
      var k := if n > osize then osize else n;
      Copy(bytes, a, b, k);
    }

    /** The size that the page table tells of a live address. */
    method SizeOf(a: nat) returns (n: nat)
      requires Ok() && a in live
      ensures n == live[a]
    {
      TableFinds(V(), a);
      var u := usage[a / PAGE];
      n := if u.kind == Large then u.size * PAGE else zones[a / PAGE - u.size].chunk;
    }

    /** rt_slab_realloc: the same chunk when the rounded size is its size, else a move; without memory nothing
        changes. */
    method Realloc(p: Option<nat>, size: Bytes) returns (r: Option<nat>)
      requires Ok() && (p.Some? ==> p.value in live)
      modifies this, pool, usage, zoneArray, bytes
      ensures Ok()
      ensures p.None? ==> (r.None? <==> size == 0 || CannotServe(old(V()), limit, size))
      ensures p.None? && r.Some? ==> r.value !in old(live) && live == old(live)[r.value := Granted(size, limit)]
      ensures p.Some? && size == 0 ==> r.None? && live == old(live) - {p.value}
      ensures p.Some? && size > 0 && InSomeZone(old(V()), p.value) ==>
                if old(live)[p.value] == Rounded(size) then r == p
                else r != p && (r.None? <==> CannotServe(old(V()), limit, Rounded(size)))
      ensures p.Some? && size > 0 && !InSomeZone(old(V()), p.value) ==>
                r != p && (r.None? <==> CannotServe(old(V()), limit, size))
      ensures r == p ==> V() == old(V()) && max == old(max) && bytes[..] == old(bytes[..])
      ensures r.None? && (p.None? || size > 0) ==> V() == old(V()) && bytes[..] == old(bytes[..])
      ensures p.Some? && r.Some? ==>
                && r.value in live && live[r.value] >= size
                && live - {r.value} == old(live) - {p.value}
                && Carried(old(bytes[..]), bytes[..], p.value, r.value, Least(size, old(live)[p.value]))
      ensures KeepsBytes(old(bytes[..]), bytes[..], if p.Some? then old(live) - {p.value} else old(live))
    {
      if p.None? {
        r := Alloc(size);
        return;
      }
      if size == 0 {
        Free(p);
        return None;
      }
      var a := p.value;
      TableFinds(V(), a);
      var u := usage[a / PAGE];
      if u.kind == Large {
        NoChunk(V(), a);
        r := Move(a, size, size);
        return;
      }
      assert InZone(V(), a, a / PAGE - u.size);
      RoundedFits(size);
      if zones[a / PAGE - u.size].chunk == Rounded(size) {
        LiveInHeap(V(), a);
        return p;
      }
      r := Move(a, Rounded(size), size);
      if r.Some? {
        CarriedLess(old(bytes[..]), bytes[..], a, r.value, Least(Rounded(size), old(live)[a]),
                    Least(size, old(live)[a]));
      }
    }

    // ----- Runs -----

    /** After any run of requests the heap is well formed; a run that has released everything leaves only
        empty zones. */
    method Run(script: seq<Call>) returns (held: set<nat>, ghost states: seq<set<nat>>)
      requires Ok() && live == map[]
      modifies this, pool, usage, zoneArray, bytes
      ensures Ok() && held == live.Keys
      ensures |states| == |script| + 1 && states[0] == {} && states[|script|] == held
      ensures forall i :: 0 <= i < |script| ==> Does(script[i], states[i], states[i + 1])
      ensures held == {} ==> used == 0 && forall z :: z in zones ==> zones[z].nfree == zones[z].nmax
    {
      held, states := {}, [{}];
      for i := 0 to |script|
        invariant Ok() && held == live.Keys
        invariant |states| == i + 1 && states[0] == {} && states[i] == held
        invariant forall j :: 0 <= j < i ==> Does(script[j], states[j], states[j + 1])
      {
        match script[i] {
          case Request(size) =>
            var r := Alloc(size);
            if r.Some? {
              held := held + {r.value};
            }
          case Release(p) =>
            if p in held {
              Free(Some(p));
              held := held - {p};
            }
          case Change(p, size) =>
            if p in held {
              held := Resize(p, size, held);
            }
        }
        states := states + [held];
      }
      if held == {} {
        NothingLive(V());
      }
    }

    method Resize(p: nat, size: Bytes, held: set<nat>) returns (now: set<nat>)
      requires Ok() && held == live.Keys && p in held
      modifies this, pool, usage, zoneArray, bytes
      ensures Ok() && now == live.Keys && Changed(held, now, p)
    {
      var r := Realloc(Some(p), size);
      if r.Some? {
        assert (live - {r.value}).Keys == (old(live) - {p}).Keys;
        now := held - {p} + {r.value};
      } else {
        now := if size == 0 then held - {p} else held;
      }
    }
  }

  /** What clients do: allocate, release an address they hold, resize one. */
  datatype Call = Request(size: Bytes) | Release(p: nat) | Change(p: nat, size: Bytes)

  /** What one request does to the pointers a client holds. */
  ghost predicate Does(r: Call, held: set<nat>, now: set<nat>) {
    match r
    case Request(_) => Got(held, now)
    case Release(p) => now == held - {p}
    case Change(p, _) => Changed(held, now, p)
  }
}
