/**
 * The state of the slab heap as one value (rt-thread/src/slab.c): free page runs, page table, zones, zone lists and the
 * allocations behind them, and what every operation keeps.
 */
module SlabView {
  import opened Lists
  import opened SlabPages
  import opened SlabZones

  const ZONE_RELEASE_THRESH := 2

  datatype Kind = Unused | Small | Large

  /** struct rt_slab_memusage: for a zone the distance to its first page, for a large allocation its page count. */
  datatype Usage = Usage(kind: Kind, size: nat)

  datatype Owner = Nobody | Table | OfZone(z: nat) | OfLarge(l: nat)

  /**
   * runs, usage, zones, zoneArray, zoneFree and used are the fields of the heap. owner, liveOf, large and live say what
   * they mean: who has each page, which chunks of a zone are allocated, where large allocations begin and how many
   * pages they have, and every live address with its size.
   */
  datatype View = View(runs: seq<Run>, usage: seq<Usage>, pages: nat, zones: map<nat, Zone>, zoneArray: seq<seq<nat>>,
                       zoneFree: seq<nat>, used: nat,
                       owner: seq<Owner>, liveOf: map<nat, set<nat>>, large: map<nat, nat>, live: map<nat, nat>)

  // ----- Pages -----

  ghost predicate PageOk(v: View, p: int) {
    0 <= p < |v.owner| ==>
      && (v.owner[p] == Nobody <==> In(v.runs, p))
      && (v.owner[p].OfZone? ==> v.owner[p].z in v.zones && Within(v.owner[p].z, v.pages, p))
      && (v.owner[p].OfLarge? ==> v.owner[p].l in v.large && Within(v.owner[p].l, v.large[v.owner[p].l], p))
  }

  ghost predicate Inside(v: View, p: int) {
    In(v.runs, p) ==> 0 <= p < |v.owner|
  }

  ghost predicate OwnedBy(v: View, p: int, o: Owner) {
    0 <= p < |v.owner| && v.owner[p] == o
  }

  /** Page p belongs to zone z, and the page table leads from p back to z. */
  ghost predicate ZonePage(v: View, z: nat, p: int) {
    OwnedBy(v, p, OfZone(z)) && p >= z && p < |v.usage| && v.usage[p] == Usage(Small, p - z)
  }

  ghost predicate PagesOk(v: View) {
    && |v.usage| == |v.owner|
    && (forall p {:trigger PageOk(v, p)} :: PageOk(v, p))
    && (forall p {:trigger Inside(v, p)} :: Inside(v, p))
  }

  // ----- Zones -----

  ghost predicate ZoneOk(v: View, z: nat) {
    z in v.zones ==>
      && z in v.liveOf
      && v.zones[z].Valid(z, v.pages, v.liveOf[z])
      && (forall p {:trigger ZonePage(v, z, p)} :: Within(z, v.pages, p) ==> ZonePage(v, z, p))
      && (forall a :: a in v.liveOf[z] ==> a in v.live && v.live[a] == v.zones[z].chunk)
  }

  /** A zone not on zone_free is on the list of its index if and only if it has a free chunk; one on zone_free is all
      free. */
  ghost predicate OnItsList(v: View, z: nat) {
    z in v.zones && |v.zoneArray| == NZONES && v.zones[z].index < NZONES ==>
      if z in v.zoneFree then v.zones[z].nfree == v.zones[z].nmax
      else v.zones[z].nfree > 0 ==> z in v.zoneArray[v.zones[z].index]
  }

  ghost predicate ListOk(v: View, i: int) {
    0 <= i < |v.zoneArray| ==>
      && Distinct(v.zoneArray[i])
      && forall z :: z in v.zoneArray[i] ==>
          z in v.zones && v.zones[z].index == i && v.zones[z].nfree > 0 && z !in v.zoneFree
  }

  ghost predicate ZonesOk(v: View) {
    && v.pages > 0 && |v.zoneArray| == NZONES
    && (forall z: nat {:trigger ZoneOk(v, z)} :: ZoneOk(v, z))
    && (forall z: nat {:trigger OnItsList(v, z)} :: OnItsList(v, z))
    && (forall i {:trigger ListOk(v, i)} :: ListOk(v, i))
    && Distinct(v.zoneFree)
    && (forall z :: z in v.zoneFree ==> z in v.zones)
  }

  // ----- Allocations -----

  ghost predicate LargeOk(v: View, l: nat) {
    l in v.large ==>
      && v.large[l] > 0
      && (forall p {:trigger OwnedBy(v, p, OfLarge(l))} :: Within(l, v.large[l], p) ==> OwnedBy(v, p, OfLarge(l)))
      && l < |v.usage| && v.usage[l] == Usage(Large, v.large[l])
      && l * PAGE in v.live && v.live[l * PAGE] == v.large[l] * PAGE
  }

  ghost predicate InZone(v: View, a: nat, z: nat) {
    z in v.zones && z in v.liveOf && a in v.liveOf[z]
  }

  ghost predicate IsLarge(v: View, a: nat, l: nat) {
    l in v.large && a == l * PAGE
  }

  ghost predicate LiveOk(v: View, a: nat) {
    a in v.live ==> (exists z :: InZone(v, a, z)) || exists l :: IsLarge(v, a, l)
  }

  ghost predicate AllocationsOk(v: View) {
    && (forall l: nat {:trigger LargeOk(v, l)} :: LargeOk(v, l))
    && (forall a: nat {:trigger LiveOk(v, a)} :: LiveOk(v, a))
    && v.used == Sum(v.live)
  }

  ghost predicate Valid(v: View) {
    PagesOk(v) && ZonesOk(v) && AllocationsOk(v)
  }

  // ----- Sums over maps -----

  ghost function Sum(m: map<nat, nat>): nat
    decreases |m|
  {
    if m == map[] then 0 else
      var k :| k in m;
      m[k] + Sum(m - {k})
  }

  lemma {:induction false} SumWithout(m: map<nat, nat>, k: nat)
    requires k in m
    ensures Sum(m) == m[k] + Sum(m - {k})
    decreases |m|
  {
    var j :| j in m && Sum(m) == m[j] + Sum(m - {j});
    if j != k {
      SumWithout(m - {j}, k);
      SumWithout(m - {k}, j);
      assert m - {j} - {k} == m - {k} - {j};
    }
  }

  lemma SumWith(m: map<nat, nat>, k: nat, n: nat)
    requires k !in m
    ensures Sum(m[k := n]) == Sum(m) + n
  {
    SumWithout(m[k := n], k);
    assert m[k := n] - {k} == m;
  }

  // ----- What the invariant means -----

  /** The pages a live allocation lies in, all of one owner. */
  lemma Region(v: View, a: nat) returns (s: nat, n: nat, o: Owner)
    requires Valid(v) && a in v.live
    ensures n > 0 && s * PAGE <= a && a + v.live[a] <= (s + n) * PAGE
    ensures forall p :: Within(s, n, p) ==> OwnedBy(v, p, o)
    ensures (o == OfZone(s) && InZone(v, a, s)) || (o == OfLarge(s) && IsLarge(v, a, s))
  {
    assert LiveOk(v, a);
    if z: nat :| InZone(v, a, z) {
      assert ZoneOk(v, z);
      ChunkInside(v.zones[z], z, v.pages, v.liveOf[z], a);
      s, n, o := z, v.pages, OfZone(z);
      forall p | Within(s, n, p) ensures OwnedBy(v, p, o) {
        assert ZonePage(v, z, p);
      }
    } else {
      var l: nat :| IsLarge(v, a, l);
      assert LargeOk(v, l);
      s, n, o := l, v.large[l], OfLarge(l);
    }
  }

  /** Page intervals of different owners do not meet. */
  lemma OwnersApart(v: View, s: nat, n: nat, o: Owner, s1: nat, n1: nat, o1: Owner)
    requires n > 0 && n1 > 0 && o != o1
    requires forall p :: Within(s, n, p) ==> OwnedBy(v, p, o)
    requires forall p :: Within(s1, n1, p) ==> OwnedBy(v, p, o1)
    ensures s + n <= s1 || s1 + n1 <= s
  {
    var p := if s < s1 then s1 else s;
    assert Within(s, n, p) ==> OwnedBy(v, p, o);
    assert Within(s1, n1, p) ==> OwnedBy(v, p, o1);
  }

  /** No two live allocations overlap. */
  lemma LiveApart(v: View, a: nat, b: nat)
    requires Valid(v) && a in v.live && b in v.live && a != b
    ensures a + v.live[a] <= b || b + v.live[b] <= a
  {
    var s, n, o := Region(v, a);
    var s1, n1, o1 := Region(v, b);
    if o == o1 {
      if o.OfZone? {
        assert ZoneOk(v, s);
        ChunksApart(v.zones[s], a, b);
      }
    } else {
      OwnersApart(v, s, n, o, s1, n1, o1);
    }
  }

  /** The page table leads from a live chunk to the header of its zone, and tells a large allocation from it. */
  lemma TableFinds(v: View, a: nat)
    requires Valid(v) && a in v.live
    ensures a / PAGE < |v.usage|
    ensures var u := v.usage[a / PAGE];
            || (u.kind == Large && a % PAGE == 0 && a / PAGE in v.large && u.size == v.large[a / PAGE]
                && v.live[a] == u.size * PAGE)
            || (u.kind == Small && u.size <= a / PAGE && InZone(v, a, a / PAGE - u.size)
                && v.live[a] == v.zones[a / PAGE - u.size].chunk)
  {
    assert LiveOk(v, a);
    if z: nat :| InZone(v, a, z) {
      assert ZoneOk(v, z);
      ChunkInside(v.zones[z], z, v.pages, v.liveOf[z], a);
      assert ZonePage(v, z, a / PAGE);
    } else {
      var l: nat :| IsLarge(v, a, l);
      assert LargeOk(v, l);
      assert l * PAGE / PAGE == l;
    }
  }

  // ----- Steps: chunks -----

  ghost function Chunks(v: View, z: nat): set<nat> {
    if z in v.liveOf then v.liveOf[z] else {}
  }

  /** An address in the pages of zone z that is no live chunk of z is not live at all. */
  lemma OnlyThere(v: View, z: nat, a: nat)
    requires Valid(v) && z in v.zones && Within(z, v.pages, a / PAGE) && a !in Chunks(v, z)
    ensures a !in v.live
  {
    assert ZoneOk(v, z) && ZonePage(v, z, a / PAGE);
    if a in v.live {
      TableFinds(v, a);
    }
  }

  ghost function Took(v: View, z: nat, r: Zone, a: nat): View
    requires |v.zoneArray| == NZONES && r.index < NZONES
  {
    v.(zones := v.zones[z := r], liveOf := v.liveOf[z := Chunks(v, z) + {a}], live := v.live[a := r.chunk],
       used := v.used + r.chunk,
       zoneArray := if r.nfree == 0 then v.zoneArray[r.index := Without(v.zoneArray[r.index], z)] else v.zoneArray)
  }

  /** Zone z hands out chunk a; when it is full it leaves the list of its index. */
  lemma TookValid(v: View, z: nat, r: Zone, a: nat)
    requires Valid(v) && z in v.zones && z !in v.zoneFree && v.zones[z].nfree > 0
    requires r.Valid(z, v.pages, Chunks(v, z) + {a}) && r.IsChunk(a) && a !in Chunks(v, z)
    requires r.nfree == v.zones[z].nfree - 1 && r.chunk == v.zones[z].chunk && r.index == v.zones[z].index
    ensures a !in v.live && Valid(Took(v, z, r, a))
  {
    ChunkInside(r, z, v.pages, Chunks(v, z) + {a}, a);
    OnlyThere(v, z, a);
    SumWith(v.live, a, r.chunk);
    var w := Took(v, z, r, a);
    assert ZoneOk(v, z);
    TookPages(v, w);
    ChangedZones(v, w, z);
    TookLists(v, z, r, a);
    SameLarge(v, w);
    forall b: nat ensures LiveOk(w, b) {
      if b == a {
        assert InZone(w, a, z);
      } else {
        LiveStays(v, w, b);
      }
    }
  }

  lemma TookLists(v: View, z: nat, r: Zone, a: nat)
    requires ZonesOk(v) && z in v.zones && z !in v.zoneFree && v.zones[z].nfree > 0 && r.index < NZONES
    requires r.nfree == v.zones[z].nfree - 1 && r.index == v.zones[z].index
    ensures var w := Took(v, z, r, a);
            && (forall y: nat {:trigger OnItsList(w, y)} :: OnItsList(w, y))
            && (forall i {:trigger ListOk(w, i)} :: ListOk(w, i))
  {
    var w := Took(v, z, r, a);
    assert OnItsList(v, z) && ListOk(v, r.index);
    WithoutDistinct(v.zoneArray[r.index], z);
    forall y: nat ensures OnItsList(w, y) {
      assert OnItsList(v, y);
    }
    forall i ensures ListOk(w, i) {
      assert ListOk(v, i);
    }
  }

  /** All zones but z are as they were; z is as it has to be. */
  lemma ChangedZones(v: View, w: View, z: nat)
    requires forall y: nat {:trigger ZoneOk(v, y)} :: ZoneOk(v, y)
    requires w.pages == v.pages && w.owner == v.owner && w.usage == v.usage
    requires forall y :: y != z ==> (y in w.zones <==> y in v.zones) && (y in v.liveOf ==> y in w.liveOf)
    requires forall y :: y != z && y in v.zones ==> w.zones[y] == v.zones[y]
    requires forall y :: y != z && y in v.liveOf ==> w.liveOf[y] == v.liveOf[y]
    requires forall y, b :: y != z && y in v.zones && y in v.liveOf && b in v.liveOf[y] && b in v.live ==>
               b in w.live && w.live[b] == v.live[b]
    requires z in v.zones && z in w.zones && z in w.liveOf && w.zones[z].Valid(z, w.pages, w.liveOf[z])
    requires forall b :: b in w.liveOf[z] ==> b in w.live && w.live[b] == w.zones[z].chunk
    ensures forall y: nat {:trigger ZoneOk(w, y)} :: ZoneOk(w, y)
  {
    forall y: nat ensures ZoneOk(w, y) {
      assert ZoneOk(v, y);
      if y in w.zones {
        forall p | Within(y, w.pages, p) ensures ZonePage(w, y, p) {
          assert ZonePage(v, y, p);
        }
      }
    }
  }

  ghost function Put(v: View, z: nat, a: nat): View
    requires z in v.zones && |v.zoneArray| == NZONES && v.zones[z].index < NZONES && v.used >= v.zones[z].chunk
  {
    var r := v.zones[z];
    v.(zones := v.zones[z := GiveBack(r, a)], liveOf := v.liveOf[z := Chunks(v, z) - {a}], live := v.live - {a},
       used := v.used - r.chunk,
       zoneArray := if r.nfree == 0 then v.zoneArray[r.index := [z] + v.zoneArray[r.index]] else v.zoneArray)
  }

  /** Zone z takes chunk a back; a zone that was full returns to the list of its index. */
  lemma PutValid(v: View, z: nat, a: nat)
    requires Valid(v) && InZone(v, a, z)
    ensures v.zones[z].index < NZONES && v.used >= v.zones[z].chunk && Valid(Put(v, z, a)) && z !in v.zoneFree
  {
    assert ZoneOk(v, z) && OnItsList(v, z);
    var r := v.zones[z];
    GiveBackValid(r, z, v.pages, v.liveOf[z], a);
    SumWithout(v.live, a);
    var w := Put(v, z, a);
    TookPages(v, w);
    forall y, b | y != z && y in v.zones && y in v.liveOf && b in v.liveOf[y] ensures b != a {
      if b == a {
        ZonesDisjoint(v, z, y, a);
      }
    }
    ChangedZones(v, w, z);
    PutLists(v, z, a);
    forall l: nat | l in v.large ensures l * PAGE != a {
      if l * PAGE == a {
        ChunkNotLarge(v, z, a, l);
      }
    }
    SameLarge(v, w);
    forall b: nat ensures LiveOk(w, b) {
      LiveStays(v, w, b);
    }
  }

  lemma PutLists(v: View, z: nat, a: nat)
    requires ZonesOk(v) && z in v.zones && z !in v.zoneFree && v.zones[z].index < NZONES && v.used >= v.zones[z].chunk
    ensures var w := Put(v, z, a);
            && (forall y: nat {:trigger OnItsList(w, y)} :: OnItsList(w, y))
            && (forall i {:trigger ListOk(w, i)} :: ListOk(w, i))
  {
    var w := Put(v, z, a);
    assert OnItsList(v, z) && ListOk(v, v.zones[z].index);
    forall y: nat ensures OnItsList(w, y) {
      assert OnItsList(v, y);
    }
    forall i ensures ListOk(w, i) {
      assert ListOk(v, i);
    }
  }

  /** No address is a chunk of two zones. */
  lemma ZonesDisjoint(v: View, z: nat, y: nat, a: nat)
    requires Valid(v) && InZone(v, a, z) && InZone(v, a, y)
    ensures y == z
  {
    assert ZoneOk(v, z) && ZoneOk(v, y);
    ChunkInside(v.zones[z], z, v.pages, v.liveOf[z], a);
    ChunkInside(v.zones[y], y, v.pages, v.liveOf[y], a);
    assert ZonePage(v, z, a / PAGE) && ZonePage(v, y, a / PAGE);
  }

  /** No chunk is a large allocation. */
  lemma ChunkNotLarge(v: View, z: nat, a: nat, l: nat)
    requires Valid(v) && InZone(v, a, z) && l in v.large
    ensures a != l * PAGE
  {
    assert ZoneOk(v, z) && LargeOk(v, l);
    ChunkInside(v.zones[z], z, v.pages, v.liveOf[z], a);
    assert ZonePage(v, z, a / PAGE);
    assert l * PAGE / PAGE == l;
  }

  /** Pages do not depend on what is in the zones. */
  lemma TookPages(v: View, w: View)
    requires PagesOk(v) && w.runs == v.runs && w.owner == v.owner && w.usage == v.usage && w.large == v.large
    requires w.pages == v.pages && v.zones.Keys <= w.zones.Keys
    ensures PagesOk(w)
  {
    forall p ensures PageOk(w, p) && Inside(w, p) {
      assert PageOk(v, p) && Inside(v, p);
    }
  }

  lemma SameLarge(v: View, w: View)
    requires forall l: nat {:trigger LargeOk(v, l)} :: LargeOk(v, l)
    requires w.large == v.large && w.owner == v.owner && w.usage == v.usage
    requires forall l: nat {:trigger LargeOk(v, l)} :: l in v.large && l * PAGE in v.live ==>
               l * PAGE in w.live && w.live[l * PAGE] == v.live[l * PAGE]
    ensures forall l: nat {:trigger LargeOk(w, l)} :: LargeOk(w, l)
  {
    forall l: nat ensures LargeOk(w, l) {
      assert LargeOk(v, l);
      if l in v.large {
        forall p | Within(l, v.large[l], p) ensures OwnedBy(w, p, OfLarge(l)) {
          assert OwnedBy(v, p, OfLarge(l));
        }
      }
    }
  }

  /** An allocation that stays live stays where it is. */
  lemma LiveStays(v: View, w: View, b: nat)
    requires LiveOk(v, b) && (b in w.live ==> b in v.live)
    requires forall z: nat :: InZone(v, b, z) && b in w.live ==> InZone(w, b, z)
    requires forall l: nat :: IsLarge(v, b, l) && b in w.live ==> IsLarge(w, b, l)
    ensures LiveOk(w, b)
  {
    if b in w.live {
      if z: nat :| InZone(v, b, z) {
        assert InZone(w, b, z);
      } else {
        var l: nat :| IsLarge(v, b, l);
        assert IsLarge(w, b, l);
      }
    }
  }

  // ----- Steps: zone lists -----

  ghost function Retired(v: View, z: nat): View
    requires z in v.zones && |v.zoneArray| == NZONES && v.zones[z].index < NZONES
  {
    var i := v.zones[z].index;
    v.(zoneArray := v.zoneArray[i := Without(v.zoneArray[i], z)], zoneFree := [z] + v.zoneFree)
  }

  /** A zone without live chunks moves from its list to zone_free. */
  lemma RetiredValid(v: View, z: nat)
    requires Valid(v) && z in v.zones && z !in v.zoneFree && v.zones[z].nfree == v.zones[z].nmax
    ensures v.zones[z].index < NZONES && Valid(Retired(v, z))
  {
    assert ZoneOk(v, z) && OnItsList(v, z);
    var i := v.zones[z].index;
    var w := Retired(v, z);
    assert ListOk(v, i);
    WithoutDistinct(v.zoneArray[i], z);
    TookPages(v, w);
    ChangedZones(v, w, z);
    SameLarge(v, w);
    forall y: nat ensures OnItsList(w, y) {
      assert OnItsList(v, y);
    }
    forall j ensures ListOk(w, j) {
      assert ListOk(v, j);
    }
    forall b: nat ensures LiveOk(w, b) {
      LiveStays(v, w, b);
    }
  }

  ghost function Reused(v: View, r: Zone): View
    requires v.zoneFree != [] && |v.zoneArray| == NZONES && r.index < NZONES
  {
    var z := v.zoneFree[0];
    v.(zoneFree := v.zoneFree[1..], zones := v.zones[z := r], liveOf := v.liveOf[z := {r.base}],
       zoneArray := v.zoneArray[r.index := [z] + v.zoneArray[r.index]],
       live := v.live[r.base := r.chunk], used := v.used + r.chunk)
  }

  /** The first zone of zone_free starts over, for any chunk size, with its first chunk handed out. */
  lemma ReusedValid(v: View, r: Zone)
    requires Valid(v) && v.zoneFree != [] && r.Valid(v.zoneFree[0], v.pages, {r.base}) && r.nfree > 0
    ensures r.base !in v.live && Valid(Reused(v, r))
  {
    var z := v.zoneFree[0];
    assert z in v.zoneFree && ZoneOk(v, z) && OnItsList(v, z);
    assert Chunks(v, z) == {};
    assert r.base == r.Addr(0) && r.IsChunk(r.base);
    ChunkInside(r, z, v.pages, {r.base}, r.base);
    OnlyThere(v, z, r.base);
    SumWith(v.live, r.base, r.chunk);
    DistinctTail(v.zoneFree);
    TailIn(v.zoneFree);
    var w := Reused(v, r);
    TookPages(v, w);
    ChangedZones(v, w, z);
    SameLarge(v, w);
    ReusedLists(v, r);
    forall b: nat ensures LiveOk(w, b) {
      if b == r.base {
        assert InZone(w, b, z);
      } else {
        LiveStays(v, w, b);
      }
    }
  }

  lemma ReusedLists(v: View, r: Zone)
    requires ZonesOk(v) && v.zoneFree != [] && r.index < NZONES && r.nfree > 0
    ensures var w := Reused(v, r);
            && (forall y: nat {:trigger OnItsList(w, y)} :: OnItsList(w, y))
            && (forall i {:trigger ListOk(w, i)} :: ListOk(w, i))
  {
    var w := Reused(v, r);
    DistinctTail(v.zoneFree);
    TailIn(v.zoneFree);
    assert v.zoneFree[0] in v.zoneFree;
    forall y: nat ensures OnItsList(w, y) {
      assert OnItsList(v, y);
    }
    forall i ensures ListOk(w, i) {
      assert ListOk(v, i);
    }
  }

  // ----- Steps: pages -----

  ghost function Given(owner: seq<Owner>, s: nat, n: nat, o: Owner): (r: seq<Owner>)
    ensures |r| == |owner| && forall p :: 0 <= p < |owner| ==> r[p] == if Within(s, n, p) then o else owner[p]
  {
    seq(|owner|, p requires 0 <= p < |owner| => if Within(s, n, p) then o else owner[p])
  }

  /** The page table once the pages of zone z say how far they are from it. */
  function ZoneUsage(usage: seq<Usage>, z: nat, n: nat): (r: seq<Usage>)
    ensures |r| == |usage|
    ensures forall p :: 0 <= p < |usage| ==> r[p] == if z <= p < z + n then Usage(Small, p - z) else usage[p]
  {
    seq(|usage|, p requires 0 <= p < |usage| => if z <= p < z + n then Usage(Small, p - z) else usage[p])
  }

  function FreeUsage(usage: seq<Usage>, z: nat, n: nat): (r: seq<Usage>)
    ensures |r| == |usage|
    ensures forall p :: 0 <= p < |usage| ==> r[p] == if z <= p < z + n then Usage(Unused, 0) else usage[p]
  {
    seq(|usage|, p requires 0 <= p < |usage| => if z <= p < z + n then Usage(Unused, 0) else usage[p])
  }

  /** Pages that are free belong to nobody. */
  lemma FreePages(v: View, s: nat, n: nat, p: int)
    requires PagesOk(v) && AllIn(v.runs, s, n) && Within(s, n, p)
    ensures OwnedBy(v, p, Nobody)
  {
    assert In(v.runs, p) && Inside(v, p) && PageOk(v, p);
  }

  lemma ZoneHas(v: View, z: nat, p: int)
    requires ZonesOk(v) && z in v.zones
    ensures Within(z, v.pages, p) ==> ZonePage(v, z, p)
  {
    assert ZoneOk(v, z);
    if Within(z, v.pages, p) {
      assert ZonePage(v, z, p);
    }
  }

  lemma LargeHas(v: View, l: nat, p: int)
    requires AllocationsOk(v) && l in v.large
    ensures Within(l, v.large[l], p) ==> OwnedBy(v, p, OfLarge(l))
  {
    assert LargeOk(v, l);
    if Within(l, v.large[l], p) {
      assert OwnedBy(v, p, OfLarge(l));
    }
  }

  ghost function Made(v: View, z: nat, runs: seq<Run>, r: Zone): View {
    v.(runs := runs, owner := Given(v.owner, z, v.pages, OfZone(z)), usage := ZoneUsage(v.usage, z, v.pages),
       zones := v.zones[z := r], liveOf := v.liveOf[z := {}], zoneFree := [z] + v.zoneFree)
  }

  /** Pages just allocated become a zone without live chunks. */
  lemma MadeValid(v: View, z: nat, runs: seq<Run>, r: Zone)
    requires Valid(v) && AllIn(v.runs, z, v.pages) && r.Valid(z, v.pages, {}) && r.nfree == r.nmax
    requires forall p :: In(runs, p) <==> In(v.runs, p) && !Within(z, v.pages, p)
    ensures z !in v.zones && Valid(Made(v, z, runs, r))
  {
    var w := Made(v, z, runs, r);
    assert Within(z, v.pages, z);
    FreePages(v, z, v.pages, z);
    assert ZoneOk(v, z) && (z in v.zones ==> ZonePage(v, z, z));
    forall p ensures PageOk(w, p) && Inside(w, p) {
      assert PageOk(v, p) && Inside(v, p);
      if Within(z, v.pages, p) {
        FreePages(v, z, v.pages, p);
      }
    }
    forall y: nat ensures ZoneOk(w, y) {
      assert ZoneOk(v, y);
      if y in w.zones {
        forall p | Within(y, w.pages, p) ensures ZonePage(w, y, p) {
          if y != z {
            MadePage(v, z, y, p);
          } else {
            FreePages(v, z, v.pages, p);
          }
        }
      }
    }
    forall y: nat ensures OnItsList(w, y) {
      assert OnItsList(v, y);
    }
    forall i ensures ListOk(w, i) {
      assert ListOk(v, i);
    }
    MadeLarge(v, w, z);
    forall b: nat ensures LiveOk(w, b) {
      LiveStays(v, w, b);
    }
  }

  lemma MadePage(v: View, z: nat, y: nat, p: int)
    requires Valid(v) && AllIn(v.runs, z, v.pages) && y in v.zones && Within(y, v.pages, p)
    ensures !Within(z, v.pages, p) && ZonePage(v, y, p)
  {
    assert ZoneOk(v, y) && ZonePage(v, y, p);
    if Within(z, v.pages, p) {
      FreePages(v, z, v.pages, p);
    }
  }

  /** Large allocations keep their pages when only free pages change hands. */
  lemma MadeLarge(v: View, w: View, z: nat)
    requires Valid(v) && AllIn(v.runs, z, v.pages) && w.large == v.large && w.live == v.live
    requires w.owner == Given(v.owner, z, v.pages, OfZone(z)) && w.usage == ZoneUsage(v.usage, z, v.pages)
    ensures forall l: nat {:trigger LargeOk(w, l)} :: LargeOk(w, l)
  {
    forall l: nat ensures LargeOk(w, l) {
      assert LargeOk(v, l);
      if l in v.large {
        forall p | Within(l, v.large[l], p) ensures OwnedBy(w, p, OfLarge(l)) && !Within(z, v.pages, p) {
          assert OwnedBy(v, p, OfLarge(l));
          if Within(z, v.pages, p) {
            FreePages(v, z, v.pages, p);
          }
        }
        assert Within(l, v.large[l], l);
      }
    }
  }

  ghost function Released(v: View, runs: seq<Run>): View
    requires v.zoneFree != []
  {
    var z := v.zoneFree[0];
    v.(runs := runs, owner := Given(v.owner, z, v.pages, Nobody), usage := FreeUsage(v.usage, z, v.pages),
       zones := v.zones - {z}, liveOf := v.liveOf - {z}, zoneFree := v.zoneFree[1..])
  }

  /** The first zone of zone_free gives its pages back. */
  lemma ReleasedValid(v: View, runs: seq<Run>)
    requires Valid(v) && v.zoneFree != []
    requires forall p :: In(runs, p) <==> In(v.runs, p) || Within(v.zoneFree[0], v.pages, p)
    ensures Valid(Released(v, runs))
  {
    var z := v.zoneFree[0];
    var w := Released(v, runs);
    assert z in v.zoneFree && ZoneOk(v, z) && OnItsList(v, z);
    assert Chunks(v, z) == {};
    DistinctTail(v.zoneFree);
    TailIn(v.zoneFree);
    forall p ensures PageOk(w, p) && Inside(w, p) {
      assert PageOk(v, p) && Inside(v, p);
      if Within(z, v.pages, p) {
        assert ZonePage(v, z, p);
      }
    }
    forall y: nat ensures ZoneOk(w, y) {
      assert ZoneOk(v, y);
      if y in w.zones {
        forall p | Within(y, w.pages, p) ensures ZonePage(w, y, p) {
          OtherZone(v, z, y, p);
        }
      }
    }
    forall y: nat ensures OnItsList(w, y) {
      assert OnItsList(v, y);
    }
    forall i ensures ListOk(w, i) {
      assert ListOk(v, i);
    }
    forall l: nat ensures LargeOk(w, l) {
      assert LargeOk(v, l);
      if l in v.large {
        forall p | Within(l, v.large[l], p) ensures OwnedBy(w, p, OfLarge(l)) && !Within(z, v.pages, p) {
          assert OwnedBy(v, p, OfLarge(l));
          ZoneHas(v, z, p);
        }
        assert Within(l, v.large[l], l);
      }
    }
    forall b: nat ensures LiveOk(w, b) {
      LiveStays(v, w, b);
    }
  }

  lemma OtherZone(v: View, z: nat, y: nat, p: int)
    requires Valid(v) && z in v.zones && y in v.zones && y != z && Within(y, v.pages, p)
    ensures !Within(z, v.pages, p) && ZonePage(v, y, p)
  {
    ZoneHas(v, z, p);
    ZoneHas(v, y, p);
  }

  ghost function TookLarge(v: View, l: nat, n: nat, runs: seq<Run>): View
    requires l < |v.usage|
  {
    v.(runs := runs, owner := Given(v.owner, l, n, OfLarge(l)), usage := v.usage[l := Usage(Large, n)],
       large := v.large[l := n], live := v.live[l * PAGE := n * PAGE], used := v.used + n * PAGE)
  }

  /** Pages just allocated become a large allocation. */
  lemma TookLargeValid(v: View, l: nat, n: nat, runs: seq<Run>)
    requires Valid(v) && n > 0 && AllIn(v.runs, l, n)
    requires forall p :: In(runs, p) <==> In(v.runs, p) && !Within(l, n, p)
    ensures l < |v.usage| && l * PAGE !in v.live && Valid(TookLarge(v, l, n, runs))
  {
    assert Within(l, n, l);
    FreePages(v, l, n, l);
    assert l * PAGE / PAGE == l;
    NobodyLive(v, l);
    SumWith(v.live, l * PAGE, n * PAGE);
    var w := TookLarge(v, l, n, runs);
    forall p ensures PageOk(w, p) && Inside(w, p) {
      assert PageOk(v, p) && Inside(v, p);
      if Within(l, n, p) {
        FreePages(v, l, n, p);
      }
    }
    forall y: nat ensures ZoneOk(w, y) {
      assert ZoneOk(v, y);
      if y in v.zones {
        forall p | Within(y, w.pages, p) ensures ZonePage(w, y, p) {
          ZoneKeepsPage(v, l, n, y, p);
        }
      }
    }
    forall y: nat ensures OnItsList(w, y) {
      assert OnItsList(v, y);
    }
    forall i ensures ListOk(w, i) {
      assert ListOk(v, i);
    }
    forall k: nat ensures LargeOk(w, k) {
      assert LargeOk(v, k);
      if k == l {
        forall p | Within(l, n, p) ensures OwnedBy(w, p, OfLarge(l)) {
          FreePages(v, l, n, p);
        }
      } else if k in v.large {
        LargeKeepsPages(v, l, n, k);
        forall p | Within(k, v.large[k], p) ensures OwnedBy(w, p, OfLarge(k)) {
          assert OwnedBy(v, p, OfLarge(k));
        }
      }
    }
    forall b: nat ensures LiveOk(w, b) {
      if b == l * PAGE {
        assert IsLarge(w, b, l);
      } else {
        LiveStays(v, w, b);
      }
    }
  }

  /** Nothing live begins in a free page, and no large allocation has its number. */
  lemma NobodyLive(v: View, l: nat)
    requires Valid(v) && OwnedBy(v, l, Nobody)
    ensures l * PAGE !in v.live && l !in v.large
  {
    assert l * PAGE / PAGE == l && PageOk(v, l) && LargeOk(v, l);
    if l in v.large {
      assert Within(l, v.large[l], l);
      assert OwnedBy(v, l, OfLarge(l));
    }
    if l * PAGE in v.live {
      TableFinds(v, l * PAGE);
      LiveOwner(v, l);
    }
  }

  lemma LivePositive(v: View, a: nat)
    requires Valid(v) && a in v.live
    ensures 0 < v.live[a]
  {
    assert LiveOk(v, a);
    if z: nat :| InZone(v, a, z) {
      assert ZoneOk(v, z);
    } else {
      var k: nat :| IsLarge(v, a, k);
      assert LargeOk(v, k);
    }
  }

  /** The page of a live address has an owner. */
  lemma LiveOwner(v: View, l: nat)
    requires Valid(v) && l * PAGE in v.live
    ensures !OwnedBy(v, l, Nobody)
  {
    var s, n, o := Region(v, l * PAGE);
    LivePositive(v, l * PAGE);
    assert Within(s, n, l);
  }

  lemma ZoneKeepsPage(v: View, l: nat, n: nat, y: nat, p: int)
    requires Valid(v) && AllIn(v.runs, l, n) && y in v.zones && Within(y, v.pages, p)
    ensures !Within(l, n, p) && ZonePage(v, y, p)
  {
    assert ZoneOk(v, y) && ZonePage(v, y, p);
    if Within(l, n, p) {
      FreePages(v, l, n, p);
    }
  }

  lemma LargeKeepsPages(v: View, l: nat, n: nat, k: nat)
    requires Valid(v) && AllIn(v.runs, l, n) && k in v.large
    ensures forall p :: Within(k, v.large[k], p) ==> !Within(l, n, p)
    ensures k != l || n == 0
  {
    assert LargeOk(v, k);
    forall p | Within(k, v.large[k], p) ensures !Within(l, n, p) {
      assert OwnedBy(v, p, OfLarge(k));
      if Within(l, n, p) {
        FreePages(v, l, n, p);
      }
    }
    assert Within(k, v.large[k], k);
  }

  ghost function PutLarge(v: View, l: nat, runs: seq<Run>): View
    requires l in v.large && l < |v.usage| && v.used >= v.large[l] * PAGE
  {
    v.(runs := runs, owner := Given(v.owner, l, v.large[l], Nobody), usage := v.usage[l := v.usage[l].(size := 0)],
       large := v.large - {l}, live := v.live - {l * PAGE}, used := v.used - v.large[l] * PAGE)
  }

  /** A large allocation gives its pages back. */
  lemma PutLargeValid(v: View, l: nat, runs: seq<Run>)
    requires Valid(v) && l in v.large
    requires forall p :: In(runs, p) <==> In(v.runs, p) || Within(l, v.large[l], p)
    ensures l < |v.usage| && v.used >= v.large[l] * PAGE && Valid(PutLarge(v, l, runs))
  {
    assert LargeOk(v, l);
    var n := v.large[l];
    SumWithout(v.live, l * PAGE);
    assert Within(l, n, l);
    var w := PutLarge(v, l, runs);
    forall p ensures PageOk(w, p) && Inside(w, p) {
      assert PageOk(v, p) && Inside(v, p);
      if Within(l, n, p) {
        assert OwnedBy(v, p, OfLarge(l));
      }
    }
    forall y: nat ensures ZoneOk(w, y) {
      assert ZoneOk(v, y);
      if y in v.zones {
        forall p | Within(y, w.pages, p) ensures ZonePage(w, y, p) {
          assert ZonePage(v, y, p);
          LargeHas(v, l, p);
        }
        forall a | a in v.liveOf[y] ensures a != l * PAGE {
          assert InZone(v, a, y);
          ChunkNotLarge(v, y, a, l);
        }
      }
    }
    forall y: nat ensures OnItsList(w, y) {
      assert OnItsList(v, y);
    }
    forall i ensures ListOk(w, i) {
      assert ListOk(v, i);
    }
    forall k: nat ensures LargeOk(w, k) {
      assert LargeOk(v, k);
      if k in w.large {
        forall p | Within(k, v.large[k], p) ensures OwnedBy(w, p, OfLarge(k)) {
          assert OwnedBy(v, p, OfLarge(k));
          LargeHas(v, l, p);
        }
      }
    }
    forall b: nat ensures LiveOk(w, b) {
      LiveStays(v, w, b);
    }
  }

  // ----- What the operations need to know -----

  /** The pages of a large allocation are in use, and the page table counts them. */
  lemma LargePages(v: View, l: nat)
    requires Valid(v) && l in v.large
    ensures l < |v.usage| && v.usage[l].size == v.large[l] > 0 && v.used >= v.large[l] * PAGE
    ensures forall p :: Within(l, v.large[l], p) ==> !In(v.runs, p)
    ensures l * PAGE in v.live && v.live[l * PAGE] == v.large[l] * PAGE
  {
    assert LargeOk(v, l);
    SumWithout(v.live, l * PAGE);
    forall p | Within(l, v.large[l], p) ensures !In(v.runs, p) {
      assert OwnedBy(v, p, OfLarge(l)) && PageOk(v, p);
    }
  }

  /** The pages of a zone are in use. */
  lemma ZonePages(v: View, z: nat)
    requires Valid(v) && z in v.zones
    ensures z + v.pages <= |v.usage|
    ensures forall p :: Within(z, v.pages, p) ==> !In(v.runs, p)
  {
    forall p | Within(z, v.pages, p) ensures !In(v.runs, p) && p < |v.usage| {
      ZoneHas(v, z, p);
      assert PageOk(v, p);
    }
    assert Within(z, v.pages, z + v.pages - 1);
  }

  /** The zone at the head of a list has the chunk size of the list and a free chunk. */
  lemma HeadZone(v: View, zi: nat)
    requires Valid(v) && zi < NZONES && v.zoneArray[zi] != []
    ensures var z := v.zoneArray[zi][0];
            && z in v.zones && z in v.liveOf && z !in v.zoneFree && v.zones[z].nfree > 0 && v.zones[z].index == zi
            && v.zones[z].Valid(z, v.pages, v.liveOf[z]) && v.zones[z].chunk == ChunkSize(zi)
            && Without(v.zoneArray[zi], z) == v.zoneArray[zi][1..]
  {
    assert ListOk(v, zi) && v.zoneArray[zi][0] in v.zoneArray[zi];
    assert ZoneOk(v, v.zoneArray[zi][0]);
  }
}
