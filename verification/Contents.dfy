/** What memory holds behind the addresses that an allocator hands out, and what rt_memcpy does to it. */
module Contents {
  function Least(a: int, b: int): (m: int)
    ensures m <= a && m <= b && (m == a || m == b)
  {
    if a < b then a else b
  }

  /** The n cells from b on are those that were at a. */
  ghost predicate Carried(was: seq<int>, now: seq<int>, a: nat, b: nat, n: int) {
    && 0 <= n && a + n <= |was| && b + n <= |now|
    && forall j {:trigger now[j]} :: b <= j < b + n ==> now[j] == was[j - b + a]
  }

  /** n cells from one place have been written to another. */
  ghost predicate Overlaid(was: seq<int>, now: seq<int>, from: nat, to: nat, n: nat) {
    && |was| == |now| && from + n <= |was| && to + n <= |was|
    && (forall i {:trigger now[i]} :: to <= i < to + n ==> now[i] == was[i - to + from])
    && (forall i {:trigger now[i]} :: 0 <= i < to || to + n <= i < |now| ==> now[i] == was[i])
  }

  lemma OverlaidElsewhere(was: seq<int>, now: seq<int>, from: nat, to: nat, n: nat, a: nat, m: nat)
    requires Overlaid(was, now, from, to, n) && a + m <= |was| && (a + m <= to || to + n <= a)
    ensures Carried(was, now, a, a, m)
  {}

  lemma CarriedLess(was: seq<int>, now: seq<int>, a: nat, b: nat, n: nat, m: nat)
    requires Carried(was, now, a, b, n) && m <= n
    ensures Carried(was, now, a, b, m)
  {}

  lemma CarriedOn(s: seq<int>, t: seq<int>, u: seq<int>, a: nat, b: nat, c: nat, n: nat)
    requires Carried(s, t, a, b, n) && Carried(t, u, b, c, n)
    ensures Carried(s, u, a, c, n)
  {
    forall j | c <= j < c + n ensures u[j] == s[j - c + a] {
      assert t[j - c + b] == s[j - c + a];
    }
  }

  /** rt_memcpy between places that do not overlap. */
  method Copy(cells: array<int>, from: nat, to: nat, n: nat)
    requires from + n <= cells.Length && to + n <= cells.Length && (from + n <= to || to + n <= from)
    modifies cells
    ensures Overlaid(old(cells[..]), cells[..], from, to, n)
  {
    for k := 0 to n
      invariant forall i :: 0 <= i < cells.Length ==>
                  cells[i] == if to <= i < to + k then old(cells[i - to + from]) else old(cells[i])
    {
      cells[to + k] := cells[from + k];
    }
  }

  // ----- The pointers a client holds -----

  /** A request for memory gives one pointer, or none. */
  ghost predicate Got(held: set<nat>, now: set<nat>) {
    now == held || exists p :: now == held + {p}
  }

  /** A resize of p keeps it, gives another pointer for it, or none. */
  ghost predicate Changed(held: set<nat>, now: set<nat>, p: nat) {
    now == held || (p in held && (now == held - {p} || exists q :: now == held - {p} + {q}))
  }
}
