/** Sequences as the kernel's intrusive lists (rt-thread/include/rtservice.h) see them. */
module Lists {
  datatype Option<+T> = None | Some(value: T)

  ghost predicate Distinct<X>(s: seq<X>) {
    forall i, j :: 0 <= i < j < |s| ==> s[i] != s[j]
  }

  /** `rt_list_remove`: the list without one node. */
  function Without<X(==)>(s: seq<X>, x: X): (r: seq<X>)
    ensures x !in s ==> r == s
    ensures x in s ==> |r| == |s| - 1
    ensures forall y :: y in r ==> y in s
    ensures forall y :: y in s && y != x ==> y in r
  {
    if s == [] then [] else if s[0] == x then s[1..] else [s[0]] + Without(s[1..], x)
  }

  /** The first node with the value goes. */
  lemma {:induction false} WithoutAt<X>(s: seq<X>, i: nat, x: X)
    requires i < |s| && s[i] == x && forall j :: 0 <= j < i ==> s[j] != x
    ensures Without(s, x) == s[..i] + s[i + 1..]
  {
    if i > 0 {
      WithoutAt(s[1..], i - 1, x);
      assert s[..i] == [s[0]] + s[1..][..i - 1];
      assert s[1..][i..] == s[i + 1..];
    }
  }

  lemma {:induction false} WithoutDistinct<X>(s: seq<X>, x: X)
    requires Distinct(s)
    ensures Distinct(Without(s, x)) && x !in Without(s, x)
  {
    if s != [] {
      assert forall j :: 0 < j < |s| ==> s[j] == s[1..][j - 1];
      assert s[0] !in s[1..];
      if s[0] != x {
        WithoutDistinct(s[1..], x);
      }
    }
  }

  lemma DistinctInsert<X>(s: seq<X>, k: nat, x: X)
    requires k <= |s| && Distinct(s) && x !in s
    ensures Distinct(s[..k] + [x] + s[k..])
  {
    var r := s[..k] + [x] + s[k..];
    forall i, j | 0 <= i < j < |r| ensures r[i] != r[j] {
      assert r[i] == if i < k then s[i] else if i == k then x else s[i - 1];
      assert r[j] == if j < k then s[j] else if j == k then x else s[j - 1];
    }
  }

  lemma DistinctTail<X>(s: seq<X>)
    requires Distinct(s) && s != []
    ensures s[0] !in s[1..] && Distinct(s[1..])
    ensures forall x :: x in s ==> x == s[0] || x in s[1..]
  {
    assert s == [s[0]] + s[1..];
  }

  lemma TailIn<X>(s: seq<X>)
    requires s != []
    ensures forall x :: x in s[1..] ==> x in s
  {
    assert s == [s[0]] + s[1..];
  }

  lemma TwoMembers<X>(s: seq<X>) returns (a: X, b: X)
    requires Distinct(s) && |s| > 1
    ensures a in s && b in s && a != b
  {
    a, b := s[0], s[1];
  }

  /** a is somewhere in front of b. */
  ghost predicate Before<X>(s: seq<X>, a: X, b: X) {
    exists i, j :: 0 <= i < j < |s| && s[i] == a && s[j] == b
  }

  lemma {:induction false} WithoutBefore<X>(s: seq<X>, x: X, a: X, b: X)
    requires Before(s, a, b) && a != x && b != x
    ensures Before(Without(s, x), a, b)
  {
    var i, j :| 0 <= i < j < |s| && s[i] == a && s[j] == b;
    var r := Without(s, x);
    if s[0] == x {
      assert r[i - 1] == a && r[j - 1] == b;
    } else if i == 0 {
      assert b in s[1..];
      var k :| 0 <= k < |Without(s[1..], x)| && Without(s[1..], x)[k] == b;
      assert r[0] == a && r[k + 1] == b;
    } else {
      assert s[1..][i - 1] == a && s[1..][j - 1] == b;
      WithoutBefore(s[1..], x, a, b);
      var p, q :| 0 <= p < q < |Without(s[1..], x)| && Without(s[1..], x)[p] == a && Without(s[1..], x)[q] == b;
      assert r[p + 1] == a && r[q + 1] == b;
    }
  }

  lemma InsertBefore<X>(s: seq<X>, k: nat, x: X, a: X, b: X)
    requires k <= |s| && Before(s, a, b)
    ensures Before(s[..k] + [x] + s[k..], a, b)
  {
    var i, j :| 0 <= i < j < |s| && s[i] == a && s[j] == b;
    var r := s[..k] + [x] + s[k..];
    assert r[if i < k then i else i + 1] == a;
    assert r[if j < k then j else j + 1] == b;
  }

  lemma InsertedBehind<X>(s: seq<X>, k: nat, x: X, b: X) returns (j: nat)
    requires k <= |s| && x !in s && Before(s[..k] + [x] + s[k..], x, b)
    ensures k <= j < |s| && s[j] == b
  {
    var r := s[..k] + [x] + s[k..];
    var p, q :| 0 <= p < q < |r| && r[p] == x && r[q] == b;
    assert forall i :: 0 <= i < k ==> r[i] == s[i];
    assert forall i :: k < i < |r| ==> r[i] == s[i - 1];
    j := q - 1;
  }

  lemma Overwrite<K, V>(m: map<K, V>, k: K, a: V, b: V)
    ensures m[k := a][k := b] == m[k := b]
  {}
}
