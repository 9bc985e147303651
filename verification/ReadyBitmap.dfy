/**
 * The scheduler's bitmap of priorities with a ready thread (rt-thread/src/scheduler_up.c): one word of 32 bits, or a
 * word whose bits stand for the bytes of a second table when there are more than 32 priorities.
 */
module ReadyBitmap {
  import opened Bits

  datatype Bitmap = Bitmap(wide: bool, group: nat, table: seq<nat>) {
    function Capacity(): nat {
      if wide then 256 else 32
    }

    ghost predicate Byte(n: int) {
      && 0 <= n < |table|
      && table[n] < 0x100
      && (Bit(group, n) <==> table[n] != 0)
    }

    ghost predicate Valid() {
      && group < 0x1_0000_0000
      && |table| == 32
      && (wide ==> forall n {:trigger Byte(n)} :: 0 <= n < 32 ==> Byte(n))
    }

    predicate Has(p: nat)
      requires p < Capacity() && |table| == 32
    {
      if wide then Bit(table[p / 8], p % 8) else Bit(group, p)
    }

    /** thread->number, number_mask and high_mask of rt_schedule_insert_thread. */
    function Mark(p: nat): Bitmap
      requires p < Capacity() && |table| == 32
    {
      if wide then Bitmap(wide, SetBit(group, p / 8), table[p / 8 := SetBit(table[p / 8], p % 8)])
      else Bitmap(wide, SetBit(group, p), table)
    }

    /** The same of rt_schedule_remove_thread, for a list that has become empty. */
    function Unmark(p: nat): Bitmap
      requires p < Capacity() && |table| == 32
    {
      if wide then
        var byte := ClearBit(table[p / 8], p % 8);
        Bitmap(wide, if byte == 0 then ClearBit(group, p / 8) else group, table[p / 8 := byte])
      else
        Bitmap(wide, ClearBit(group, p), table)
    }

    /** _scheduler_get_highest_priority_thread's priority. */
    function First(): int
      requires Valid() && group != 0
    {
      var number := FfsTable(group) - 1;
      if wide then
        assert 0 <= number < 32 && Byte(number) by { FirstByteOk(); }
        number * 8 + FfsTable(table[number]) - 1
      else
        number
    }

    lemma FirstByteOk()
      requires Valid() && group != 0
      ensures var n := FfsTable(group) - 1; 0 <= n < 32 && n == Ctz(group) && (wide ==> Byte(n))
    {
      FfsTableIsCtz(group);
      WordBound();
      CtzBound(group, 32);
    }

    lemma MarkIs(p: nat)
      requires Valid() && p < Capacity()
      ensures Mark(p).Valid()
      ensures forall q :: 0 <= q < Capacity() ==> (Mark(p).Has(q) <==> Has(q) || q == p)
    {
      var r := Mark(p);
      WordBound();
      if wide {
        assert Byte(p / 8);
        SetBound(group, 32, p / 8);
        ByteBound();
        SetBound(table[p / 8], 8, p % 8);
        SetBitIs(table[p / 8], p % 8, p % 8);
        NoBit(p % 8);
        forall n | 0 <= n < 32 ensures r.Byte(n) {
          assert Byte(n);
          SetBitIs(group, p / 8, n);
        }
        forall q | 0 <= q < 256 ensures r.Has(q) <==> Has(q) || q == p {
          if q / 8 == p / 8 {
            SetBitIs(table[p / 8], p % 8, q % 8);
          }
        }
      } else {
        SetBound(group, 32, p);
        forall q | 0 <= q < 32 ensures r.Has(q) <==> Has(q) || q == p {
          SetBitIs(group, p, q);
        }
      }
    }

    lemma UnmarkIs(p: nat)
      requires Valid() && p < Capacity()
      ensures Unmark(p).Valid()
      ensures forall q :: 0 <= q < Capacity() ==> (Unmark(p).Has(q) <==> Has(q) && q != p)
    {
      var r := Unmark(p);
      if wide {
        var byte := ClearBit(table[p / 8], p % 8);
        assert Byte(p / 8);
        ClearBound(group, p / 8);
        ClearBound(table[p / 8], p % 8);
        forall n | 0 <= n < 32 ensures r.Byte(n) {
          assert Byte(n);
          ClearBitIs(group, p / 8, n);
          if n == p / 8 && byte != 0 {
            assert table[n] != 0;
          }
        }
        forall q | 0 <= q < 256 ensures r.Has(q) <==> Has(q) && q != p {
          if q / 8 == p / 8 {
            ClearBitIs(table[p / 8], p % 8, q % 8);
          }
        }
      } else {
        ClearBound(group, p);
        forall q | 0 <= q < 32 ensures r.Has(q) <==> Has(q) && q != p {
          ClearBitIs(group, p, q);
        }
      }
    }

    /** __rt_ffs finds the best priority that is marked. */
    lemma FirstIsLeast()
      requires Valid() && group != 0
      ensures 0 <= First() < Capacity() && Has(First())
      ensures forall q :: 0 <= q < Capacity() && Has(q) ==> First() <= q
    {
      FirstByteOk();
      var n := Ctz(group);
      CtzIsLeast(group);
      if wide {
        var low := Ctz(table[n]);
        WideFirst(n, low);
        forall q | 0 <= q < 256 && Has(q) ensures n * 8 + low <= q {
          WideLeast(n, low, q / 8, q % 8);
        }
      }
    }

    lemma WideFirst(n: nat, low: nat)
      requires Valid() && wide && group != 0 && n == Ctz(group) == FfsTable(group) - 1 && n < 32 && Byte(n)
      requires table[n] > 0 && low == Ctz(table[n])
      ensures low < 8 && First() == n * 8 + low && Bit(table[n], low) && Has(n * 8 + low)
    {
      ByteBound();
      FfsTableIsCtz(table[n]);
      CtzBound(table[n], 8);
      CtzIsLeast(table[n]);
      assert (n * 8 + low) / 8 == n && (n * 8 + low) % 8 == low;
    }

    lemma WideLeast(n: nat, low: nat, m: nat, k: nat)
      requires Valid() && wide && group != 0 && n == Ctz(group) && n < 32 && table[n] > 0 && low == Ctz(table[n]) < 8
      requires m < 32 && Bit(table[m], k)
      ensures n * 8 + low <= m * 8 + k
    {
      CtzIsLeast(group);
      CtzIsLeast(table[n]);
      assert Byte(m);
      NoBit(k);
      assert Bit(group, m) && n <= m;
    }

    lemma SomeMarked()
      requires Valid()
      ensures group == 0 ==> forall q :: 0 <= q < Capacity() ==> !Has(q)
    {
      if group == 0 {
        forall q | 0 <= q < Capacity() ensures !Has(q) {
          if wide {
            assert Byte(q / 8);
            NoBit(q / 8);
            NoBit(q % 8);
          } else {
            NoBit(q);
          }
        }
      }
    }
  }

  const EMPTY_TABLE := [0, 0, 0, 0, 0, 0, 0, 0, 0, 0, 0, 0, 0, 0, 0, 0, 0, 0, 0, 0, 0, 0, 0, 0, 0, 0, 0, 0, 0, 0, 0, 0]

  function Empty(wide: bool): Bitmap {
    Bitmap(wide, 0, EMPTY_TABLE)
  }

  lemma EmptyIs(wide: bool)
    ensures Empty(wide).Valid() && forall q :: 0 <= q < Empty(wide).Capacity() ==> !Empty(wide).Has(q)
  {
    forall n | 0 <= n < 32 ensures Empty(wide).Byte(n) {
      NoBit(n);
    }
    Empty(wide).SomeMarked();
  }
}
