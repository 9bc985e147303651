/** The ready lists of one scheduler table, one per priority, with the bitmap over them. */
module ReadyTable {
  import opened Lists
  import opened ReadyBitmap

  type ThreadId = nat

  datatype Table = Table(bitmap: Bitmap, lists: seq<seq<ThreadId>>) {
    /** A bit is set exactly when the list it stands for is not empty. */
    ghost predicate Marked(p: int) {
      0 <= p < bitmap.Capacity() && |bitmap.table| == 32 && (bitmap.Has(p) <==> p < |lists| && lists[p] != [])
    }

    ghost predicate Valid(levels: nat) {
      && 0 < levels <= 256 && |lists| == levels
      && bitmap.Valid() && (bitmap.wide <==> levels > 32)
      && (forall p {:trigger Marked(p)} :: 0 <= p < bitmap.Capacity() ==> Marked(p))
      && (forall p :: 0 <= p < levels ==> Distinct(lists[p]))
    }

    predicate Has(p: nat, t: ThreadId) {
      p < |lists| && t in lists[p]
    }

    /** Puts t behind the list (it has used up its time slice) or in front of it, and marks the priority. */
    function Insert(p: nat, t: ThreadId, behind: bool): Table
      requires p < |lists| <= bitmap.Capacity() && |bitmap.table| == 32
    {
      Table(bitmap.Mark(p), lists[p := if behind then lists[p] + [t] else [t] + lists[p]])
    }

    /** Takes t off the list and clears the mark of a list that is empty now. */
    function Remove(p: nat, t: ThreadId): Table
      requires p < |lists| <= bitmap.Capacity() && |bitmap.table| == 32
    {
      var rest := Without(lists[p], t);
      Table(if rest == [] then bitmap.Unmark(p) else bitmap, lists[p := rest])
    }

    predicate Empty() {
      bitmap.group == 0
    }

    /** The most urgent priority somebody is ready at. */
    function Best(): int
      requires bitmap.Valid() && !Empty()
    {
      bitmap.First()
    }

    lemma InsertIs(levels: nat, p: nat, t: ThreadId, behind: bool)
      requires Valid(levels) && p < levels && t !in lists[p]
      ensures Insert(p, t, behind).Valid(levels)
      ensures forall q, u :: Insert(p, t, behind).Has(q, u) <==> Has(q, u) || (q == p && u == t)
    {
      var r := Insert(p, t, behind);
      bitmap.MarkIs(p);
      forall q | 0 <= q < bitmap.Capacity() ensures r.Marked(q) {
        assert Marked(q);
      }
    }

    lemma RemoveIs(levels: nat, p: nat, t: ThreadId)
      requires Valid(levels) && p < levels
      ensures Remove(p, t).Valid(levels)
      ensures forall q, u :: Remove(p, t).Has(q, u) <==> Has(q, u) && !(q == p && u == t)
    {
      var r := Remove(p, t);
      bitmap.UnmarkIs(p);
      WithoutDistinct(lists[p], t);
      forall q | 0 <= q < bitmap.Capacity() ensures r.Marked(q) {
        assert Marked(q);
      }
    }

    /** __rt_ffs leads to the first list that is not empty. */
    lemma BestIs(levels: nat)
      requires Valid(levels) && !Empty()
      ensures 0 <= Best() < levels && lists[Best()] != []
      ensures forall p :: 0 <= p < Best() ==> lists[p] == []
    {
      bitmap.FirstIsLeast();
      assert Marked(Best());
      forall p | 0 <= p < Best() ensures lists[p] == [] {
        assert Marked(p);
      }
    }

    lemma EmptyIs(levels: nat)
      requires Valid(levels) && Empty()
      ensures forall p :: 0 <= p < levels ==> lists[p] == []
    {
      bitmap.SomeMarked();
      forall p | 0 <= p < levels ensures lists[p] == [] {
        assert Marked(p);
      }
    }
  }

  function Fresh(levels: nat): Table {
    Table(ReadyBitmap.Empty(levels > 32), seq(levels, i => []))
  }

  lemma FreshIs(levels: nat)
    requires 0 < levels <= 256
    ensures Fresh(levels).Valid(levels) && forall p, t :: !Fresh(levels).Has(p, t)
  {
    ReadyBitmap.EmptyIs(levels > 32);
    var f := Fresh(levels);
    forall p | 0 <= p < f.bitmap.Capacity() ensures f.Marked(p) {
    }
  }
}
