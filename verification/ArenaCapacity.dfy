/**
 How many spans an arena can need, and when a store is sure to succeed.
 */
module ArenaCapacity {
  import opened Common
  import opened ArenaModel
  import opened ArenaProofs
  import opened ArenaStore

  function BusyCount(spans: seq<Span>): nat {
    if spans == [] then 0 else BusyCount(spans[..|spans| - 1]) + if spans[|spans| - 1].occupied then 1 else 0
  }

  function HeldCount<T>(slots: seq<Slot<T>>): (r: nat)
    ensures r <= |slots|
    ensures (exists i :: 0 <= i < |slots| && !slots[i].occupied) ==> r < |slots|
  {
    if slots == [] then 0 else HeldCount(slots[..|slots| - 1]) + if slots[|slots| - 1].occupied then 1 else 0
  }

  /** With no two free neighbours, free spans are at most one more than busy ones. */
  lemma {:induction false} CoalescedSpanCount(spans: seq<Span>)
    requires Coalesced(spans)
    ensures |spans| <= 2 * BusyCount(spans) + 1
    ensures spans != [] && spans[|spans| - 1].occupied ==> |spans| <= 2 * BusyCount(spans)
  {
    if spans == [] {
    } else {
      var front := spans[..|spans| - 1];
      forall i | 0 < i < |front| ensures Separated(front, i) {
        assert Separated(spans, i) && front[i] == spans[i] && front[i - 1] == spans[i - 1];
      }
      CoalescedSpanCount(front);
      if |spans| > 1 {
        assert Separated(spans, |spans| - 1);
        assert front[|front| - 1] == spans[|spans| - 2];
      }
    }
  }

  lemma OffsetsAdd(s: set<Span>, x: Span)
    ensures (set t | t in s + {x} :: t.offset) == (set t | t in s :: t.offset) + {x.offset}
  {
    assert x in s + {x};
  }

  lemma {:induction false} BusyCountIsOffsets(spans: seq<Span>)
    requires forall i, j :: 0 <= i < j < |spans| ==> spans[i].offset < spans[j].offset
    ensures |BusyOffsets(spans)| == BusyCount(spans)
  {
    if spans != [] {
      var front, last := spans[..|spans| - 1], spans[|spans| - 1];
      BusyCountIsOffsets(front);
      assert spans == front + [last];
      BusySpansConcat(front, [last]);
      BusyOne(last);
      if last.occupied {
        OffsetsAdd(BusySpans(front), last);
        assert last.offset !in BusyOffsets(front);
      } else {
        assert BusySpans(spans) == BusySpans(front);
      }
    } else {
      assert BusyOffsets(spans) == {};
    }
  }

  lemma {:induction false} HeldOffsetsCount<T>(slots: seq<Slot<T>>)
    ensures |HeldOffsets(slots)| <= HeldCount(slots)
  {
    if slots != [] {
      var front, last := slots[..|slots| - 1], slots[|slots| - 1];
      HeldOffsetsCount(front);
      assert slots == front + [last];
      assert HeldOffsets(slots) == HeldOffsets(front) + if last.occupied then {last.offset} else {};
    } else {
      assert HeldOffsets(slots) == {};
    }
  }

  /** A well-formed arena has at most two spans per record, and one more. */
  lemma SpanCountBound<T>(cfg: Config<T>, a: Arena<T>)
    requires WellFormed(cfg, a)
    ensures |a.spans| <= 2 * HeldCount(a.slots) + 1
  {
    CoalescedSpanCount(a.spans);
    forall i, j | 0 <= i < j < |a.spans| ensures a.spans[i].offset < a.spans[j].offset {
      SpansAreOrdered(a.spans, |a.buffer|, i, j);
      assert a.spans[i].size > 0;
    }
    BusyCountIsOffsets(a.spans);
    HeldOffsetsCount(a.slots);
  }

  /** With two spans per slot a split never overflows: a free slot and a fitting span suffice. */
  lemma EnoughSpansNeverOverflow<T>(cfg: Config<T>, a: Arena<T>, key: T, data: seq<Byte>, now: Word32)
    requires NewRecord(cfg, a, key, data) && cfg.spanCount >= 2 * |a.slots|
    ensures Place(cfg, a, key, data, now).0 == Ok
       <==> FindFreeSpan(a.spans, |data|, |a.spans|).Some? && FindFreeSlot(a.slots).Some?
  {
    PlaceKeeps(cfg, a, key, data, now);
    SpanCountBound(cfg, a);
  }

  lemma {:induction false} NoneHeld<T>(slots: seq<Slot<T>>)
    requires forall i :: 0 <= i < |slots| ==> !slots[i].occupied
    ensures HeldCount(slots) == 0
  {
    if slots != [] { NoneHeld(slots[..|slots| - 1]); }
  }

  /** With no record left the whole buffer is one free span. */
  lemma EmptyArenaIsOneSpan<T>(cfg: Config<T>, a: Arena<T>)
    requires WellFormed(cfg, a) && forall i :: 0 <= i < |a.slots| ==> !a.slots[i].occupied
    ensures a.spans == [Span(0, |a.buffer|, false)]
  {
    assert HeldOffsets(a.slots) == {};
    assert forall s :: s in BusySpans(a.spans) ==> s.offset in BusyOffsets(a.spans);
    assert BusySpans(a.spans) == {};
    assert forall s :: s in a.spans ==> !s.occupied;
    NoneHeld(a.slots);
    SpanCountBound(cfg, a);
  }

  /** Every held record is noncritical. */
  ghost predicate OnlyNoncritical<T>(cfg: Config<T>, a: Arena<T>) {
    forall i :: 0 <= i < |a.slots| && a.slots[i].occupied ==> !cfg.isCritical(a.slots[i].stored)
  }

  lemma {:induction false} CriticalLoopSucceeds<T>(cfg: Config<T>, a: Arena<T>, key: T, data: seq<Byte>, now: Word32,
                                                   evictOk: T -> bool, reportOk: bool)
    requires NewRecord(cfg, a, key, data) && cfg.isCritical(key) && OnlyNoncritical(cfg, a)
    requires |data| <= |a.buffer| && cfg.spanCount >= 2 && |a.slots| >= 1 && forall x :: evictOk(x)
    ensures StoreLoop(cfg, a, key, data, now, evictOk, reportOk).status == Ok
    decreases DroppableSlots(cfg.isCritical, a.slots)
  {
    PlaceKeeps(cfg, a, key, data, now);
    if Place(cfg, a, key, data, now).0 != Ok {
      var oldest := FindOldestDroppable(cfg.isCritical, a.slots, |a.slots|);
      if oldest.None? {
        forall i | 0 <= i < |a.slots| ensures !a.slots[i].occupied {
          assert !Droppable(cfg.isCritical, a.slots[i]);
        }
        EmptyArenaIsOneSpan(cfg, a);
        assert Fits(a.spans[0], |data|);
        assert false;
      } else {
        ReleaseKeepsNewRecord(cfg, a, oldest.value, key, data);
        DroppableSlotsDrops(cfg.isCritical, a.slots, oldest.value, a.slots[oldest.value].(occupied := false));
        CriticalLoopSucceeds(cfg, ReleaseSlot(a, oldest.value).1, key, data, now, evictOk, reportOk);
      }
    }
  }

  /**
   A critical record of any size up to the buffer's is admitted whenever no
   critical record is held, however fragmented the arena is.
   */
  lemma CriticalStoreSucceeds<T>(cfg: Config<T>, a: Arena<T>, key: T, data: seq<Byte>, now: Word32,
                                 evictOk: T -> bool, reportOk: bool)
    requires WellFormed(cfg, a) && data != [] && |data| <= |a.buffer|
    requires cfg.isCritical(key) && OnlyNoncritical(cfg, a)
    requires cfg.spanCount >= 2 && |a.slots| >= 1 && forall x :: evictOk(x)
    ensures Store(cfg, a, key, data, now, evictOk, reportOk).status == Ok
  {
    assert forall i :: 0 <= i < |a.slots| ==> !Holds(a.slots[i], key);
    CriticalLoopSucceeds(cfg, a, key, data, now, evictOk, reportOk);
  }
}
