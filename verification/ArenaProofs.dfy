/**
 What every operation of the byte arena keeps, and what it does to the records
 a caller sees.
 */
module ArenaProofs {
  import opened Common
  import opened ArenaModel

  // -------------------------------------------------------------- invariant

  /** The spans in use, as a set: independent of where they sit in the table. */
  ghost function BusySpans(spans: seq<Span>): set<Span> {
    set s | s in spans && s.occupied
  }

  ghost predicate Positive(spans: seq<Span>) {
    forall i :: 0 <= i < |spans| ==> spans[i].size > 0
  }

  ghost predicate Separated(spans: seq<Span>, i: nat)
    requires 0 < i < |spans|
  {
    spans[i - 1].occupied || spans[i].occupied
  }

  /** No two neighbouring spans are both free. */
  ghost predicate Coalesced(spans: seq<Span>) {
    forall i :: 0 < i < |spans| ==> Separated(spans, i)
  }

  ghost predicate SoundTable(spans: seq<Span>, total: nat) {
    Tiles(spans, total) && Positive(spans) && Coalesced(spans)
  }

  ghost function HeldOffsets<T>(slots: seq<Slot<T>>): set<nat> {
    set s | s in slots && s.occupied :: s.offset
  }

  ghost function BusyOffsets(spans: seq<Span>): set<nat> {
    set s | s in BusySpans(spans) :: s.offset
  }

  /** Occupied slots carry different keys and different offsets. */
  ghost predicate Distinct<T>(slots: seq<Slot<T>>) {
    forall i, j :: 0 <= i < j < |slots| && slots[i].occupied && slots[j].occupied ==>
                     slots[i].offset != slots[j].offset && slots[i].stored != slots[j].stored
  }

  /** Occupied slots and occupied spans match one to one by offset. */
  ghost predicate Matched<T>(a: Arena<T>) {
    Distinct(a.slots) && HeldOffsets(a.slots) == BusyOffsets(a.spans)
  }

  ghost predicate WellFormed<T>(cfg: Config<T>, a: Arena<T>) {
    SoundTable(a.spans, |a.buffer|) && |a.spans| <= cfg.spanCount && Matched(a)
  }

  /** A fresh arena: one free span over the whole buffer, no slot in use. */
  ghost predicate Initial<T>(cfg: Config<T>, a: Arena<T>) {
    && |a.buffer| > 0 && cfg.spanCount > 0
    && a.spans == [Span(0, |a.buffer|, false)]
    && forall i :: 0 <= i < |a.slots| ==> !a.slots[i].occupied
  }

  lemma InitialIsWellFormed<T>(cfg: Config<T>, a: Arena<T>)
    requires Initial(cfg, a)
    ensures WellFormed(cfg, a)
  {
    assert HeldOffsets(a.slots) == {};
    assert BusyOffsets(a.spans) == {};
  }

  // ------------------------------------------------------------- span tables

  lemma {:induction false} SpansAreOrdered(spans: seq<Span>, total: nat, i: nat, j: nat)
    requires Tiles(spans, total) && Positive(spans) && i < j < |spans|
    ensures spans[i].offset + spans[i].size <= spans[j].offset
    decreases j - i
  {
    if i + 1 == j {
    } else {
      SpansAreOrdered(spans, total, i, j - 1);
    }
    assert Abuts(spans, j);
  }

  /** In a sound table an offset names one span. */
  lemma OffsetNamesSpan(spans: seq<Span>, total: nat, s: Span)
    requires Tiles(spans, total) && Positive(spans) && s in spans
    ensures FindSpanAt(spans, s.offset).Some? && spans[FindSpanAt(spans, s.offset).value] == s
  {
    var i :| 0 <= i < |spans| && spans[i] == s;
    var found := FindSpanAt(spans, s.offset);
    if found.Some? && found.value != i {
      SpansAreOrdered(spans, total, found.value, i);
    }
  }

  lemma DifferentSpansAreDisjoint(spans: seq<Span>, total: nat, s: Span, t: Span)
    requires Tiles(spans, total) && Positive(spans) && s in spans && t in spans && s != t
    ensures s.offset + s.size <= t.offset || t.offset + t.size <= s.offset
  {
    var i :| 0 <= i < |spans| && spans[i] == s;
    var j :| 0 <= j < |spans| && spans[j] == t;
    if i < j { SpansAreOrdered(spans, total, i, j); } else { SpansAreOrdered(spans, total, j, i); }
  }

  lemma BusySpansConcat(a: seq<Span>, b: seq<Span>)
    ensures BusySpans(a + b) == BusySpans(a) + BusySpans(b)
  {
    assert forall s :: s in a + b <==> s in a || s in b;
  }

  lemma BusySpansSplice(spans: seq<Span>, i: nat, n: nat, middle: seq<Span>)
    requires i + n <= |spans|
    ensures BusySpans(Splice(spans, i, n, middle))
         == BusySpans(spans[..i]) + BusySpans(middle) + BusySpans(spans[i + n..])
  {
    BusySpansConcat(spans[..i] + middle, spans[i + n..]);
    BusySpansConcat(spans[..i], middle);
  }

  lemma SegmentsAreDisjoint(spans: seq<Span>, total: nat, i: nat, n: nat)
    requires Tiles(spans, total) && Positive(spans) && i + n <= |spans|
    ensures BusySpans(spans[i..i + n]) !! BusySpans(spans[..i]) + BusySpans(spans[i + n..])
  {
    var before, middle, after := spans[..i], spans[i..i + n], spans[i + n..];
    forall s | s in BusySpans(middle) ensures s !in BusySpans(before) && s !in BusySpans(after) {
      var k :| 0 <= k < n && middle[k] == s;
      forall j | 0 <= j < |spans| && j != i + k ensures spans[j] != s {
        if j < i + k { SpansAreOrdered(spans, total, j, i + k); } else { SpansAreOrdered(spans, total, i + k, j); }
      }
      assert forall j :: 0 <= j < |before| ==> before[j] != s;
      assert forall j :: 0 <= j < |after| ==> after[j] != s;
    }
  }

  /** Replacing a segment of a table replaces its busy spans and no others. */
  lemma BusySpansReplaced(spans: seq<Span>, total: nat, i: nat, n: nat, middle: seq<Span>)
    requires Tiles(spans, total) && Positive(spans) && i + n <= |spans|
    ensures BusySpans(Splice(spans, i, n, middle))
         == BusySpans(spans) - BusySpans(spans[i..i + n]) + BusySpans(middle)
  {
    assert Splice(spans, i, n, spans[i..i + n]) == spans;
    BusySpansSplice(spans, i, n, spans[i..i + n]);
    BusySpansSplice(spans, i, n, middle);
    SegmentsAreDisjoint(spans, total, i, n);
  }

  /** A splice keeps a table coalesced when no free neighbours arise inside or at its edges. */
  lemma CoalescedSplice(spans: seq<Span>, i: nat, n: nat, middle: seq<Span>)
    requires Coalesced(spans) && 0 < n && i + n <= |spans| && middle != [] && Coalesced(middle)
    requires i > 0 ==> spans[i - 1].occupied || middle[0].occupied
    requires i + n < |spans| ==> middle[|middle| - 1].occupied || spans[i + n].occupied
    ensures Coalesced(Splice(spans, i, n, middle))
  {
    var r := Splice(spans, i, n, middle);
    var m := |middle|;
    forall k | 0 < k < |r| ensures Separated(r, k) {
      if k < i {
        assert r[k - 1] == spans[k - 1] && r[k] == spans[k] && Separated(spans, k);
      } else if k == i {
        assert r[k - 1] == spans[k - 1] && r[k] == middle[0];
      } else if k < i + m {
        assert r[k - 1] == middle[k - 1 - i] && r[k] == middle[k - i] && Separated(middle, k - i);
      } else if k == i + m {
        assert r[k - 1] == middle[m - 1] && r[k] == spans[i + n];
      } else {
        assert r[k - 1] == spans[k - 1 - m + n] && r[k] == spans[k - m + n] && Separated(spans, k - m + n);
      }
    }
  }

  lemma SpliceKeepsTable(spans: seq<Span>, total: nat, i: nat, n: nat, middle: seq<Span>)
    requires SoundTable(spans, total) && 0 < n && i + n <= |spans|
    requires Spanning(middle, spans[i], spans[i + n - 1]) && Positive(middle) && Coalesced(middle)
    requires i > 0 ==> spans[i - 1].occupied || middle[0].occupied
    requires i + n < |spans| ==> middle[|middle| - 1].occupied || spans[i + n].occupied
    ensures SoundTable(Splice(spans, i, n, middle), total)
    ensures BusySpans(Splice(spans, i, n, middle))
         == BusySpans(spans) - BusySpans(spans[i..i + n]) + BusySpans(middle)
  {
    SpliceKeepsTiling(spans, total, i, n, middle);
    CoalescedSplice(spans, i, n, middle);
    BusySpansReplaced(spans, total, i, n, middle);
    var r := Splice(spans, i, n, middle);
    forall k | 0 <= k < |r| ensures r[k].size > 0 {
      if i <= k < i + |middle| { assert r[k] == middle[k - i]; }
    }
  }

  lemma BusyOne(s: Span)
    ensures BusySpans([s]) == if s.occupied then {s} else {}
  {
    assert [s][0] == s;
  }

  lemma CutIsSound(s: Span, size: nat)
    requires 0 < size <= s.size
    ensures Spanning(Cut(s, size), s, s) && Positive(Cut(s, size)) && Coalesced(Cut(s, size))
    ensures Cut(s, size)[0] == Span(s.offset, size, true)
    ensures BusySpans(Cut(s, size)) == {Span(s.offset, size, true)}
  {
    var used, rest := Span(s.offset, size, true), Span(s.offset + size, s.size - size, false);
    BusyOne(used);
    BusyOne(rest);
    BusySpansConcat([used], [rest]);
    assert [used] + [rest] == [used, rest];
  }

  /** Occupying a free span adds exactly the new busy span and keeps the table sound. */
  lemma OccupyKeepsTable(spans: seq<Span>, total: nat, i: nat, size: nat)
    requires SoundTable(spans, total) && i < |spans| && !spans[i].occupied && 0 < size <= spans[i].size
    ensures SoundTable(OccupySpan(spans, i, size), total)
    ensures BusySpans(OccupySpan(spans, i, size)) == BusySpans(spans) + {Span(spans[i].offset, size, true)}
  {
    CutIsSound(spans[i], size);
    assert i > 0 ==> Separated(spans, i);
    assert i + 1 < |spans| ==> Separated(spans, i + 1);
    SpliceKeepsTable(spans, total, i, 1, Cut(spans[i], size));
    assert spans[i..i + 1] == [spans[i]];
    BusyOne(spans[i]);
  }

  /** Where the free span left by releasing span `i` starts, and how many spans it swallows. */
  function MergeStart(spans: seq<Span>, i: nat): (r: nat)
    requires i < |spans|
    ensures r <= i
  {
    if i > 0 && !spans[i - 1].occupied then i - 1 else i
  }

  function MergeCount(spans: seq<Span>, i: nat): (r: nat)
    requires i < |spans|
    ensures r > 0 && MergeStart(spans, i) + r <= |spans|
  {
    i - MergeStart(spans, i) + if i + 1 < |spans| && !spans[i + 1].occupied then 2 else 1
  }

  function Merged(spans: seq<Span>, i: nat): Span
    requires i < |spans|
  {
    var start, n := MergeStart(spans, i), MergeCount(spans, i);
    Span(spans[start].offset,
         (if start < i then spans[i - 1].size else 0) + spans[i].size
         + (if start + n > i + 1 then spans[i + 1].size else 0), false)
  }

  /** The two merges of a release together replace the freed run by one free span. */
  lemma ReleaseIsSplice(spans: seq<Span>, i: nat)
    requires i < |spans|
    ensures ReleaseSpan(spans, i) == Splice(spans, MergeStart(spans, i), MergeCount(spans, i), [Merged(spans, i)])
  {
    var r := FreeAndMergeNext(spans, i);
    var n := if i + 1 < |spans| && !spans[i + 1].occupied then 2 else 1;
    assert r == Splice(spans, i, n, [r[i]]);
    if i > 0 {
      SpliceTwice(spans, i, n, r[i], spans[i - 1].(size := spans[i - 1].size + r[i].size));
    }
  }

  /** Replacing a run, and then the entry before it together with what replaced it, replaces both at once. */
  lemma SpliceTwice(spans: seq<Span>, i: nat, n: nat, first: Span, second: Span)
    requires 0 < i && i + n <= |spans|
    ensures Splice(spans, i, n, [first])[i - 1] == spans[i - 1]
    ensures Splice(Splice(spans, i, n, [first]), i - 1, 2, [second]) == Splice(spans, i - 1, n + 1, [second])
  {
    var r := Splice(spans, i, n, [first]);
    assert r[..i - 1] == spans[..i - 1] && r[i + 1..] == spans[i + n..];
  }

  lemma MergedSpansRun(spans: seq<Span>, total: nat, i: nat)
    requires SoundTable(spans, total) && i < |spans| && spans[i].occupied
    ensures var start, n, merged := MergeStart(spans, i), MergeCount(spans, i), Merged(spans, i);
      && Spanning([merged], spans[start], spans[start + n - 1]) && merged.size > 0
      && (start > 0 ==> spans[start - 1].occupied)
      && (start + n < |spans| ==> spans[start + n].occupied)
  {
    var start, n := MergeStart(spans, i), MergeCount(spans, i);
    assert i > 0 ==> Abuts(spans, i);
    assert i + 1 < |spans| ==> Abuts(spans, i + 1);
    assert start > 0 ==> Separated(spans, start);
    assert start + n < |spans| ==> Separated(spans, start + n);
  }

  lemma MergedRunIsBusyAt(spans: seq<Span>, i: nat)
    requires i < |spans| && spans[i].occupied
    ensures BusySpans(spans[MergeStart(spans, i)..MergeStart(spans, i) + MergeCount(spans, i)]) == {spans[i]}
  {
    var start, n := MergeStart(spans, i), MergeCount(spans, i);
    var run := spans[start..start + n];
    assert run[i - start] == spans[i];
    assert forall k :: 0 <= k < n && k != i - start ==> !run[k].occupied;
  }

  /** Releasing a busy span removes exactly it, merges free neighbours and keeps the table sound. */
  lemma ReleaseKeepsTable(spans: seq<Span>, total: nat, i: nat)
    requires SoundTable(spans, total) && i < |spans| && spans[i].occupied
    ensures SoundTable(ReleaseSpan(spans, i), total)
    ensures BusySpans(ReleaseSpan(spans, i)) == BusySpans(spans) - {spans[i]}
    ensures |ReleaseSpan(spans, i)| <= |spans|
  {
    hide SoundTable, BusySpans, Splice;
    ReleaseIsSplice(spans, i);
    MergedSpansRun(spans, total, i);
    SpliceKeepsTable(spans, total, MergeStart(spans, i), MergeCount(spans, i), [Merged(spans, i)]);
    BusyOne(Merged(spans, i));
    MergedRunIsBusyAt(spans, i);
  }

  // ------------------------------------------------------------ the records

  /** The bytes of the span that starts at `offset`. */
  ghost function DataAt<T>(a: Arena<T>, offset: nat): seq<Byte>
    requires IsTiled(a)
  {
    match FindSpanAt(a.spans, offset)
    case None => []
    case Some(j) =>
      SpanEndsWithin(a.spans, |a.buffer|, j);
      a.buffer[offset..End(a.spans[j])]
  }

  /** What the arena holds under `key`. */
  ghost function Lookup<T>(a: Arena<T>, key: T): Option<Record>
    requires IsTiled(a)
  {
    match FindRecord(a.slots, key)
    case None => None
    case Some(i) => Some(Record(a.slots[i].timestampMs, DataAt(a, a.slots[i].offset)))
  }

  lemma DataOfSpan<T>(a: Arena<T>, s: Span)
    requires SoundTable(a.spans, |a.buffer|) && s in a.spans
    ensures End(s) <= |a.buffer| && DataAt(a, s.offset) == a.buffer[s.offset..End(s)]
  {
    OffsetNamesSpan(a.spans, |a.buffer|, s);
    SpanEndsWithin(a.spans, |a.buffer|, FindSpanAt(a.spans, s.offset).value);
  }

  /** The busy span of an occupied slot. */
  lemma SlotHasSpan<T>(a: Arena<T>, i: nat) returns (s: Span)
    requires SoundTable(a.spans, |a.buffer|) && Matched(a) && i < |a.slots| && a.slots[i].occupied
    ensures s in BusySpans(a.spans) && s.offset == a.slots[i].offset
    ensures FindSpanAt(a.spans, s.offset).Some? && a.spans[FindSpanAt(a.spans, s.offset).value] == s
  {
    assert a.slots[i] in a.slots;
    assert a.slots[i].offset in HeldOffsets(a.slots);
    s :| s in BusySpans(a.spans) && s.offset == a.slots[i].offset;
    OffsetNamesSpan(a.spans, |a.buffer|, s);
  }

  /** What a read of `n` bytes at `offset` of a record asks for lies within the buffer. */
  ghost predicate Readable<T>(a: Arena<T>, key: T, offset: nat, n: nat) {
    var i := FindRecord(a.slots, key);
    i.Some? ==> a.slots[i.value].offset + offset + n <= |a.buffer|
  }

  ghost function RawBytes<T>(a: Arena<T>, key: T, offset: nat, n: nat): seq<Byte>
    requires FindRecord(a.slots, key).Some? && Readable(a, key, offset, n)
  {
    var start := a.slots[FindRecord(a.slots, key).value].offset + offset;
    a.buffer[start..start + n]
  }

  /** A read that stays within its record gives the bytes stored there. */
  lemma RawBytesAreRecord<T>(a: Arena<T>, key: T, offset: nat, n: nat)
    requires SoundTable(a.spans, |a.buffer|) && Matched(a)
    requires Lookup(a, key).Some? && offset + n <= |Lookup(a, key).value.data|
    ensures Readable(a, key, offset, n) && RawBytes(a, key, offset, n) == Lookup(a, key).value.data[offset..offset + n]
  {
    var s := SlotHasSpan(a, FindRecord(a.slots, key).value);
    DataOfSpan(a, s);
  }

  lemma KeyNamesSlot<T>(slots: seq<Slot<T>>, i: nat)
    requires Distinct(slots) && i < |slots| && slots[i].occupied
    ensures FindRecord(slots, slots[i].stored) == Some(i)
  {
    var found := FindRecord(slots, slots[i].stored);
    assert Holds(slots[i], slots[i].stored);
  }

  lemma HeldOffsetsFreed<T>(slots: seq<Slot<T>>, i: nat)
    requires Distinct(slots) && i < |slots| && slots[i].occupied
    ensures var r := slots[i := slots[i].(occupied := false)];
      Distinct(r) && HeldOffsets(r) == HeldOffsets(slots) - {slots[i].offset}
  {
    var r := slots[i := slots[i].(occupied := false)];
    forall o | o in HeldOffsets(slots) - {slots[i].offset} ensures o in HeldOffsets(r) {
      var k :| 0 <= k < |slots| && slots[k].occupied && slots[k].offset == o;
      assert r[k] == slots[k];
    }
    forall o | o in HeldOffsets(r) ensures o in HeldOffsets(slots) - {slots[i].offset} {
      var k :| 0 <= k < |r| && r[k].occupied && r[k].offset == o;
      assert slots[k] in slots;
    }
  }

  lemma BusyOffsetsWithout(spans: seq<Span>, total: nat, s: Span)
    requires Tiles(spans, total) && Positive(spans) && s in BusySpans(spans)
    ensures (set t | t in BusySpans(spans) - {s} :: t.offset) == BusyOffsets(spans) - {s.offset}
  {
    forall t | t in BusySpans(spans) && t != s ensures t.offset != s.offset {
      DifferentSpansAreDisjoint(spans, total, s, t);
      assert Positive(spans);
    }
  }

  /** Releasing the record of an occupied slot succeeds, frees its span and keeps the arena well formed. */
  lemma ReleaseSlotFrees<T>(cfg: Config<T>, a: Arena<T>, i: nat) returns (s: Span)
    requires WellFormed(cfg, a) && i < |a.slots| && a.slots[i].occupied
    ensures ReleaseSlot(a, i).0 == Ok && WellFormed(cfg, ReleaseSlot(a, i).1)
    ensures s in BusySpans(a.spans) && s.offset == a.slots[i].offset
    ensures BusySpans(ReleaseSlot(a, i).1.spans) == BusySpans(a.spans) - {s}
    ensures ReleaseSlot(a, i).1.buffer == a.buffer
  {
    s := SlotHasSpan(a, i);
    var j := FindSpanAt(a.spans, s.offset).value;
    ReleaseKeepsTable(a.spans, |a.buffer|, j);
    HeldOffsetsFreed(a.slots, i);
    BusyOffsetsWithout(a.spans, |a.buffer|, s);
  }

  /** The InvalidState and NotFound branches of a release cannot be taken for an occupied slot. */
  lemma ReleaseSlotKeeps<T>(cfg: Config<T>, a: Arena<T>, i: nat)
    requires WellFormed(cfg, a) && i < |a.slots| && a.slots[i].occupied
    ensures ReleaseSlot(a, i).0 == Ok && WellFormed(cfg, ReleaseSlot(a, i).1)
  {
    var s := ReleaseSlotFrees(cfg, a, i);
  }

  lemma LookupOfSlot<T>(a: Arena<T>, i: nat)
    requires IsTiled(a) && Distinct(a.slots) && i < |a.slots| && a.slots[i].occupied
    ensures Lookup(a, a.slots[i].stored) == Some(Record(a.slots[i].timestampMs, DataAt(a, a.slots[i].offset)))
  {
    KeyNamesSlot(a.slots, i);
  }

  /** A slot that keeps its entry and its span's bytes keeps its record. */
  lemma SlotKeepsRecord<T>(a: Arena<T>, r: Arena<T>, i: nat, s: Span)
    requires SoundTable(a.spans, |a.buffer|) && Distinct(a.slots) && SoundTable(r.spans, |r.buffer|)
             && Distinct(r.slots)
    requires i < |a.slots| == |r.slots| && a.slots[i].occupied && r.slots[i] == a.slots[i]
    requires s.offset == a.slots[i].offset && s in BusySpans(a.spans) && s in BusySpans(r.spans)
    requires |a.buffer| == |r.buffer|
    requires End(s) <= |a.buffer| ==> a.buffer[s.offset..End(s)] == r.buffer[s.offset..End(s)]
    ensures Lookup(r, a.slots[i].stored) == Lookup(a, a.slots[i].stored)
  {
    LookupOfSlot(a, i);
    LookupOfSlot(r, i);
    DataOfSpan(a, s);
    DataOfSpan(r, s);
  }

  lemma OtherSlotKeepsRecord<T>(cfg: Config<T>, a: Arena<T>, i: nat, k: nat)
    requires WellFormed(cfg, a) && i < |a.slots| && a.slots[i].occupied
    requires k < |a.slots| && k != i && a.slots[k].occupied
    ensures Lookup(ReleaseSlot(a, i).1, a.slots[k].stored) == Lookup(a, a.slots[k].stored)
  {
    var s := ReleaseSlotFrees(cfg, a, i);
    var t := SlotHasSpan(a, k);
    assert t.offset != s.offset;
    SlotKeepsRecord(a, ReleaseSlot(a, i).1, k, t);
  }

  /** ... and takes away that record and no other. */
  lemma ReleaseSlotRecords<T>(cfg: Config<T>, a: Arena<T>, i: nat, key: T)
    requires WellFormed(cfg, a) && i < |a.slots| && a.slots[i].occupied
    ensures Lookup(ReleaseSlot(a, i).1, key) == if key == a.slots[i].stored then None else Lookup(a, key)
  {
    ReleaseSlotKeeps(cfg, a, i);
    var found := FindRecord(a.slots, key);
    if found.None? || found.value == i {
      assert forall k :: 0 <= k < |a.slots| && k != i ==> !Holds(a.slots[k], key);
    } else {
      OtherSlotKeepsRecord(cfg, a, i, found.value);
    }
  }

  lemma HeldOffsetsFilled<T>(slots: seq<Slot<T>>, i: nat, s: Slot<T>)
    requires Distinct(slots) && i < |slots| && !slots[i].occupied && s.occupied
    requires s.offset !in HeldOffsets(slots) && FindRecord(slots, s.stored).None?
    ensures Distinct(slots[i := s]) && HeldOffsets(slots[i := s]) == HeldOffsets(slots) + {s.offset}
  {
    var r := slots[i := s];
    forall o | o in HeldOffsets(slots) ensures o in HeldOffsets(r) {
      var k :| 0 <= k < |slots| && slots[k].occupied && slots[k].offset == o;
      assert r[k] == slots[k];
    }
    assert r[i] in r;
    forall k | 0 <= k < |slots| && slots[k].occupied ensures slots[k].offset != s.offset
      && slots[k].stored != s.stored {
      assert slots[k] in slots;
      assert !Holds(slots[k], s.stored);
    }
    forall o | o in HeldOffsets(r) ensures o in HeldOffsets(slots) + {s.offset} {
      var k :| 0 <= k < |r| && r[k].occupied && r[k].offset == o;
      assert k == i || slots[k] in slots;
    }
  }

  lemma FreeSpanOffsetIsNew<T>(cfg: Config<T>, a: Arena<T>, j: nat)
    requires WellFormed(cfg, a) && j < |a.spans| && !a.spans[j].occupied
    ensures a.spans[j].offset !in HeldOffsets(a.slots)
  {
    forall t | t in BusySpans(a.spans) ensures t.offset != a.spans[j].offset {
      DifferentSpansAreDisjoint(a.spans, |a.buffer|, a.spans[j], t);
      assert Positive(a.spans);
    }
  }

  /**
   An attempt to place a new, non-empty record either succeeds, keeping the
   arena well formed, or reports that it does not fit: the InvalidState
   branches of the code cannot be taken.
   */
  lemma PlaceKeeps<T>(cfg: Config<T>, a: Arena<T>, key: T, data: seq<Byte>, now: Word32)
    requires WellFormed(cfg, a) && data != [] && FindRecord(a.slots, key).None?
    ensures var r := Place(cfg, a, key, data, now);
      r.0 in {Ok, Overflow} && WellFormed(cfg, r.1)
  {
    var r := Place(cfg, a, key, data, now);
    if r.0 == Ok {
      var j, slot := FindFreeSpan(a.spans, |data|, |a.spans|).value, FindFreeSlot(a.slots).value;
      var used := Span(a.spans[j].offset, |data|, true);
      SpanEndsWithin(a.spans, |a.buffer|, j);
      OccupyKeepsTable(a.spans, |a.buffer|, j, |data|);
      FreeSpanOffsetIsNew(cfg, a, j);
      HeldOffsetsFilled(a.slots, slot, Slot(now, key, used.offset, true));
      assert BusyOffsets(r.1.spans) == BusyOffsets(a.spans) + {used.offset} by {
        assert BusySpans(r.1.spans) == BusySpans(a.spans) + {used};
      }
    }
  }

  lemma OverwriteApart(buffer: seq<Byte>, offset: nat, data: seq<Byte>, from: nat, to: nat)
    requires offset + |data| <= |buffer| && from <= to <= |buffer|
    requires to <= offset || offset + |data| <= from
    ensures Overwrite(buffer, offset, data)[from..to] == buffer[from..to]
    ensures Overwrite(buffer, offset, data)[offset..offset + |data|] == data
  {
  }

  /** A placed record reads back as stored and every other record is as before. */
  lemma PlaceRecords<T>(cfg: Config<T>, a: Arena<T>, key: T, data: seq<Byte>, now: Word32, other: T)
    requires WellFormed(cfg, a) && data != [] && FindRecord(a.slots, key).None?
    requires Place(cfg, a, key, data, now).0 == Ok
    ensures Lookup(Place(cfg, a, key, data, now).1, other)
         == if other == key then Some(Record(now, data)) else Lookup(a, other)
  {
    PlaceKeeps(cfg, a, key, data, now);
    var r := Place(cfg, a, key, data, now).1;
    var j, slot := FindFreeSpan(a.spans, |data|, |a.spans|).value, FindFreeSlot(a.slots).value;
    SpanEndsWithin(a.spans, |a.buffer|, j);
    OccupyKeepsTable(a.spans, |a.buffer|, j, |data|);
    var used := Span(a.spans[j].offset, |data|, true);
    if other == key {
      assert used in BusySpans(r.spans);
      LookupOfSlot(r, slot);
      DataOfSpan(r, used);
      OverwriteApart(a.buffer, used.offset, data, 0, 0);
    } else {
      var found := FindRecord(a.slots, other);
      if found.Some? {
        var t := SlotHasSpan(a, found.value);
        DataOfSpan(a, t);
        DifferentSpansAreDisjoint(a.spans, |a.buffer|, a.spans[j], t);
        OverwriteApart(a.buffer, used.offset, data, t.offset, End(t));
        assert t in BusySpans(r.spans);
        SlotKeepsRecord(a, r, found.value, t);
      } else {
        assert forall k :: 0 <= k < |a.slots| ==> !Holds(a.slots[k], other);
      }
    }
  }

  /** What the release of a slot that cannot be released answers. */
  lemma ReleaseSlotRefuses<T>(a: Arena<T>, i: nat)
    requires IsTiled(a) && i < |a.slots|
    ensures ReleaseSlot(a, i).0 != Ok ==> ReleaseSlot(a, i).1 == a
    ensures !a.slots[i].occupied ==> ReleaseSlot(a, i).0 == InvalidState
    ensures a.slots[i].occupied ==>
      var here := set s | s in a.spans && s.offset == a.slots[i].offset;
      && (here == {} ==> ReleaseSlot(a, i).0 == NotFound)
      && (here != {} && (forall s :: s in here ==> !s.occupied) ==> ReleaseSlot(a, i).0 == InvalidState)
      && (here != {} && (forall s :: s in here ==> s.occupied) ==> ReleaseSlot(a, i).0 == Ok)
  {
    var here := set s | s in a.spans && s.offset == a.slots[i].offset;
    var j := FindSpanAt(a.spans, a.slots[i].offset);
    if j.Some? {
      assert a.spans[j.value] in here;
    }
  }

  /** What storing in a slot or span that is taken, or in too small a span, answers. */
  lemma StoreRecordRefuses<T>(cfg: Config<T>, a: Arena<T>, i: nat, slot: nat, key: T, data: seq<Byte>, now: Word32)
    requires i < |a.spans| && slot < |a.slots| && End(a.spans[i]) <= |a.buffer|
    ensures var (status, after) := StoreRecord(cfg, a, i, slot, key, data, now);
      && (status != Ok ==> after == a)
      && (status == Overflow <==> a.spans[i].size > |data| && |a.spans| >= cfg.spanCount)
      && (a.spans[i].size < |data| ==> status == InvalidState)
      && (a.spans[i].size == |data| ==>
            (status == InvalidState <==> a.slots[slot].occupied || a.spans[i].occupied))
  {
  }
}
