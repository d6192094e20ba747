/**
 The byte arena as the firmware runs it: a buffer, a slot table and a span
 table changed in place. Each method is proved equal to the function of the
 same name in `ArenaModel`, applied to the arena's value before the call.
 */
module ByteArenas {
  import opened Common
  import opened ArenaModel
  import opened ArenaProofs

  class ByteArena<T(==)> {
    const cfg: Config<T>
    const buffer: array<Byte>
    const slots: array<Slot<T>>
    const spans: array<Span>
    var spanCount: nat

    /** The live part of the span table tiles the buffer. */
    ghost predicate Valid()
      reads this, spans
    {
      spanCount <= spans.Length == cfg.spanCount && Tiles(spans[..spanCount], buffer.Length)
    }

    ghost function View(): (a: Arena<T>)
      reads this, buffer, slots, spans
      requires Valid()
      ensures IsTiled(a)
    {
      Arena(buffer[..], slots[..], spans[..spanCount])
    }

    /** `unused` stands for the uninitialised keys of the slot table; no slot is occupied. */
    constructor (cfg: Config<T>, bufferSize: nat, slotCount: nat, unused: T)
      requires bufferSize > 0 && cfg.spanCount > 0
      ensures Valid() && Initial(cfg, View()) && WellFormed(cfg, View())
      ensures this.cfg == cfg && buffer.Length == bufferSize && slots.Length == slotCount
      ensures fresh(buffer) && fresh(slots) && fresh(spans)
    {
      this.cfg := cfg;
      buffer := new Byte[bufferSize](_ => 0);
      slots := new Slot<T>[slotCount](_ => Slot(0, unused, 0, false));
      spans := new Span[cfg.spanCount](_ => Span(0, bufferSize, false));
      spanCount := 1;
      new;
      assert spans[..spanCount] == [Span(0, bufferSize, false)];
      InitialIsWellFormed(cfg, View());
    }

    // -------------------------------------------------------------- searches

    method FindFreeSpan(size: nat) returns (idx: Option<nat>)
      requires Valid()
      ensures idx == ArenaModel.FindFreeSpan(View().spans, size, spanCount)
    {
      ghost var table := View().spans;
      idx := None;
      var i := 0;
      while i < spanCount
        invariant 0 <= i <= spanCount && table == spans[..spanCount]
        invariant idx == ArenaModel.FindFreeSpan(table, size, i)
        invariant forall k :: 0 <= k < i && Fits(table[k], size) ==> table[k].size > size
      {
        if !spans[i].occupied && spans[i].size >= size {
          if spans[i].size == size {
            idx := Some(i);
            BestFitIsUnique(table, size, spanCount, idx, ArenaModel.FindFreeSpan(table, size, spanCount));
            return;
          }
          if idx.None? || spans[i].size < spans[idx.value].size {
            idx := Some(i);
          }
        }
        i := i + 1;
      }
    }

    method FindFreeSlot() returns (idx: Option<nat>)
      requires Valid()
      ensures idx == ArenaModel.FindFreeSlot(View().slots)
    {
      for i := 0 to slots.Length
        invariant ArenaModel.FindFreeSlot(slots[..]) == ArenaModel.FindFreeSlot(slots[..], i)
      {
        if !slots[i].occupied {
          return Some(i);
        }
      }
      return None;
    }

    method FindRecord(key: T) returns (idx: Option<nat>)
      requires Valid()
      ensures idx == ArenaModel.FindRecord(View().slots, key)
    {
      for i := 0 to slots.Length
        invariant ArenaModel.FindRecord(slots[..], key) == ArenaModel.FindRecord(slots[..], key, i)
      {
        if slots[i].occupied && slots[i].stored == key {
          return Some(i);
        }
      }
      return None;
    }

    method FindOldestDroppableSlot() returns (idx: Option<nat>)
      requires Valid()
      ensures idx == FindOldestDroppable(cfg.isCritical, View().slots, slots.Length)
    {
      idx := None;
      for i := 0 to slots.Length
        invariant idx == FindOldestDroppable(cfg.isCritical, slots[..], i)
      {
        if slots[i].occupied && !cfg.isCritical(slots[i].stored) {
          if idx.None? || slots[i].timestampMs < slots[idx.value].timestampMs {
            idx := Some(i);
          }
        }
      }
    }

    // ------------------------------------------------------------ span table

    /** Shifts the entries after `at` one place down, dropping the entry at `at`. */
    method RemoveSpan(at: nat)
      requires at < spanCount <= spans.Length
      modifies this`spanCount, spans
      ensures spanCount == old(spanCount) - 1
      ensures spans[..spanCount] == old(spans[..at]) + old(spans[at + 1..spanCount])
    {
      var i := at;
      while i < spanCount - 1
        invariant spanCount == old(spanCount) && at <= i <= spanCount - 1
        invariant forall k :: 0 <= k < spans.Length ==>
                                spans[k] == if at <= k < i then old(spans[k + 1]) else old(spans[k])
      {
        spans[i] := spans[i + 1];
        i := i + 1;
      }
      spanCount := spanCount - 1;
    }

    /** Merges the spans `at` and `at + 1` into one free span. */
    method MergeSpans(at: nat)
      requires at + 1 < spanCount <= spans.Length
      modifies this`spanCount, spans
      ensures spanCount == old(spanCount) - 1
      ensures spans[..spanCount] == Splice(old(spans[..spanCount]), at, 2,
                                           [Span(old(spans[at].offset), old(spans[at].size + spans[at + 1].size),
                                                 false)])
    {
      spans[at] := Span(spans[at].offset, spans[at].size + spans[at + 1].size, false);
      RemoveSpan(at + 1);
    }

    method FreeSpan(idx: nat)
      requires idx < spanCount <= spans.Length
      modifies this`spanCount, spans
      ensures idx < spanCount <= spans.Length
      ensures spans[..spanCount] == FreeAndMergeNext(old(spans[..spanCount]), idx)
    {
      hide Splice;
      ghost var before := spans[..spanCount];
      assert before[idx] == spans[idx];
      if idx + 1 < spanCount && !spans[idx + 1].occupied {
        assert before[idx + 1] == spans[idx + 1];
        MergeSpans(idx);
      } else {
        spans[idx] := spans[idx].(occupied := false);
        SpliceOne(before, idx, before[idx].(occupied := false));
        assert spans[..spanCount] == before[idx := before[idx].(occupied := false)];
      }
    }

    method MergeBack(idx: nat)
      requires idx < spanCount <= spans.Length
      modifies this`spanCount, spans
      ensures spanCount <= spans.Length
      ensures spans[..spanCount] == MergePrevious(old(spans[..spanCount]), idx)
    {
      hide Splice;
      ghost var before := spans[..spanCount];
      assert before[idx] == spans[idx];
      if idx > 0 && !spans[idx - 1].occupied {
        assert before[idx - 1] == spans[idx - 1];
        MergeSpans(idx - 1);
      }
    }

    method ReleaseSpan(idx: nat) returns (status: Status)
      requires Valid() && idx < spanCount
      modifies this`spanCount, spans
      ensures Valid()
      ensures status == if old(spans[idx].occupied) then Ok else InvalidState
      ensures spans[..spanCount]
           == if status == Ok then ArenaModel.ReleaseSpan(old(spans[..spanCount]), idx) else old(spans[..spanCount])
    {
      if !spans[idx].occupied {
        return InvalidState;
      }
      ReleaseKeepsTiling(spans[..spanCount], buffer.Length, idx);
      FreeSpan(idx);
      MergeBack(idx);
      return Ok;
    }

    method ReleaseSlot(i: nat) returns (status: Status)
      requires Valid() && i < slots.Length
      modifies this`spanCount, spans, slots
      ensures Valid()
      ensures (status, View()) == ArenaModel.ReleaseSlot(old(View()), i)
    {
      if !slots[i].occupied {
        return InvalidState;
      }
      var j := 0;
      while j < spanCount
        invariant 0 <= j <= spanCount
        invariant FindSpanAt(spans[..spanCount], slots[i].offset) == FindSpanAt(spans[..spanCount], slots[i].offset, j)
      {
        if spans[j].offset == slots[i].offset {
          if !spans[j].occupied {
            return InvalidState;
          }
          status := ReleaseSpan(j);
          slots[i] := slots[i].(occupied := false);
          return Ok;
        }
        j := j + 1;
      }
      return NotFound;
    }

    // --------------------------------------------------------------- storing

    /** Opens a place at `at` for one more entry by shifting the entries from `at` on up. */
    method InsertSpan(at: nat, span: Span)
      requires at <= spanCount < spans.Length
      modifies this`spanCount, spans
      ensures spanCount == old(spanCount) + 1
      ensures spans[..spanCount] == Splice(old(spans[..spanCount]), at, 0, [span])
    {
      ghost var before := spans[..spanCount];
      var i := spanCount;
      while i > at
        invariant spanCount == |before| && at <= i <= spanCount
        invariant forall k :: 0 <= k < i ==> spans[k] == before[k]
        invariant forall k :: i < k <= spanCount ==> spans[k] == before[k - 1]
      {
        spans[i] := spans[i - 1];
        i := i - 1;
      }
      spans[at] := span;
      spanCount := spanCount + 1;
      hide Splice;
      InsertIsSplice(before, spans[..spanCount], at, span);
    }

    /** Occupies the first `size` bytes of span `idx`; what is left becomes a free span behind it. */
    method Occupy(idx: nat, size: nat)
      requires Valid() && idx < spanCount && size <= spans[idx].size
      requires spans[idx].size > size ==> spanCount < spans.Length
      modifies this`spanCount, spans
      ensures Valid()
      ensures spans[..spanCount] == OccupySpan(old(spans[..spanCount]), idx, size)
    {
      ghost var before := spans[..spanCount];
      var span := spans[idx];
      assert before[idx] == span;
      OccupyKeepsTiling(before, buffer.Length, idx, size);
      if span.size > size {
        InsertSpan(idx + 1, Span(span.offset + size, span.size - size, false));
        spans[idx] := Span(span.offset, size, true);
      } else {
        spans[idx] := span.(occupied := true);
      }
      assert spans[..spanCount] == OccupySpan(before, idx, size);
    }

    method StoreRecord(idx: nat, slot: nat, key: T, data: seq<Byte>) returns (status: Status)
      requires Valid() && idx < spanCount && slot < slots.Length && End(spans[idx]) <= buffer.Length
      modifies this`spanCount, spans, slots, buffer
      ensures Valid()
      ensures (status, View())
           == ArenaModel.StoreRecord(cfg, old(View()), idx, slot, key, data, old(slots[slot].timestampMs))
    {
      ghost var before := spans[..spanCount];
      var span := spans[idx];
      assert before[idx] == span;
      var needsSplit := span.size > |data|;
      if needsSplit && spanCount >= cfg.spanCount {
        return Overflow;
      }
      if slots[slot].occupied || span.occupied || span.size < |data| {
        return InvalidState;
      }
      forall k | 0 <= k < |data| {
        buffer[span.offset + k] := data[k];
      }
      assert buffer[..] == Overwrite(old(buffer[..]), span.offset, data);
      ghost var filled := buffer[..];
      assert spans[..spanCount] == before;
      Occupy(idx, |data|);
      assert buffer[..] == filled;
      slots[slot] := slots[slot].(stored := key, offset := span.offset, occupied := true);
      assert slots[..] == old(slots[..])[slot := slots[slot]];
      assert slots[slot] == Slot(old(slots[slot].timestampMs), key, span.offset, true);
      assert spans[..spanCount] == OccupySpan(before, idx, |data|);
      return Ok;
    }

    /** One round of the store loop: search a span and a slot, and store if both exist. */
    method TryPlace(key: T, data: seq<Byte>, now: Word32) returns (status: Status)
      requires Valid()
      modifies this`spanCount, spans, slots, buffer
      ensures Valid()
      ensures (status, View()) == Place(cfg, old(View()), key, data, now)
    {
      var spanIdx := FindFreeSpan(|data|);
      var slotIdx := FindFreeSlot();
      if spanIdx.None? || slotIdx.None? {
        return Overflow;
      }
      SpanEndsWithin(View().spans, buffer.Length, spanIdx.value);
      status := StoreRecord(spanIdx.value, slotIdx.value, key, data);
      if status == Ok {
        slots[slotIdx.value] := slots[slotIdx.value].(timestampMs := now);
        assert slots[..] == old(slots[..])[slotIdx.value := slots[slotIdx.value]];
      }
    }

    /** The other half of a round: drop the record, or evict the oldest noncritical one. */
    method MakeRoom(key: T, evictOk: T -> bool, reportOk: bool) returns (status: Status, ghost evicted: seq<T>)
      requires Valid()
      modifies this`spanCount, spans, slots
      ensures Valid()
      ensures Stored(status, View(), evicted) == ArenaModel.MakeRoom(cfg, old(View()), key, evictOk, reportOk)
    {
      if !cfg.isCritical(key) {
        return if reportOk then Backpressure else HookFailed, [];
      }
      var oldest := FindOldestDroppableSlot();
      if oldest.None? {
        return if reportOk then Overflow else HookFailed, [];
      }
      var victim := slots[oldest.value].stored;
      status := ReleaseSlot(oldest.value);
      if status != Ok {
        return status, [];
      }
      return if evictOk(victim) then Ok else HookFailed, [victim];
    }

    /** Rounds until the record is placed or there is no room left to make. */
    method StoreRounds(key: T, data: seq<Byte>, now: Word32, evictOk: T -> bool, reportOk: bool)
      returns (status: Status, ghost evicted: seq<T>)
      requires Valid()
      modifies this`spanCount, spans, slots, buffer
      ensures Valid()
      ensures Stored(status, View(), evicted) == StoreLoop(cfg, old(View()), key, data, now, evictOk, reportOk)
    {
      evicted := [];
      ghost var here := View();
      ghost var goal := StoreLoop(cfg, here, key, data, now, evictOk, reportOk);
      while true
        invariant Valid() && here == View()
        invariant Continues(goal, cfg, here, key, data, now, evictOk, reportOk, evicted)
        decreases DroppableSlots(cfg.isCritical, here.slots)
      {
        status := TryPlace(key, data, now);
        if status != Overflow {
          ContinuesToEnd(goal, cfg, here, key, data, now, evictOk, reportOk, evicted);
          return;
        }
        assert View() == here;
        ghost var victims;
        status, victims := MakeRoom(key, evictOk, reportOk);
        ghost var room := Stored(status, View(), victims);
        ContinuesAfter(goal, cfg, here, key, data, now, evictOk, reportOk, evicted, room);
        evicted := evicted + victims;
        if status != Ok {
          return;
        }
        here := View();
      }
    }

    /** `now` is the clock; `evictOk` and `reportOk` are what the configured hooks answer. */
    method Store(key: T, data: seq<Byte>, now: Word32, evictOk: T -> bool, reportOk: bool)
      returns (status: Status, ghost evicted: seq<T>)
      requires Valid()
      modifies this`spanCount, spans, slots, buffer
      ensures Valid()
      ensures Stored(status, View(), evicted) == ArenaModel.Store(cfg, old(View()), key, data, now, evictOk, reportOk)
    {
      if |data| > buffer.Length {
        return InvalidArgument, [];
      }
      var existing := FindRecord(key);
      if existing.Some? {
        return AlreadyExists, [];
      }
      status, evicted := StoreRounds(key, data, now, evictOk, reportOk);
    }

    // --------------------------------------------- releasing, cleaning, reading

    method Release(key: T) returns (status: Status)
      requires Valid()
      modifies this`spanCount, spans, slots
      ensures Valid()
      ensures (status, View()) == ArenaModel.Release(old(View()), key)
    {
      var idx := FindRecord(key);
      if idx.None? {
        return NotFound;
      }
      status := ReleaseSlot(idx.value);
    }

    method Clean(now: Word32) returns (status: Status)
      requires Valid()
      modifies this`spanCount, spans, slots
      ensures Valid()
      ensures (status, View()) == ArenaModel.Clean(cfg, old(View()), now)
    {
      if cfg.maxRecordAgeMs == 0 {
        return Ok;
      }
      var cutoff := Sub32(now, cfg.maxRecordAgeMs);
      ghost var here := View();
      ghost var goal := CleanFrom(here, cutoff, 0);
      for i := 0 to slots.Length
        invariant Valid() && here == View()
        invariant CleanFrom(here, cutoff, i) == goal
      {
        if slots[i].occupied && slots[i].timestampMs < cutoff {
          status := ReleaseSlot(i);
          if status != Ok {
            return;
          }
          here := View();
        }
      }
      return Ok;
    }

    /** Copies bytes out from a record's place in the buffer; nothing checks that they all belong to it. */
    method GetRaw(key: T, offset: nat, out: array<Byte>) returns (status: Status)
      requires Valid() && Readable(View(), key, offset, out.Length)
      requires out != buffer
      modifies out
      ensures View() == old(View())
      ensures status == if Lookup(View(), key).Some? then Ok else NotFound
      ensures out[..] == if status == Ok then RawBytes(View(), key, offset, out.Length) else old(out[..])
    {
      var idx := FindRecord(key);
      if idx.None? {
        return NotFound;
      }
      CopyOut(slots[idx.value].offset + offset, out);
      return Ok;
    }

    method CopyOut(start: nat, out: array<Byte>)
      requires start + out.Length <= buffer.Length && out != buffer
      modifies out
      ensures out[..] == buffer[start..start + out.Length]
    {
      forall k | 0 <= k < out.Length {
        out[k] := buffer[start + k];
      }
    }

    method Contains(key: T) returns (held: bool)
      requires Valid()
      ensures held <==> Lookup(View(), key).Some?
    {
      var idx := FindRecord(key);
      return idx.Some?;
    }
  }

  lemma SpliceOne(spans: seq<Span>, i: nat, span: Span)
    requires i < |spans|
    ensures Splice(spans, i, 1, [span]) == spans[i := span]
  {
  }

  lemma InsertIsSplice(before: seq<Span>, after: seq<Span>, at: nat, span: Span)
    requires at <= |before| && |after| == |before| + 1 && after[at] == span
    requires forall k :: 0 <= k < at ==> after[k] == before[k]
    requires forall k :: at < k < |after| ==> after[k] == before[k - 1]
    ensures after == Splice(before, at, 0, [span])
  {
  }

  /** `goal` is what the store loop reports from `a` on, with the evictions already done put in front. */
  ghost predicate Continues<T>(goal: Stored<T>, cfg: Config<T>, a: Arena<T>, key: T, data: seq<Byte>, now: Word32,
                               evictOk: T -> bool, reportOk: bool, evicted: seq<T>)
    requires IsTiled(a)
  {
    var rest := StoreLoop(cfg, a, key, data, now, evictOk, reportOk);
    goal.status == rest.status && goal.arena == rest.arena && goal.evicted == evicted + rest.evicted
  }

  lemma ContinuesToEnd<T>(goal: Stored<T>, cfg: Config<T>, a: Arena<T>, key: T, data: seq<Byte>, now: Word32,
                          evictOk: T -> bool, reportOk: bool, evicted: seq<T>)
    requires IsTiled(a) && Continues(goal, cfg, a, key, data, now, evictOk, reportOk, evicted)
    requires Place(cfg, a, key, data, now).0 != Overflow
    ensures goal == Stored(Place(cfg, a, key, data, now).0, Place(cfg, a, key, data, now).1, evicted)
  {
  }

  lemma ContinuesAfter<T>(goal: Stored<T>, cfg: Config<T>, a: Arena<T>, key: T, data: seq<Byte>, now: Word32,
                          evictOk: T -> bool, reportOk: bool, evicted: seq<T>, room: Stored<T>)
    requires IsTiled(a) && Place(cfg, a, key, data, now).0 == Overflow
    requires room == ArenaModel.MakeRoom(cfg, a, key, evictOk, reportOk)
    requires Continues(goal, cfg, a, key, data, now, evictOk, reportOk, evicted)
    ensures if room.status == Ok
            then Continues(goal, cfg, room.arena, key, data, now, evictOk, reportOk, evicted + room.evicted)
            else goal == Stored(room.status, room.arena, evicted + room.evicted)
  {
    if room.status == Ok {
      ConcatAssociates(evicted, room.evicted,
                       StoreLoop(cfg, room.arena, key, data, now, evictOk, reportOk).evicted);
    }
  }

  lemma ConcatAssociates<X>(a: seq<X>, b: seq<X>, c: seq<X>)
    ensures a + (b + c) == a + b + c
  {
  }

  /** Two best fits are the same span. */
  lemma BestFitIsUnique(spans: seq<Span>, size: nat, n: nat, r: Option<nat>, q: Option<nat>)
    requires n <= |spans| && IsBestFit(spans, size, n, r) && IsBestFit(spans, size, n, q)
    ensures r == q
  {
  }
}
