/**
 Whole runs of the byte arena: what holds after any sequence of stores,
 releases and cleanings, and what an empty payload or an early clock breaks.
 */
module ArenaRuns {
  import opened Common
  import opened ArenaModel
  import opened ArenaProofs
  import opened ArenaStore

  // ----------------------------------------------------------------- cleaning

  ghost predicate Stale<T>(s: Slot<T>, cutoff: Word32) {
    s.occupied && s.timestampMs < cutoff
  }

  /** Releasing a stale slot takes its record away, which is a stale one, and no other. */
  lemma ReleaseStale<T>(cfg: Config<T>, a: Arena<T>, cutoff: Word32, i: nat, key: T)
    requires WellFormed(cfg, a) && i < |a.slots| && Stale(a.slots[i], cutoff)
    ensures Lookup(ReleaseSlot(a, i).1, key) == if key == a.slots[i].stored then None else Lookup(a, key)
    ensures key == a.slots[i].stored ==> Lookup(a, key).Some? && Lookup(a, key).value.timestampMs < cutoff
  {
    hide ReleaseSlot, Lookup;
    ReleaseSlotKeeps(cfg, a, i);
    ReleaseSlotRecords(cfg, a, i, key);
    LookupOfSlot(a, i);
  }

  lemma {:induction false} CleanFromRecords<T>(cfg: Config<T>, a: Arena<T>, cutoff: Word32, i: nat, key: T)
    requires WellFormed(cfg, a) && i <= |a.slots| && forall j :: 0 <= j < i ==> !Stale(a.slots[j], cutoff)
    ensures CleanFrom(a, cutoff, i).0 == Ok && WellFormed(cfg, CleanFrom(a, cutoff, i).1)
    ensures Lookup(CleanFrom(a, cutoff, i).1, key)
         == if Lookup(a, key).Some? && Lookup(a, key).value.timestampMs < cutoff then None else Lookup(a, key)
    decreases |a.slots| - i
  {
    hide ReleaseSlot, Matched;
    if i == |a.slots| {
    } else {
      if Stale(a.slots[i], cutoff) {
        ReleaseSlotKeeps(cfg, a, i);
        ReleaseStale(cfg, a, cutoff, i, key);
        CleanFromRecords(cfg, ReleaseSlot(a, i).1, cutoff, i + 1, key);
      } else {
        CleanFromRecords(cfg, a, cutoff, i + 1, key);
      }
    }
  }

  /** Cleaning succeeds, keeps the arena well formed and removes exactly the records stamped below the cutoff. */
  lemma CleanRecords<T>(cfg: Config<T>, a: Arena<T>, now: Word32, key: T)
    requires WellFormed(cfg, a)
    ensures Clean(cfg, a, now).0 == Ok && WellFormed(cfg, Clean(cfg, a, now).1)
    ensures Lookup(Clean(cfg, a, now).1, key)
         == if cfg.maxRecordAgeMs != 0 && Lookup(a, key).Some?
               && Lookup(a, key).value.timestampMs < Sub32(now, cfg.maxRecordAgeMs)
            then None else Lookup(a, key)
  {
    if cfg.maxRecordAgeMs != 0 {
      CleanFromRecords(cfg, a, Sub32(now, cfg.maxRecordAgeMs), 0, key);
    }
  }

  /**
   The age rule: a record goes exactly when it is older than the allowed age.
   The code meets it for a held record if and only if the clock has reached the
   allowed age, or the record is stamped at or above the wrapped cutoff.
   */
  lemma CleanFollowsAge<T>(cfg: Config<T>, a: Arena<T>, now: Word32, key: T)
    requires WellFormed(cfg, a) && Lookup(a, key).Some? && cfg.maxRecordAgeMs > 0
    ensures var stamp := Lookup(a, key).value.timestampMs;
      (Lookup(Clean(cfg, a, now).1, key).None? <==> stamp + cfg.maxRecordAgeMs < now)
      <==> (now >= cfg.maxRecordAgeMs || stamp >= now + WORD_32 - cfg.maxRecordAgeMs)
  {
    CleanRecords(cfg, a, now, key);
  }

  lemma OneRecordArena<T>(cfg: Config<T>, a: Arena<T>, key: T, now: Word32, data: seq<Byte>)
    requires cfg.spanCount >= 1 && data != []
    requires a == Arena(data, [Slot(now, key, 0, true)], [Span(0, |data|, true)])
    ensures WellFormed(cfg, a) && Lookup(a, key) == Some(Record(now, data))
  {
    assert a.slots[0] in a.slots && a.spans[0] in a.spans;
    assert HeldOffsets(a.slots) == {0};
    BusyOne(a.spans[0]);
    assert a.spans == [a.spans[0]];
    assert BusyOffsets(a.spans) == {0} by { assert a.spans[0] in BusySpans(a.spans); }
    assert Distinct(a.slots);
    LookupOfSlot(a, 0);
    assert data[0..|data|] == data;
    DataOfSpan(a, a.spans[0]);
  }

  /** Before the clock reaches the allowed age, a record stamped just now is cleaned away. */
  lemma EarlyCleanDropsFreshRecord(cfg: Config<int>, a: Arena<int>)
    requires cfg.spanCount >= 1 && cfg.maxRecordAgeMs == 10
    requires a == Arena([7], [Slot(5, 1, 0, true)], [Span(0, 1, true)])
    ensures WellFormed(cfg, a) && Lookup(a, 1) == Some(Record(5, [7])) && Lookup(Clean(cfg, a, 5).1, 1) == None
  {
    OneRecordArena(cfg, a, 1, 5, [7]);
    CleanRecords(cfg, a, 5, 1);
  }

  // --------------------------------------------------------------------- runs

  datatype Op<!T> =
    | StoreOp(key: T, data: seq<Byte>, now: Word32, evictOk: T -> bool, reportOk: bool)
    | ReleaseOp(key: T)
    | CleanOp(now: Word32)

  ghost function Apply<T>(cfg: Config<T>, a: Arena<T>, op: Op<T>): (r: Arena<T>)
    requires IsTiled(a)
    ensures IsTiled(r)
  {
    match op
    case StoreOp(key, data, now, evictOk, reportOk) => Store(cfg, a, key, data, now, evictOk, reportOk).arena
    case ReleaseOp(key) => Release(a, key).1
    case CleanOp(now) => Clean(cfg, a, now).1
  }

  ghost function Run<T>(cfg: Config<T>, a: Arena<T>, ops: seq<Op<T>>): (r: Arena<T>)
    requires IsTiled(a)
    ensures IsTiled(r)
  {
    if ops == [] then a else Apply(cfg, Run(cfg, a, ops[..|ops| - 1]), ops[|ops| - 1])
  }

  ghost predicate NonEmptyPayloads<T>(ops: seq<Op<T>>) {
    forall i :: 0 <= i < |ops| && ops[i].StoreOp? ==> ops[i].data != []
  }

  lemma ReleaseRecords<T>(cfg: Config<T>, a: Arena<T>, key: T, other: T)
    requires WellFormed(cfg, a)
    ensures WellFormed(cfg, Release(a, key).1)
    ensures Release(a, key).0 == if Lookup(a, key).Some? then Ok else NotFound
    ensures Lookup(Release(a, key).1, other) == if other == key then None else Lookup(a, other)
  {
    var found := FindRecord(a.slots, key);
    if found.Some? {
      ReleaseSlotKeeps(cfg, a, found.value);
      ReleaseSlotRecords(cfg, a, found.value, other);
    }
  }

  /** Every run with non-empty payloads keeps the arena well formed. */
  lemma {:induction false} RunKeeps<T>(cfg: Config<T>, a: Arena<T>, ops: seq<Op<T>>)
    requires WellFormed(cfg, a) && NonEmptyPayloads(ops)
    ensures WellFormed(cfg, Run(cfg, a, ops))
  {
    if ops == [] {
    } else {
      var before, last := ops[..|ops| - 1], ops[|ops| - 1];
      RunKeeps(cfg, a, before);
      var b := Run(cfg, a, before);
      match last
      case StoreOp(key, data, now, evictOk, reportOk) => StoreKeeps(cfg, b, key, data, now, evictOk, reportOk);
      case ReleaseOp(key) => ReleaseRecords(cfg, b, key, key);
      case CleanOp(now) =>
        if b.slots != [] { CleanRecords(cfg, b, now, b.slots[0].stored); }
    }
  }

  /** The record of the last successful store of `key` in a run that starts with `held` under that key. */
  ghost function LastStored<T>(cfg: Config<T>, a: Arena<T>, ops: seq<Op<T>>, key: T): Option<Record>
    requires IsTiled(a)
  {
    if ops == [] then Lookup(a, key)
    else
      var before, last := ops[..|ops| - 1], ops[|ops| - 1];
      if last.StoreOp? && last.key == key
         && Store(cfg, Run(cfg, a, before), key, last.data, last.now, last.evictOk, last.reportOk).status == Ok
      then Some(Record(last.now, last.data))
      else LastStored(cfg, a, before, key)
  }

  /** Whatever the run did in between, a key that is still held reads back the bytes last stored under it. */
  lemma {:induction false} RunReadsLastStored<T>(cfg: Config<T>, a: Arena<T>, ops: seq<Op<T>>, key: T)
    requires WellFormed(cfg, a) && NonEmptyPayloads(ops)
    ensures Lookup(Run(cfg, a, ops), key).Some? ==> Lookup(Run(cfg, a, ops), key) == LastStored(cfg, a, ops, key)
  {
    if ops == [] {
    } else {
      var before, last := ops[..|ops| - 1], ops[|ops| - 1];
      RunReadsLastStored(cfg, a, before, key);
      RunKeeps(cfg, a, before);
      var b := Run(cfg, a, before);
      match last
      case StoreOp(k, data, now, evictOk, reportOk) => StoreRecords(cfg, b, k, data, now, evictOk, reportOk, key);
      case ReleaseOp(k) => ReleaseRecords(cfg, b, k, key);
      case CleanOp(now) => CleanRecords(cfg, b, now, key);
    }
  }

  /** What a run has kept under `key`: the last record stored, unless it was evicted, released or cleaned as stale
      since. */
  ghost function Kept<T>(cfg: Config<T>, a: Arena<T>, ops: seq<Op<T>>, key: T): Option<Record>
    requires IsTiled(a)
  {
    if ops == [] then Lookup(a, key)
    else
      var before, last := ops[..|ops| - 1], ops[|ops| - 1];
      var kept := Kept(cfg, a, before, key);
      match last
      case StoreOp(k, data, now, evictOk, reportOk) =>
        var r := Store(cfg, Run(cfg, a, before), k, data, now, evictOk, reportOk);
        if k == key && r.status == Ok then Some(Record(now, data)) else if key in r.evicted then None else kept
      case ReleaseOp(k) => if k == key then None else kept
      case CleanOp(now) =>
        if cfg.maxRecordAgeMs != 0 && kept.Some? && kept.value.timestampMs < Sub32(now, cfg.maxRecordAgeMs) then None
        else kept
  }

  /** A key is held exactly while its record is kept, and reads back as that. */
  lemma {:induction false} RunHoldsWhatIsKept<T>(cfg: Config<T>, a: Arena<T>, ops: seq<Op<T>>, key: T)
    requires WellFormed(cfg, a) && NonEmptyPayloads(ops)
    ensures Lookup(Run(cfg, a, ops), key) == Kept(cfg, a, ops, key)
  {
    if ops == [] {
    } else {
      hide Store, Release, Clean, Lookup, Kept;
      var before, last := ops[..|ops| - 1], ops[|ops| - 1];
      RunHoldsWhatIsKept(cfg, a, before, key);
      RunKeeps(cfg, a, before);
      KeptNext(cfg, a, ops, key);
    }
  }

  /** One more operation keeps what it says. */
  lemma KeptNext<T>(cfg: Config<T>, a: Arena<T>, ops: seq<Op<T>>, key: T)
    requires IsTiled(a) && ops != [] && NonEmptyPayloads(ops)
    requires WellFormed(cfg, Run(cfg, a, ops[..|ops| - 1]))
    requires Lookup(Run(cfg, a, ops[..|ops| - 1]), key) == Kept(cfg, a, ops[..|ops| - 1], key)
    ensures Lookup(Run(cfg, a, ops), key) == Kept(cfg, a, ops, key)
  {
    hide Store, Release, Clean, Lookup;
    var b := Run(cfg, a, ops[..|ops| - 1]);
    match ops[|ops| - 1]
    case StoreOp(k, data, now, evictOk, reportOk) => StoreRecords(cfg, b, k, data, now, evictOk, reportOk, key);
    case ReleaseOp(k) => ReleaseRecords(cfg, b, k, key);
    case CleanOp(now) => CleanRecords(cfg, b, now, key);
  }

  // ----------------------------------------------------------- empty payloads

  lemma {:induction false} EmptyStoreLoop<T>(cfg: Config<T>, a: Arena<T>, key: T, now: Word32,
                                              evictOk: T -> bool, reportOk: bool)
    requires WellFormed(cfg, a)
    requires StoreLoop(cfg, a, key, [], now, evictOk, reportOk).status == Ok
    ensures !Positive(StoreLoop(cfg, a, key, [], now, evictOk, reportOk).arena.spans)
    decreases DroppableSlots(cfg.isCritical, a.slots)
  {
    var placed := Place(cfg, a, key, [], now);
    if placed.0 == Ok {
      var j := FindFreeSpan(a.spans, 0, |a.spans|).value;
      assert a.spans[j].size > 0;
      assert placed.1.spans[j] == Span(a.spans[j].offset, 0, true);
    } else {
      var i := FindOldestDroppable(cfg.isCritical, a.slots, |a.slots|).value;
      ReleaseSlotKeeps(cfg, a, i);
      DroppableSlotsDrops(cfg.isCritical, a.slots, i, a.slots[i].(occupied := false));
      EmptyStoreLoop(cfg, ReleaseSlot(a, i).1, key, now, evictOk, reportOk);
    }
  }

  /** A successful store keeps the arena well formed if and only if the payload is not empty. */
  lemma StoreKeepsIffNonEmpty<T>(cfg: Config<T>, a: Arena<T>, key: T, data: seq<Byte>, now: Word32,
                                 evictOk: T -> bool, reportOk: bool)
    requires WellFormed(cfg, a) && Store(cfg, a, key, data, now, evictOk, reportOk).status == Ok
    ensures WellFormed(cfg, Store(cfg, a, key, data, now, evictOk, reportOk).arena) <==> data != []
  {
    if data == [] {
      EmptyStoreLoop(cfg, a, key, now, evictOk, reportOk);
    } else {
      StoreKeeps(cfg, a, key, data, now, evictOk, reportOk);
    }
  }

  lemma ReleaseBetweenBusy(spans: seq<Span>, i: nat)
    requires i + 1 < |spans| && spans[i + 1].occupied && (i == 0 || spans[i - 1].occupied)
    ensures ReleaseSpan(spans, i) == spans[i := spans[i].(occupied := false)]
  {
  }

  lemma SameOffsetsSameSearch(spans: seq<Span>, other: seq<Span>, offset: nat)
    requires |spans| == |other| && forall k :: 0 <= k < |spans| ==> spans[k].offset == other[k].offset
    ensures FindSpanAt(spans, offset) == FindSpanAt(other, offset)
  {
  }

  /**
   What goes wrong after an empty record: the next record shares its offset, so
   its release finds the empty span first and frees that one instead. The span
   of the second record stays occupied, and the empty record can no longer be
   released.
   */
  lemma SharedOffsetLosesSpan<T>(a: Arena<T>, i: nat, first: nat, second: nat)
    requires IsTiled(a) && first < |a.slots| && second < |a.slots| && first != second
    requires a.slots[first].occupied && a.slots[second].occupied && a.slots[first].offset == a.slots[second].offset
    requires FindSpanAt(a.spans, a.slots[first].offset) == Some(i) && i + 1 < |a.spans|
    requires a.spans[i].occupied && a.spans[i].size == 0 && a.spans[i + 1].occupied
    requires i == 0 || a.spans[i - 1].occupied
    ensures var r := ReleaseSlot(a, second);
      r.0 == Ok && r.1.spans == a.spans[i := a.spans[i].(occupied := false)]
      && ReleaseSlot(r.1, first).0 == InvalidState
  {
    var offset := a.slots[first].offset;
    ReleaseBetweenBusy(a.spans, i);
    var r := ReleaseSlot(a, second).1;
    assert r.slots[first] == a.slots[first];
    SameOffsetsSameSearch(a.spans, r.spans, offset);
  }

  /** Placing an empty record makes its span share the offset of the free span that is left behind it. */
  lemma EmptyStoreSharesOffset<T>(cfg: Config<T>, a: Arena<T>, j: nat, slot: nat, key: T, now: Word32)
    requires WellFormed(cfg, a) && |a.spans| < cfg.spanCount
    requires FindFreeSpan(a.spans, 0, |a.spans|) == Some(j) && FindFreeSlot(a.slots) == Some(slot)
    ensures var r := Place(cfg, a, key, [], now);
      && r.0 == Ok && r.1.slots[slot] == Slot(now, key, a.spans[j].offset, true)
      && r.1.spans[j] == Span(a.spans[j].offset, 0, true)
      && r.1.spans[j + 1] == a.spans[j]
  {
    SpanEndsWithin(a.spans, |a.buffer|, j);
    assert a.spans[j].size > 0;
  }

  lemma EmptyRecordIsFirst<T>(cfg: Config<T>, a: Arena<T>, key: T, now: Word32, evictOk: T -> bool, reportOk: bool)
    requires Initial(cfg, a) && |a.slots| >= 2 && cfg.spanCount >= 2 && IsTiled(a)
    ensures Store(cfg, a, key, [], now, evictOk, reportOk)
         == Stored(Ok, Arena(a.buffer, a.slots[0 := Slot(now, key, 0, true)],
                             [Span(0, 0, true), Span(0, |a.buffer|, false)]), [])
  {
    assert FindFreeSpan(a.spans, 0, 1) == Some(0) && FindFreeSlot(a.slots) == Some(0);
    assert FindRecord(a.slots, key).None?;
    assert OccupySpan(a.spans, 0, 0) == [Span(0, 0, true), Span(0, |a.buffer|, false)];
    assert Overwrite(a.buffer, 0, []) == a.buffer;
  }

  lemma NextRecordSharesOffset<T>(cfg: Config<T>, a: Arena<T>, key: T, data: seq<Byte>, now: Word32,
                                  evictOk: T -> bool, reportOk: bool)
    requires IsTiled(a) && |a.slots| >= 2 && cfg.spanCount >= 3 && 0 < |data| <= |a.buffer|
    requires a.spans == [Span(0, 0, true), Span(0, |a.buffer|, false)]
    requires a.slots[0].occupied && !a.slots[1].occupied && FindRecord(a.slots, key).None?
    ensures var r := Store(cfg, a, key, data, now, evictOk, reportOk);
      && r.status == Ok && r.arena.slots == a.slots[1 := Slot(now, key, 0, true)]
      && |r.arena.spans| >= 2 && r.arena.spans[0] == Span(0, 0, true) && r.arena.spans[1] == Span(0, |data|, true)
  {
    assert FindFreeSpan(a.spans, |data|, 0) == None;
    assert FindFreeSpan(a.spans, |data|, 1) == None;
    assert FindFreeSpan(a.spans, |data|, 2) == Some(1) && FindFreeSlot(a.slots) == Some(1);
    SpanEndsWithin(a.spans, |a.buffer|, 1);
    OccupyKeepsTiling(a.spans, |a.buffer|, 1, |data|);
  }

  /**
   The whole way there, from any fresh arena: store no bytes under one key and some
   under another, release the second, and the first can no longer be released.
   */
  lemma EmptyStoreBlocksRelease<T>(cfg: Config<T>, a: Arena<T>, first: T, second: T, data: seq<Byte>, now: Word32,
                                   later: Word32, evictOk: T -> bool, reportOk: bool)
    requires Initial(cfg, a) && IsTiled(a) && |a.slots| >= 2 && cfg.spanCount >= 3
    requires first != second && 0 < |data| <= |a.buffer|
    ensures var empty := Store(cfg, a, first, [], now, evictOk, reportOk);
      var both := Store(cfg, empty.arena, second, data, later, evictOk, reportOk);
      var released := Release(both.arena, second);
      && empty.status == Ok && both.status == Ok && released.0 == Ok
      && Release(released.1, first).0 == InvalidState
  {
    hide Store, ReleaseSlot;
    EmptyRecordIsFirst(cfg, a, first, now, evictOk, reportOk);
    var one := Store(cfg, a, first, [], now, evictOk, reportOk).arena;
    assert FindRecord(one.slots, second).None?;
    NextRecordSharesOffset(cfg, one, second, data, later, evictOk, reportOk);
    var two := Store(cfg, one, second, data, later, evictOk, reportOk).arena;
    assert FindRecord(two.slots, second) == Some(1) && FindSpanAt(two.spans, 0) == Some(0);
    SharedOffsetLosesSpan(two, 0, 0, 1);
    var r := ReleaseSlot(two, 1).1;
    assert r.slots == two.slots[1 := two.slots[1].(occupied := false)];
    assert FindRecord(r.slots, first) == Some(0);
  }
}
