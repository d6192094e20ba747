/**
 The store loop under pressure: whom it evicts, when it gives up, what is left,
 and when it cannot fail.
 */
module ArenaStore {
  import opened Common
  import opened ArenaModel
  import opened ArenaProofs

  /** The arena after `k` evictions of the oldest noncritical record. */
  ghost function EvictOldest<T>(cfg: Config<T>, a: Arena<T>, k: nat): (r: Arena<T>)
    requires IsTiled(a)
    ensures IsTiled(r) && |r.buffer| == |a.buffer|
    decreases k
  {
    if k == 0 then a
    else match FindOldestDroppable(cfg.isCritical, a.slots, |a.slots|)
      case None => a
      case Some(i) => EvictOldest(cfg, ReleaseSlot(a, i).1, k - 1)
  }

  /** `key` with `data` can be stored after `k` evictions. */
  ghost predicate FitsAfter<T>(cfg: Config<T>, a: Arena<T>, k: nat, key: T, data: seq<Byte>, now: Word32)
    requires IsTiled(a)
  {
    Place(cfg, EvictOldest(cfg, a, k), key, data, now).0 == Ok
  }

  ghost predicate NewRecord<T>(cfg: Config<T>, a: Arena<T>, key: T, data: seq<Byte>) {
    WellFormed(cfg, a) && data != [] && FindRecord(a.slots, key).None?
  }

  /** Whether a key is held does not depend on other slots that are released. */
  lemma ReleaseKeepsNewRecord<T>(cfg: Config<T>, a: Arena<T>, i: nat, key: T, data: seq<Byte>)
    requires NewRecord(cfg, a, key, data) && i < |a.slots| && a.slots[i].occupied
    ensures ReleaseSlot(a, i).0 == Ok && NewRecord(cfg, ReleaseSlot(a, i).1, key, data)
  {
    ReleaseSlotKeeps(cfg, a, i);
    assert forall k :: 0 <= k < |a.slots| ==> !Holds(a.slots[k], key);
  }

  lemma {:induction false} StoreLoopKeeps<T>(cfg: Config<T>, a: Arena<T>, key: T, data: seq<Byte>, now: Word32,
                                             evictOk: T -> bool, reportOk: bool)
    requires NewRecord(cfg, a, key, data)
    ensures var r := StoreLoop(cfg, a, key, data, now, evictOk, reportOk);
      WellFormed(cfg, r.arena) && r.status in {Ok, Backpressure, Overflow, HookFailed}
    decreases DroppableSlots(cfg.isCritical, a.slots)
  {
    PlaceKeeps(cfg, a, key, data, now);
    if Place(cfg, a, key, data, now).0 == Overflow && cfg.isCritical(key) {
      var oldest := FindOldestDroppable(cfg.isCritical, a.slots, |a.slots|);
      if oldest.Some? {
        ReleaseKeepsNewRecord(cfg, a, oldest.value, key, data);
        if evictOk(a.slots[oldest.value].stored) {
          DroppableSlotsDrops(cfg.isCritical, a.slots, oldest.value, a.slots[oldest.value].(occupied := false));
          StoreLoopKeeps(cfg, ReleaseSlot(a, oldest.value).1, key, data, now, evictOk, reportOk);
        }
      }
    }
  }

  /** Every store of a non-empty payload keeps the arena well formed and meets no impossible state. */
  lemma StoreKeeps<T>(cfg: Config<T>, a: Arena<T>, key: T, data: seq<Byte>, now: Word32,
                      evictOk: T -> bool, reportOk: bool)
    requires WellFormed(cfg, a) && data != []
    ensures var r := Store(cfg, a, key, data, now, evictOk, reportOk);
      WellFormed(cfg, r.arena) && r.status !in {InvalidState, NotFound}
  {
    if |data| <= |a.buffer| && FindRecord(a.slots, key).None? {
      StoreLoopKeeps(cfg, a, key, data, now, evictOk, reportOk);
    }
  }

  lemma {:induction false} StoreLoopRecords<T>(cfg: Config<T>, a: Arena<T>, key: T, data: seq<Byte>, now: Word32,
                                               evictOk: T -> bool, reportOk: bool, other: T)
    requires NewRecord(cfg, a, key, data)
    ensures var r := StoreLoop(cfg, a, key, data, now, evictOk, reportOk);
      Lookup(r.arena, other) == if other == key && r.status == Ok then Some(Record(now, data))
                                else if other in r.evicted then None
                                else Lookup(a, other)
    decreases DroppableSlots(cfg.isCritical, a.slots)
  {
    PlaceKeeps(cfg, a, key, data, now);
    if Place(cfg, a, key, data, now).0 == Ok {
      PlaceRecords(cfg, a, key, data, now, other);
    } else if cfg.isCritical(key) {
      var oldest := FindOldestDroppable(cfg.isCritical, a.slots, |a.slots|);
      if oldest.Some? {
        var i := oldest.value;
        ReleaseKeepsNewRecord(cfg, a, i, key, data);
        ReleaseSlotRecords(cfg, a, i, other);
        if evictOk(a.slots[i].stored) {
          DroppableSlotsDrops(cfg.isCritical, a.slots, i, a.slots[i].(occupied := false));
          StoreLoopRecords(cfg, ReleaseSlot(a, i).1, key, data, now, evictOk, reportOk, other);
        }
      }
    }
  }

  /** A store adds its record if it succeeds, removes the records it evicted, and touches no other. */
  lemma StoreRecords<T>(cfg: Config<T>, a: Arena<T>, key: T, data: seq<Byte>, now: Word32,
                        evictOk: T -> bool, reportOk: bool, other: T)
    requires WellFormed(cfg, a) && data != []
    ensures var r := Store(cfg, a, key, data, now, evictOk, reportOk);
      Lookup(r.arena, other) == if other == key && r.status == Ok then Some(Record(now, data))
                                else if other in r.evicted then None
                                else Lookup(a, other)
  {
    if |data| <= |a.buffer| && FindRecord(a.slots, key).None? {
      StoreLoopRecords(cfg, a, key, data, now, evictOk, reportOk, other);
    }
  }

  // ---------------------------------------------------------------- eviction

  /** A noncritical record never displaces another: unless stored, it leaves the arena as it was. */
  lemma NoncriticalChangesNothing<T>(cfg: Config<T>, a: Arena<T>, key: T, data: seq<Byte>, now: Word32,
                                     evictOk: T -> bool, reportOk: bool)
    requires WellFormed(cfg, a) && data != [] && !cfg.isCritical(key)
    ensures var r := Store(cfg, a, key, data, now, evictOk, reportOk);
      && r.evicted == []
      && (r.status != Ok ==> r.arena == a)
      && (r.status == Ok <==> |data| <= |a.buffer| && FindRecord(a.slots, key).None?
                              && Place(cfg, a, key, data, now).0 == Ok)
  {
    if FindRecord(a.slots, key).None? {
      PlaceKeeps(cfg, a, key, data, now);
    }
  }

  /** What the evictions of a store promise about the arena they started from. */
  ghost predicate OldestNoncritical<T>(cfg: Config<T>, a: Arena<T>, evicted: seq<T>)
    requires IsTiled(a)
  {
    && (forall i :: 0 <= i < |evicted| ==> !cfg.isCritical(evicted[i]) && Lookup(a, evicted[i]).Some?)
    && (forall i, j :: 0 <= i < j < |evicted| && Lookup(a, evicted[i]).Some? && Lookup(a, evicted[j]).Some? ==>
                         evicted[i] != evicted[j]
                         && Lookup(a, evicted[i]).value.timestampMs <= Lookup(a, evicted[j]).value.timestampMs)
  }

  /** No noncritical record that is held and was spared is older than an evicted one. */
  ghost predicate SparesYounger<T>(cfg: Config<T>, a: Arena<T>, evicted: seq<T>, other: T)
    requires IsTiled(a)
  {
    !cfg.isCritical(other) && Lookup(a, other).Some? && other !in evicted ==>
      forall i :: 0 <= i < |evicted| && Lookup(a, evicted[i]).Some? ==>
                    Lookup(a, evicted[i]).value.timestampMs <= Lookup(a, other).value.timestampMs
  }

  /** The oldest droppable slot is no younger than any noncritical record held. */
  lemma OldestSlotIsOldest<T>(cfg: Config<T>, a: Arena<T>, other: T)
    requires WellFormed(cfg, a) && FindOldestDroppable(cfg.isCritical, a.slots, |a.slots|).Some?
    ensures var s := a.slots[FindOldestDroppable(cfg.isCritical, a.slots, |a.slots|).value];
      && Lookup(a, s.stored).Some? && !cfg.isCritical(s.stored)
      && Lookup(a, s.stored).value.timestampMs == s.timestampMs
      && (Lookup(a, other).Some? && !cfg.isCritical(other) ==> s.timestampMs <= Lookup(a, other).value.timestampMs)
  {
    var i := FindOldestDroppable(cfg.isCritical, a.slots, |a.slots|).value;
    LookupOfSlot(a, i);
    var found := FindRecord(a.slots, other);
    if found.Some? && !cfg.isCritical(other) {
      assert Droppable(cfg.isCritical, a.slots[found.value]);
    }
  }

  /** The next victim of the store loop, and the arena without it. */
  ghost predicate NextVictim<T>(cfg: Config<T>, a: Arena<T>, i: nat, rest: Arena<T>) {
    && WellFormed(cfg, a) && FindOldestDroppable(cfg.isCritical, a.slots, |a.slots|) == Some(i)
    && rest == ReleaseSlot(a, i).1 && WellFormed(cfg, rest)
  }

  /** A noncritical record still held after an eviction was held before, and is no older than the victim. */
  lemma VictimIsOldest<T>(cfg: Config<T>, a: Arena<T>, i: nat, rest: Arena<T>, x: T)
    requires NextVictim(cfg, a, i, rest)
    requires Lookup(rest, x).Some? && !cfg.isCritical(x)
    ensures Lookup(a, x) == Lookup(rest, x) && x != a.slots[i].stored && Lookup(a, a.slots[i].stored).Some?
    ensures Lookup(a, a.slots[i].stored).value.timestampMs <= Lookup(a, x).value.timestampMs
  {
    ReleaseSlotRecords(cfg, a, i, x);
    OldestSlotIsOldest(cfg, a, x);
  }

  lemma VictimComesFirst<T>(cfg: Config<T>, a: Arena<T>, i: nat, rest: Arena<T>, later: seq<T>)
    requires NextVictim(cfg, a, i, rest) && OldestNoncritical(cfg, rest, later)
    ensures OldestNoncritical(cfg, a, [a.slots[i].stored] + later)
  {
    hide Lookup, Matched;
    OldestSlotIsOldest(cfg, a, a.slots[i].stored);
    forall k | 0 <= k < |later|
      ensures Lookup(a, later[k]) == Lookup(rest, later[k]) && later[k] != a.slots[i].stored
      ensures Lookup(a, a.slots[i].stored).value.timestampMs <= Lookup(a, later[k]).value.timestampMs
    {
      VictimIsOldest(cfg, a, i, rest, later[k]);
    }
  }

  lemma VictimSparesYounger<T>(cfg: Config<T>, a: Arena<T>, i: nat, rest: Arena<T>, later: seq<T>, other: T)
    requires NextVictim(cfg, a, i, rest) && OldestNoncritical(cfg, rest, later)
             && SparesYounger(cfg, rest, later, other)
    ensures SparesYounger(cfg, a, [a.slots[i].stored] + later, other)
  {
    var victim := a.slots[i].stored;
    if !cfg.isCritical(other) && Lookup(a, other).Some? && other !in [victim] + later {
      assert other != victim && other !in later by { assert ([victim] + later)[0] == victim; }
      ReleaseSlotRecords(cfg, a, i, other);
      OldestSlotIsOldest(cfg, a, other);
      forall k | 0 <= k < |later| ensures Lookup(a, later[k]) == Lookup(rest, later[k]) {
        VictimIsOldest(cfg, a, i, rest, later[k]);
      }
    }
  }

  lemma {:induction false} StoreLoopEvicts<T>(cfg: Config<T>, a: Arena<T>, key: T, data: seq<Byte>, now: Word32,
                                              evictOk: T -> bool, reportOk: bool, other: T)
    requires NewRecord(cfg, a, key, data)
    ensures var r := StoreLoop(cfg, a, key, data, now, evictOk, reportOk);
      OldestNoncritical(cfg, a, r.evicted) && SparesYounger(cfg, a, r.evicted, other)
    decreases DroppableSlots(cfg.isCritical, a.slots)
  {
    hide Lookup, Matched;
    PlaceKeeps(cfg, a, key, data, now);
    var oldest := FindOldestDroppable(cfg.isCritical, a.slots, |a.slots|);
    if Place(cfg, a, key, data, now).0 == Overflow && cfg.isCritical(key) && oldest.Some? {
      var i := oldest.value;
      var rest := ReleaseSlot(a, i).1;
      ReleaseKeepsNewRecord(cfg, a, i, key, data);
      var later := [];
      if evictOk(a.slots[i].stored) {
        DroppableSlotsDrops(cfg.isCritical, a.slots, i, a.slots[i].(occupied := false));
        StoreLoopEvicts(cfg, rest, key, data, now, evictOk, reportOk, other);
        later := StoreLoop(cfg, rest, key, data, now, evictOk, reportOk).evicted;
      }
      assert StoreLoop(cfg, a, key, data, now, evictOk, reportOk).evicted == [a.slots[i].stored] + later;
      VictimComesFirst(cfg, a, i, rest, later);
      VictimSparesYounger(cfg, a, i, rest, later, other);
    }
  }

  /**
   Evictions take noncritical records only, each once, oldest first, and no
   noncritical record older than an evicted one is spared.
   */
  lemma StoreEvictsOldest<T>(cfg: Config<T>, a: Arena<T>, key: T, data: seq<Byte>, now: Word32,
                             evictOk: T -> bool, reportOk: bool, other: T)
    requires WellFormed(cfg, a) && data != []
    ensures var r := Store(cfg, a, key, data, now, evictOk, reportOk);
      && OldestNoncritical(cfg, a, r.evicted) && SparesYounger(cfg, a, r.evicted, other)
      && (r.evicted != [] ==> cfg.isCritical(key))
  {
    if |data| <= |a.buffer| && FindRecord(a.slots, key).None? {
      StoreLoopEvicts(cfg, a, key, data, now, evictOk, reportOk, other);
    }
  }

  /** What the evictions of a store loop promise about whether the record fits. */
  ghost predicate StopsAtFirstFit<T>(cfg: Config<T>, a: Arena<T>, key: T, data: seq<Byte>, now: Word32, r: Stored<T>)
    requires IsTiled(a)
  {
    var last := EvictOldest(cfg, a, |r.evicted|);
    && (forall k :: 0 <= k < |r.evicted| ==> !FitsAfter(cfg, a, k, key, data, now))
    && (if r.status == Ok
        then FitsAfter(cfg, a, |r.evicted|, key, data, now) && r.arena == Place(cfg, last, key, data, now).1
        else r.arena == last)
  }

  lemma EvictOneMore<T>(cfg: Config<T>, a: Arena<T>, i: nat, k: nat)
    requires IsTiled(a) && FindOldestDroppable(cfg.isCritical, a.slots, |a.slots|) == Some(i)
    ensures EvictOldest(cfg, a, k + 1) == EvictOldest(cfg, ReleaseSlot(a, i).1, k)
  {
  }

  /** One more eviction in front. */
  lemma FirstFitOneEarlier<T>(cfg: Config<T>, a: Arena<T>, i: nat, key: T, data: seq<Byte>, now: Word32,
                              later: Stored<T>, r: Stored<T>)
    requires IsTiled(a) && FindOldestDroppable(cfg.isCritical, a.slots, |a.slots|) == Some(i)
    requires Place(cfg, a, key, data, now).0 != Ok
    requires StopsAtFirstFit(cfg, ReleaseSlot(a, i).1, key, data, now, later)
    requires r.status == later.status && r.arena == later.arena && |r.evicted| == |later.evicted| + 1
    ensures StopsAtFirstFit(cfg, a, key, data, now, r)
  {
    EvictOneMore(cfg, a, i, |later.evicted|);
    forall k | 0 <= k < |r.evicted| ensures !FitsAfter(cfg, a, k, key, data, now) {
      if k == 0 {
        assert EvictOldest(cfg, a, 0) == a;
      } else {
        EvictOneMore(cfg, a, i, k - 1);
        assert !FitsAfter(cfg, ReleaseSlot(a, i).1, k - 1, key, data, now);
      }
    }
  }

  lemma {:induction false} StoreLoopFits<T>(cfg: Config<T>, a: Arena<T>, key: T, data: seq<Byte>, now: Word32,
                                            evictOk: T -> bool, reportOk: bool)
    requires NewRecord(cfg, a, key, data)
    ensures var r := StoreLoop(cfg, a, key, data, now, evictOk, reportOk);
      && StopsAtFirstFit(cfg, a, key, data, now, r)
      && (r.status == Overflow ==> cfg.isCritical(key) && NoneDroppable(cfg, r.arena))
    decreases DroppableSlots(cfg.isCritical, a.slots)
  {
    PlaceKeeps(cfg, a, key, data, now);
    assert EvictOldest(cfg, a, 0) == a;
    var oldest := FindOldestDroppable(cfg.isCritical, a.slots, |a.slots|);
    if Place(cfg, a, key, data, now).0 == Overflow && cfg.isCritical(key) && oldest.Some? {
      var i := oldest.value;
      var rest := ReleaseSlot(a, i).1;
      ReleaseKeepsNewRecord(cfg, a, i, key, data);
      var later := Stored(HookFailed, rest, []);
      assert EvictOldest(cfg, rest, 0) == rest;
      if evictOk(a.slots[i].stored) {
        DroppableSlotsDrops(cfg.isCritical, a.slots, i, a.slots[i].(occupied := false));
        StoreLoopFits(cfg, rest, key, data, now, evictOk, reportOk);
        later := StoreLoop(cfg, rest, key, data, now, evictOk, reportOk);
      }
      FirstFitOneEarlier(cfg, a, i, key, data, now, later,
                         StoreLoop(cfg, a, key, data, now, evictOk, reportOk));
    }
  }

  ghost predicate NoneDroppable<T>(cfg: Config<T>, a: Arena<T>) {
    forall i :: 0 <= i < |a.slots| ==> !Droppable(cfg.isCritical, a.slots[i])
  }

  /** Evictions stop at the first arena the record fits in; without success nothing else has changed. */
  lemma StoreEvictsOnlyWhileFull<T>(cfg: Config<T>, a: Arena<T>, key: T, data: seq<Byte>, now: Word32,
                                    evictOk: T -> bool, reportOk: bool)
    requires WellFormed(cfg, a) && data != []
    ensures StopsAtFirstFit(cfg, a, key, data, now, Store(cfg, a, key, data, now, evictOk, reportOk))
  {
    assert EvictOldest(cfg, a, 0) == a;
    if |data| <= |a.buffer| && FindRecord(a.slots, key).None? {
      StoreLoopFits(cfg, a, key, data, now, evictOk, reportOk);
    }
  }

  /** What the hook that reports a rejection answers decides the status only: not the arena, and not the evictions. */
  function Reported<T>(r: Stored<T>, reportOk: bool): Stored<T> {
    if !reportOk && (r.status == Backpressure || r.status == Overflow) then r.(status := HookFailed) else r
  }

  lemma {:induction false} StoreLoopReports<T>(cfg: Config<T>, a: Arena<T>, key: T, data: seq<Byte>, now: Word32,
                                               evictOk: T -> bool, reportOk: bool)
    requires IsTiled(a)
    ensures StoreLoop(cfg, a, key, data, now, evictOk, reportOk)
         == Reported(StoreLoop(cfg, a, key, data, now, evictOk, true), reportOk)
    decreases DroppableSlots(cfg.isCritical, a.slots)
  {
    hide Place, MakeRoom;
    PlaceStatus(cfg, a, key, data, now);
    MakeRoomReports(cfg, a, key, evictOk, reportOk);
    var room := MakeRoom(cfg, a, key, evictOk, true);
    if Place(cfg, a, key, data, now).0 == Overflow && room.status == Ok {
      StoreLoopReports(cfg, room.arena, key, data, now, evictOk, reportOk);
    }
  }

  lemma PlaceStatus<T>(cfg: Config<T>, a: Arena<T>, key: T, data: seq<Byte>, now: Word32)
    requires IsTiled(a)
    ensures Place(cfg, a, key, data, now).0 in {Ok, Overflow, InvalidState}
  {
    var i := FindFreeSpan(a.spans, |data|, |a.spans|);
    if i.Some? {
      SpanEndsWithin(a.spans, |a.buffer|, i.value);
    }
  }

  lemma MakeRoomReports<T>(cfg: Config<T>, a: Arena<T>, key: T, evictOk: T -> bool, reportOk: bool)
    requires IsTiled(a)
    ensures MakeRoom(cfg, a, key, evictOk, reportOk) == Reported(MakeRoom(cfg, a, key, evictOk, true), reportOk)
  {
    var oldest := FindOldestDroppable(cfg.isCritical, a.slots, |a.slots|);
    if oldest.Some? {
      DroppableSlotsDrops(cfg.isCritical, a.slots, oldest.value, a.slots[oldest.value].(occupied := false));
    }
  }

  lemma StoreReports<T>(cfg: Config<T>, a: Arena<T>, key: T, data: seq<Byte>, now: Word32, evictOk: T -> bool,
                        reportOk: bool)
    requires IsTiled(a)
    ensures Store(cfg, a, key, data, now, evictOk, reportOk)
         == Reported(Store(cfg, a, key, data, now, evictOk, true), reportOk)
  {
    hide StoreLoop;
    StoreLoopReports(cfg, a, key, data, now, evictOk, reportOk);
  }

  /** A rejected critical store leaves exactly the critical records, also when the hook that reports the rejection
      fails. */
  lemma RejectionLeavesCritical<T>(cfg: Config<T>, a: Arena<T>, key: T, data: seq<Byte>, now: Word32,
                                   evictOk: T -> bool, reportOk: bool, other: T)
    requires WellFormed(cfg, a) && data != []
    requires Store(cfg, a, key, data, now, evictOk, true).status == Overflow
    ensures var r := Store(cfg, a, key, data, now, evictOk, reportOk);
      && r.status == (if reportOk then Overflow else HookFailed) && cfg.isCritical(key)
      && Lookup(r.arena, other) == if cfg.isCritical(other) then Lookup(a, other) else None
  {
    var r := Store(cfg, a, key, data, now, evictOk, true);
    StoreReports(cfg, a, key, data, now, evictOk, reportOk);
    StoreLoopFits(cfg, a, key, data, now, evictOk, true);
    StoreRecords(cfg, a, key, data, now, evictOk, true, other);
    StoreEvictsOldest(cfg, a, key, data, now, evictOk, true, other);
    var found := FindRecord(r.arena.slots, other);
    assert found.Some? ==> !Droppable(cfg.isCritical, r.arena.slots[found.value]);
  }

  // ------------------------------------------------------------- the statuses

  /** A slot is free, and a free span has the size, or is larger and the span table can take the rest of it. */
  ghost predicate HasRoom<T>(cfg: Config<T>, a: Arena<T>, size: nat) {
    && (exists i :: 0 <= i < |a.slots| && !a.slots[i].occupied)
    && ((exists s :: s in a.spans && !s.occupied && s.size == size)
        || (|a.spans| < cfg.spanCount && exists s :: s in a.spans && !s.occupied && s.size > size))
  }

  /** A record is placed exactly when there is room for it, and overflows otherwise. */
  lemma PlaceExactly<T>(cfg: Config<T>, a: Arena<T>, key: T, data: seq<Byte>, now: Word32)
    requires WellFormed(cfg, a) && data != [] && FindRecord(a.slots, key).None?
    ensures Place(cfg, a, key, data, now).0 == if HasRoom(cfg, a, |data|) then Ok else Overflow
  {
    PlaceKeeps(cfg, a, key, data, now);
    var i := FindFreeSpan(a.spans, |data|, |a.spans|);
    if i.Some? {
      assert a.spans[i.value] in a.spans;
    }
    if s :| s in a.spans && !s.occupied && s.size >= |data| {
      var j :| 0 <= j < |a.spans| && a.spans[j] == s;
      assert ArenaModel.Fits(a.spans[j], |data|);
    }
  }

  /** The record that would be evicted after `j` evictions, if one is left. */
  ghost function VictimAt<T>(cfg: Config<T>, a: Arena<T>, j: nat): Option<T>
    requires IsTiled(a)
  {
    var left := EvictOldest(cfg, a, j);
    match FindOldestDroppable(cfg.isCritical, left.slots, |left.slots|)
    case None => None
    case Some(i) => Some(left.slots[i].stored)
  }

  ghost predicate HookFailsAt<T>(cfg: Config<T>, a: Arena<T>, j: nat, evictOk: T -> bool)
    requires IsTiled(a)
  {
    VictimAt(cfg, a, j).Some? && !evictOk(VictimAt(cfg, a, j).value)
  }

  /** The record fits after `k` evictions, whose hooks all answer well. */
  ghost predicate RoomAfter<T>(cfg: Config<T>, a: Arena<T>, k: nat, key: T, data: seq<Byte>, now: Word32,
                               evictOk: T -> bool)
    requires IsTiled(a)
  {
    FitsAfter(cfg, a, k, key, data, now) && forall j: nat :: j < k ==> !HookFailsAt(cfg, a, j, evictOk)
  }

  /** What a critical store answers, told from the arenas that evictions would lead to. */
  ghost predicate CriticalStatus<T>(cfg: Config<T>, a: Arena<T>, key: T, data: seq<Byte>, now: Word32,
                                    evictOk: T -> bool, reportOk: bool, status: Status)
    requires IsTiled(a)
  {
    && (status == Ok <==> exists k: nat :: RoomAfter(cfg, a, k, key, data, now, evictOk))
    && (status != Ok ==>
          status == if (exists j: nat :: HookFailsAt(cfg, a, j, evictOk)) || !reportOk then HookFailed else Overflow)
  }

  /** The arena `a` needs one more eviction than `rest` for everything, and none of it happens before that. */
  ghost predicate Later<T>(cfg: Config<T>, a: Arena<T>, rest: Arena<T>, key: T, data: seq<Byte>, now: Word32,
                           evictOk: T -> bool)
    requires IsTiled(a) && IsTiled(rest)
  {
    && !FitsAfter(cfg, a, 0, key, data, now) && !HookFailsAt(cfg, a, 0, evictOk)
    && (forall k: nat :: FitsAfter(cfg, rest, k, key, data, now) == FitsAfter(cfg, a, k + 1, key, data, now))
    && (forall k: nat :: HookFailsAt(cfg, rest, k, evictOk) == HookFailsAt(cfg, a, k + 1, evictOk))
  }

  lemma EvictionIsLater<T>(cfg: Config<T>, a: Arena<T>, i: nat, key: T, data: seq<Byte>, now: Word32,
                           evictOk: T -> bool)
    requires IsTiled(a) && FindOldestDroppable(cfg.isCritical, a.slots, |a.slots|) == Some(i)
    requires Place(cfg, a, key, data, now).0 != Ok && evictOk(a.slots[i].stored)
    ensures Later(cfg, a, ReleaseSlot(a, i).1, key, data, now, evictOk)
  {
    var rest := ReleaseSlot(a, i).1;
    assert EvictOldest(cfg, a, 0) == a;
    forall k: nat
      ensures FitsAfter(cfg, rest, k, key, data, now) == FitsAfter(cfg, a, k + 1, key, data, now)
      ensures HookFailsAt(cfg, rest, k, evictOk) == HookFailsAt(cfg, a, k + 1, evictOk)
    {
      EvictOneMore(cfg, a, i, k);
    }
  }

  lemma RoomLater<T>(cfg: Config<T>, a: Arena<T>, rest: Arena<T>, k: nat, key: T, data: seq<Byte>, now: Word32,
                     evictOk: T -> bool)
    requires IsTiled(a) && IsTiled(rest) && Later(cfg, a, rest, key, data, now, evictOk)
    ensures RoomAfter(cfg, rest, k, key, data, now, evictOk) == RoomAfter(cfg, a, k + 1, key, data, now, evictOk)
  {
    hide FitsAfter, HookFailsAt;
    if RoomAfter(cfg, rest, k, key, data, now, evictOk) {
      forall j: nat | j < k + 1 ensures !HookFailsAt(cfg, a, j, evictOk) {
        assert j > 0 ==> HookFailsAt(cfg, rest, j - 1, evictOk) == HookFailsAt(cfg, a, j, evictOk);
      }
    }
  }

  lemma SomeRoomLater<T>(cfg: Config<T>, a: Arena<T>, rest: Arena<T>, key: T, data: seq<Byte>, now: Word32,
                         evictOk: T -> bool)
    requires IsTiled(a) && IsTiled(rest) && Later(cfg, a, rest, key, data, now, evictOk)
    ensures (exists k: nat :: RoomAfter(cfg, rest, k, key, data, now, evictOk))
        <==> exists k: nat :: RoomAfter(cfg, a, k, key, data, now, evictOk)
  {
    if k: nat :| RoomAfter(cfg, a, k, key, data, now, evictOk) {
      assert k > 0;
      hide *;
      RoomLater(cfg, a, rest, k - 1, key, data, now, evictOk);
    }
    hide *;
    if k: nat :| RoomAfter(cfg, rest, k, key, data, now, evictOk) {
      RoomLater(cfg, a, rest, k, key, data, now, evictOk);
    }
  }

  lemma SomeHookFailsLater<T>(cfg: Config<T>, a: Arena<T>, rest: Arena<T>, key: T, data: seq<Byte>, now: Word32,
                              evictOk: T -> bool)
    requires IsTiled(a) && IsTiled(rest) && Later(cfg, a, rest, key, data, now, evictOk)
    ensures (exists j: nat :: HookFailsAt(cfg, rest, j, evictOk))
        <==> exists j: nat :: HookFailsAt(cfg, a, j, evictOk)
  {
    hide FitsAfter, HookFailsAt;
    if j: nat :| HookFailsAt(cfg, a, j, evictOk) {
      assert j > 0 && HookFailsAt(cfg, rest, j - 1, evictOk);
    }
    if j: nat :| HookFailsAt(cfg, rest, j, evictOk) {
      assert HookFailsAt(cfg, a, j + 1, evictOk);
    }
  }

  /** The status after the first eviction is the status from the arena it leads to. */
  lemma StatusLater<T>(cfg: Config<T>, a: Arena<T>, rest: Arena<T>, key: T, data: seq<Byte>, now: Word32,
                       evictOk: T -> bool, reportOk: bool, status: Status)
    requires IsTiled(a) && IsTiled(rest) && Later(cfg, a, rest, key, data, now, evictOk)
    requires CriticalStatus(cfg, rest, key, data, now, evictOk, reportOk, status)
    ensures CriticalStatus(cfg, a, key, data, now, evictOk, reportOk, status)
  {
    SomeRoomLater(cfg, a, rest, key, data, now, evictOk);
    SomeHookFailsLater(cfg, a, rest, key, data, now, evictOk);
    hide FitsAfter, HookFailsAt, RoomAfter, Later;
  }

  /** Nothing left to evict: nothing ever changes, and no hook is asked. */
  lemma {:induction false} NothingToEvict<T>(cfg: Config<T>, a: Arena<T>, k: nat)
    requires IsTiled(a) && FindOldestDroppable(cfg.isCritical, a.slots, |a.slots|).None?
    ensures EvictOldest(cfg, a, k) == a && VictimAt(cfg, a, k).None?
  {
  }

  lemma {:induction false} CriticalLoopStatus<T>(cfg: Config<T>, a: Arena<T>, key: T, data: seq<Byte>, now: Word32,
                                                 evictOk: T -> bool, reportOk: bool)
    requires NewRecord(cfg, a, key, data) && cfg.isCritical(key)
    ensures CriticalStatus(cfg, a, key, data, now, evictOk, reportOk,
                           StoreLoop(cfg, a, key, data, now, evictOk, reportOk).status)
    decreases DroppableSlots(cfg.isCritical, a.slots)
  {
    PlaceKeeps(cfg, a, key, data, now);
    assert EvictOldest(cfg, a, 0) == a;
    var oldest := FindOldestDroppable(cfg.isCritical, a.slots, |a.slots|);
    if Place(cfg, a, key, data, now).0 == Ok {
      assert RoomAfter(cfg, a, 0, key, data, now, evictOk);
    } else if oldest.None? {
      forall k: nat ensures EvictOldest(cfg, a, k) == a && VictimAt(cfg, a, k).None? {
        NothingToEvict(cfg, a, k);
      }
    } else {
      var i := oldest.value;
      var rest := ReleaseSlot(a, i).1;
      ReleaseKeepsNewRecord(cfg, a, i, key, data);
      if evictOk(a.slots[i].stored) {
        DroppableSlotsDrops(cfg.isCritical, a.slots, i, a.slots[i].(occupied := false));
        CriticalLoopStatus(cfg, rest, key, data, now, evictOk, reportOk);
        EvictionIsLater(cfg, a, i, key, data, now, evictOk);
        StatusLater(cfg, a, rest, key, data, now, evictOk, reportOk,
                    StoreLoop(cfg, rest, key, data, now, evictOk, reportOk).status);
      } else {
        assert HookFailsAt(cfg, a, 0, evictOk) && !FitsAfter(cfg, a, 0, key, data, now);
      }
    }
  }

  /**
   The status of a store, from the arena and the arguments alone: too large, held
   already, placed, dropped, or rejected for want of anything to evict. A failing
   hook shows wherever it is asked.
   */
  lemma StoreStatus<T>(cfg: Config<T>, a: Arena<T>, key: T, data: seq<Byte>, now: Word32,
                       evictOk: T -> bool, reportOk: bool)
    requires WellFormed(cfg, a) && data != []
    ensures var status := Store(cfg, a, key, data, now, evictOk, reportOk).status;
      if |data| > |a.buffer| then status == InvalidArgument
      else if Lookup(a, key).Some? then status == AlreadyExists
      else if cfg.isCritical(key) then CriticalStatus(cfg, a, key, data, now, evictOk, reportOk, status)
      else status == if FitsAfter(cfg, a, 0, key, data, now) then Ok else if reportOk then Backpressure else HookFailed
  {
    assert EvictOldest(cfg, a, 0) == a;
    assert Lookup(a, key).Some? == FindRecord(a.slots, key).Some?;
    if |data| <= |a.buffer| && Lookup(a, key).None? {
      if cfg.isCritical(key) {
        CriticalLoopStatus(cfg, a, key, data, now, evictOk, reportOk);
      } else {
        PlaceKeeps(cfg, a, key, data, now);
      }
    }
  }

  /** While all hooks answer well, a critical store is rejected exactly if no number of evictions makes room. */
  lemma CriticalStoreRejected<T>(cfg: Config<T>, a: Arena<T>, key: T, data: seq<Byte>, now: Word32,
                                 evictOk: T -> bool)
    requires NewRecord(cfg, a, key, data) && |data| <= |a.buffer| && cfg.isCritical(key) && forall k :: evictOk(k)
    ensures Store(cfg, a, key, data, now, evictOk, true).status
         == if exists k: nat :: FitsAfter(cfg, a, k, key, data, now) then Ok else Overflow
  {
    StoreStatus(cfg, a, key, data, now, evictOk, true);
    if k: nat :| FitsAfter(cfg, a, k, key, data, now) {
      assert RoomAfter(cfg, a, k, key, data, now, evictOk);
    }
  }
}
