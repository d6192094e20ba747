/**
 The byte arena as a value: a buffer tiled by spans, and slots that name the
 records held in the occupied spans. The functions below say what each
 operation of the arena does to that value; `ByteArena` carries them out in
 place and is proved equal to them, and `ArenaProofs` proves what they keep.
 */
module ArenaModel {
  import opened Common

  datatype Span = Span(offset: nat, size: nat, occupied: bool)

  datatype Slot<T> = Slot(timestampMs: Word32, stored: T, offset: nat, occupied: bool)

  /** `spans` is the live prefix of the span table. */
  datatype Arena<T> = Arena(buffer: seq<Byte>, slots: seq<Slot<T>>, spans: seq<Span>)

  datatype Config<!T> = Config(spanCount: nat, maxRecordAgeMs: Word32, isCritical: T -> bool)

  datatype Status =
    | Ok
    | InvalidArgument
    | AlreadyExists
    | Backpressure
    | Overflow
    | NotFound
    | InvalidState
    | HookFailed

  /** What a store reports: its status, the arena it leaves, and whom it evicted. */
  datatype Stored<T> = Stored(status: Status, arena: Arena<T>, evicted: seq<T>)

  /** A record as a caller sees it. */
  datatype Record = Record(timestampMs: Word32, data: seq<Byte>)

  // ---------------------------------------------------------------- searches

  predicate Fits(s: Span, size: nat) {
    !s.occupied && s.size >= size
  }

  /** `r` is the first of the smallest free spans among the first `n` that hold `size` bytes. */
  ghost predicate IsBestFit(spans: seq<Span>, size: nat, n: nat, r: Option<nat>)
    requires n <= |spans|
  {
    match r
    case None => forall i :: 0 <= i < n ==> !Fits(spans[i], size)
    case Some(j) =>
      && j < n && Fits(spans[j], size)
      && forall i :: 0 <= i < n && Fits(spans[i], size) ==>
                       if i < j then spans[j].size < spans[i].size else spans[j].size <= spans[i].size
  }

  function FindFreeSpan(spans: seq<Span>, size: nat, n: nat): (r: Option<nat>)
    requires n <= |spans|
    ensures IsBestFit(spans, size, n, r)
  {
    if n == 0 then None
    else
      var best := FindFreeSpan(spans, size, n - 1);
      if Fits(spans[n - 1], size) && (best.None? || spans[n - 1].size < spans[best.value].size)
      then Some(n - 1) else best
  }

  predicate Droppable<T(==)>(isCritical: T -> bool, s: Slot<T>) {
    s.occupied && !isCritical(s.stored)
  }

  /** `r` is the first of the oldest noncritical records among the first `n` slots. */
  ghost predicate IsOldest<T>(isCritical: T -> bool, slots: seq<Slot<T>>, n: nat, r: Option<nat>)
    requires n <= |slots|
  {
    match r
    case None => forall i :: 0 <= i < n ==> !Droppable(isCritical, slots[i])
    case Some(j) =>
      && j < n && Droppable(isCritical, slots[j])
      && forall i :: 0 <= i < n && Droppable(isCritical, slots[i]) ==>
                       if i < j then slots[j].timestampMs < slots[i].timestampMs
                       else slots[j].timestampMs <= slots[i].timestampMs
  }

  function FindOldestDroppable<T(==)>(isCritical: T -> bool, slots: seq<Slot<T>>, n: nat): (r: Option<nat>)
    requires n <= |slots|
    ensures IsOldest(isCritical, slots, n, r)
  {
    if n == 0 then None
    else
      var oldest := FindOldestDroppable(isCritical, slots, n - 1);
      if Droppable(isCritical, slots[n - 1])
         && (oldest.None? || slots[n - 1].timestampMs < slots[oldest.value].timestampMs)
      then Some(n - 1) else oldest
  }

  /** How many noncritical records are held: what the store loop counts down. */
  function DroppableSlots<T(==)>(isCritical: T -> bool, slots: seq<Slot<T>>): (r: nat)
    ensures r <= |slots|
  {
    if slots == [] then 0
    else (if Droppable(isCritical, slots[0]) then 1 else 0) + DroppableSlots(isCritical, slots[1..])
  }

  lemma {:induction false} DroppableSlotsDrops<T>(isCritical: T -> bool, slots: seq<Slot<T>>, i: nat, s: Slot<T>)
    requires i < |slots| && Droppable(isCritical, slots[i]) && !Droppable(isCritical, s)
    ensures DroppableSlots(isCritical, slots[i := s]) == DroppableSlots(isCritical, slots) - 1
  {
    if i == 0 {
      assert slots[i := s][1..] == slots[1..];
    } else {
      assert slots[i := s][1..] == slots[1..][i - 1 := s];
      DroppableSlotsDrops(isCritical, slots[1..], i - 1, s);
    }
  }

  predicate Holds<T(==)>(s: Slot<T>, key: T) {
    s.occupied && s.stored == key
  }

  /** The first slot from `i` on that holds `key`. */
  function FindRecord<T(==)>(slots: seq<Slot<T>>, key: T, i: nat := 0): (r: Option<nat>)
    requires i <= |slots|
    ensures r.None? ==> forall j :: i <= j < |slots| ==> !Holds(slots[j], key)
    ensures r.Some? ==> i <= r.value < |slots| && Holds(slots[r.value], key)
                        && forall j :: i <= j < r.value ==> !Holds(slots[j], key)
    decreases |slots| - i
  {
    if i == |slots| then None
    else if Holds(slots[i], key) then Some(i)
    else FindRecord(slots, key, i + 1)
  }

  /** The first unoccupied slot from `i` on. */
  function FindFreeSlot<T>(slots: seq<Slot<T>>, i: nat := 0): (r: Option<nat>)
    requires i <= |slots|
    ensures r.None? ==> forall j :: i <= j < |slots| ==> slots[j].occupied
    ensures r.Some? ==> i <= r.value < |slots| && !slots[r.value].occupied
                        && forall j :: i <= j < r.value ==> slots[j].occupied
    decreases |slots| - i
  {
    if i == |slots| then None
    else if !slots[i].occupied then Some(i)
    else FindFreeSlot(slots, i + 1)
  }

  /** The first span from `i` on that starts at `offset`. */
  function FindSpanAt(spans: seq<Span>, offset: nat, i: nat := 0): (r: Option<nat>)
    requires i <= |spans|
    ensures r.None? ==> forall j :: i <= j < |spans| ==> spans[j].offset != offset
    ensures r.Some? ==> i <= r.value < |spans| && spans[r.value].offset == offset
                        && forall j :: i <= j < r.value ==> spans[j].offset != offset
    decreases |spans| - i
  {
    if i == |spans| then None
    else if spans[i].offset == offset then Some(i)
    else FindSpanAt(spans, offset, i + 1)
  }

  // -------------------------------------------------------------- span table

  /** `spans` with the `n` entries from `i` on replaced by `middle`. */
  function Splice(spans: seq<Span>, i: nat, n: nat, middle: seq<Span>): seq<Span>
    requires i + n <= |spans|
  {
    spans[..i] + middle + spans[i + n..]
  }

  function End(s: Span): nat {
    s.offset + s.size
  }

  /** Frees span `i` and merges it with the free span that follows it, if any. */
  function FreeAndMergeNext(spans: seq<Span>, i: nat): (r: seq<Span>)
    requires i < |spans|
    ensures |spans| - 1 <= |r| <= |spans| && i < |r|
  {
    if i + 1 < |spans| && !spans[i + 1].occupied then
      Splice(spans, i, 2, [Span(spans[i].offset, spans[i].size + spans[i + 1].size, false)])
    else
      Splice(spans, i, 1, [spans[i].(occupied := false)])
  }

  /** Merges span `i` into the free span before it, if any. */
  function MergePrevious(spans: seq<Span>, i: nat): (r: seq<Span>)
    requires i < |spans|
    ensures |spans| - 1 <= |r| <= |spans|
  {
    if i > 0 && !spans[i - 1].occupied then
      Splice(spans, i - 1, 2, [spans[i - 1].(size := spans[i - 1].size + spans[i].size)])
    else
      spans
  }

  function ReleaseSpan(spans: seq<Span>, i: nat): seq<Span>
    requires i < |spans|
  {
    MergePrevious(FreeAndMergeNext(spans, i), i)
  }

  /** `s` cut into an occupied span of `size` bytes and, if bytes are left over, a free one. */
  function Cut(s: Span, size: nat): seq<Span>
    requires size <= s.size
  {
    if s.size > size then [Span(s.offset, size, true), Span(s.offset + size, s.size - size, false)]
    else [s.(occupied := true)]
  }

  /** Occupies the first `size` bytes of span `i`, leaving the rest as a free span. */
  function OccupySpan(spans: seq<Span>, i: nat, size: nat): seq<Span>
    requires i < |spans| && size <= spans[i].size
  {
    Splice(spans, i, 1, Cut(spans[i], size))
  }

  // --------------------------------------------------------------- operations

  function Overwrite(buffer: seq<Byte>, offset: nat, data: seq<Byte>): (r: seq<Byte>)
    requires offset + |data| <= |buffer|
    ensures |r| == |buffer|
  {
    buffer[..offset] + data + buffer[offset + |data|..]
  }

  function ReleaseSlot<T>(a: Arena<T>, i: nat): (r: (Status, Arena<T>))
    requires IsTiled(a) && i < |a.slots|
    ensures IsTiled(r.1) && |r.1.buffer| == |a.buffer| && |r.1.slots| == |a.slots|
    ensures r.0 != Ok ==> r.1 == a
    ensures r.0 == Ok ==> r.1.slots == a.slots[i := a.slots[i].(occupied := false)]
  {
    if !a.slots[i].occupied then (InvalidState, a)
    else match FindSpanAt(a.spans, a.slots[i].offset)
      case None => (NotFound, a)
      case Some(j) =>
        ReleaseKeepsTiling(a.spans, |a.buffer|, j);
        if !a.spans[j].occupied then (InvalidState, a)
        else (Ok, a.(spans := ReleaseSpan(a.spans, j), slots := a.slots[i := a.slots[i].(occupied := false)]))
  }

  function StoreRecord<T>(cfg: Config<T>, a: Arena<T>, i: nat, slot: nat, key: T, data: seq<Byte>, now: Word32)
    : (Status, Arena<T>)
    requires i < |a.spans| && slot < |a.slots| && End(a.spans[i]) <= |a.buffer|
  {
    var span := a.spans[i];
    if span.size > |data| && |a.spans| >= cfg.spanCount then (Overflow, a)
    else if a.slots[slot].occupied || span.occupied || span.size < |data| then (InvalidState, a)
    else (Ok, Arena(Overwrite(a.buffer, span.offset, data),
                    a.slots[slot := Slot(now, key, span.offset, true)],
                    OccupySpan(a.spans, i, |data|)))
  }

  /** One attempt of the store loop: place the record, or say why not. */
  function Place<T>(cfg: Config<T>, a: Arena<T>, key: T, data: seq<Byte>, now: Word32): (r: (Status, Arena<T>))
    requires IsTiled(a)
    ensures IsTiled(r.1) && |r.1.buffer| == |a.buffer|
    ensures r.0 != Ok ==> r.1 == a
  {
    match (FindFreeSpan(a.spans, |data|, |a.spans|), FindFreeSlot(a.slots))
    case (Some(i), Some(slot)) =>
      SpanEndsWithin(a.spans, |a.buffer|, i);
      OccupyKeepsTiling(a.spans, |a.buffer|, i, |data|);
      StoreRecord(cfg, a, i, slot, key, data, now)
    case _ => (Overflow, a)
  }

  /**
   What the store loop does when the record does not fit: a noncritical record
   is dropped, a critical one evicts the oldest noncritical record, and Ok means
   try again. `evictOk` and `reportOk` are what the configured hooks answer.
   */
  function MakeRoom<T(==)>(cfg: Config<T>, a: Arena<T>, key: T, evictOk: T -> bool, reportOk: bool): (r: Stored<T>)
    requires IsTiled(a)
    ensures IsTiled(r.arena) && |r.arena.buffer| == |a.buffer|
    ensures r.status == Ok ==> DroppableSlots(cfg.isCritical, r.arena.slots) < DroppableSlots(cfg.isCritical, a.slots)
  {
    if !cfg.isCritical(key) then Stored(if reportOk then Backpressure else HookFailed, a, [])
    else match FindOldestDroppable(cfg.isCritical, a.slots, |a.slots|)
      case None => Stored(if reportOk then Overflow else HookFailed, a, [])
      case Some(i) =>
        var victim := a.slots[i].stored;
        var released := ReleaseSlot(a, i);
        DroppableSlotsDrops(cfg.isCritical, a.slots, i, a.slots[i].(occupied := false));
        if released.0 != Ok then Stored(released.0, a, [])
        else Stored(if evictOk(victim) then Ok else HookFailed, released.1, [victim])
  }

  /** The store loop: place the record, making room until it fits or there is none to make. */
  function StoreLoop<T(==)>(cfg: Config<T>, a: Arena<T>, key: T, data: seq<Byte>, now: Word32,
                            evictOk: T -> bool, reportOk: bool): (r: Stored<T>)
    requires IsTiled(a)
    ensures IsTiled(r.arena) && |r.arena.buffer| == |a.buffer|
    decreases DroppableSlots(cfg.isCritical, a.slots)
  {
    var placed := Place(cfg, a, key, data, now);
    if placed.0 != Overflow then Stored(placed.0, placed.1, [])
    else
      var room := MakeRoom(cfg, a, key, evictOk, reportOk);
      if room.status != Ok then room
      else
        var rest := StoreLoop(cfg, room.arena, key, data, now, evictOk, reportOk);
        rest.(evicted := room.evicted + rest.evicted)
  }

  function Store<T(==)>(cfg: Config<T>, a: Arena<T>, key: T, data: seq<Byte>, now: Word32,
                        evictOk: T -> bool, reportOk: bool): (r: Stored<T>)
    requires IsTiled(a)
    ensures IsTiled(r.arena) && |r.arena.buffer| == |a.buffer|
  {
    if |data| > |a.buffer| then Stored(InvalidArgument, a, [])
    else if FindRecord(a.slots, key).Some? then Stored(AlreadyExists, a, [])
    else StoreLoop(cfg, a, key, data, now, evictOk, reportOk)
  }

  function Release<T(==)>(a: Arena<T>, key: T): (r: (Status, Arena<T>))
    requires IsTiled(a)
    ensures IsTiled(r.1) && |r.1.buffer| == |a.buffer|
  {
    match FindRecord(a.slots, key)
    case None => (NotFound, a)
    case Some(i) => ReleaseSlot(a, i)
  }

  /** Releases every record older than `cutoff` in the slots from `i` on. */
  function CleanFrom<T>(a: Arena<T>, cutoff: Word32, i: nat): (r: (Status, Arena<T>))
    requires IsTiled(a) && i <= |a.slots|
    ensures IsTiled(r.1) && |r.1.buffer| == |a.buffer|
    decreases |a.slots| - i
  {
    if i == |a.slots| then (Ok, a)
    else if a.slots[i].occupied && a.slots[i].timestampMs < cutoff then
      var released := ReleaseSlot(a, i);
      if released.0 != Ok then released else CleanFrom(released.1, cutoff, i + 1)
    else CleanFrom(a, cutoff, i + 1)
  }

  /** The cutoff is an unsigned difference, so it wraps when `now` is below the record age. */
  function Clean<T>(cfg: Config<T>, a: Arena<T>, now: Word32): (r: (Status, Arena<T>))
    requires IsTiled(a)
    ensures IsTiled(r.1) && |r.1.buffer| == |a.buffer|
  {
    if cfg.maxRecordAgeMs == 0 then (Ok, a)
    else CleanFrom(a, Sub32(now, cfg.maxRecordAgeMs), 0)
  }

  // ------------------------------------------------------------------- tiling

  /** Span `i` starts where the one before it ends. */
  ghost predicate Abuts(spans: seq<Span>, i: nat)
    requires 0 < i < |spans|
  {
    spans[i].offset == End(spans[i - 1])
  }

  /** The spans cover [0, total) in order, each starting where the one before it ends. */
  ghost predicate Tiles(spans: seq<Span>, total: nat) {
    && |spans| > 0
    && spans[0].offset == 0
    && (forall i :: 0 < i < |spans| ==> Abuts(spans, i))
    && End(spans[|spans| - 1]) == total
  }

  ghost predicate IsTiled<T>(a: Arena<T>) {
    Tiles(a.spans, |a.buffer|)
  }

  lemma {:induction false} SpanEndsWithin(spans: seq<Span>, total: nat, i: nat)
    requires Tiles(spans, total) && i < |spans|
    ensures End(spans[i]) <= total
    decreases |spans| - i
  {
    if i + 1 == |spans| {
    } else {
      SpanEndsWithin(spans, total, i + 1);
      assert Abuts(spans, i + 1);
    }
  }

  /** `middle` runs from where `from` starts to where `to` ends without gaps. */
  ghost predicate Spanning(middle: seq<Span>, from: Span, to: Span) {
    && middle != [] && middle[0].offset == from.offset && End(middle[|middle| - 1]) == End(to)
    && forall i :: 0 < i < |middle| ==> Abuts(middle, i)
  }

  lemma SpliceKeepsTiling(spans: seq<Span>, total: nat, i: nat, n: nat, middle: seq<Span>)
    requires Tiles(spans, total) && 0 < n && i + n <= |spans| && Spanning(middle, spans[i], spans[i + n - 1])
    ensures Tiles(Splice(spans, i, n, middle), total)
  {
    var r := Splice(spans, i, n, middle);
    var m := |middle|;
    forall k | 0 < k < |r| ensures Abuts(r, k) {
      if k < i {
        assert r[k - 1] == spans[k - 1] && r[k] == spans[k] && Abuts(spans, k);
      } else if k == i {
        assert r[k - 1] == spans[k - 1] && r[k] == middle[0] && Abuts(spans, k);
      } else if k < i + m {
        assert r[k - 1] == middle[k - 1 - i] && r[k] == middle[k - i] && Abuts(middle, k - i);
      } else {
        assert r[k] == spans[k - m + n] && Abuts(spans, k - m + n);
        if k > i + m { assert r[k - 1] == spans[k - 1 - m + n]; } else { assert r[k - 1] == middle[m - 1]; }
      }
    }
    assert i + n == |spans| ==> r[|r| - 1] == middle[m - 1];
    assert i + n < |spans| ==> r[|r| - 1] == spans[|spans| - 1];
  }

  lemma OccupyKeepsTiling(spans: seq<Span>, total: nat, i: nat, size: nat)
    requires Tiles(spans, total) && i < |spans| && spans[i].size >= size
    ensures Tiles(OccupySpan(spans, i, size), total)
  {
    var cut := Cut(spans[i], size);
    assert forall k :: 0 < k < |cut| ==> Abuts(cut, k);
    SpliceKeepsTiling(spans, total, i, 1, cut);
  }

  lemma FreeKeepsTiling(spans: seq<Span>, total: nat, i: nat)
    requires Tiles(spans, total) && i < |spans|
    ensures Tiles(FreeAndMergeNext(spans, i), total)
  {
    if i + 1 < |spans| && !spans[i + 1].occupied {
      assert Abuts(spans, i + 1);
      SpliceKeepsTiling(spans, total, i, 2, [Span(spans[i].offset, spans[i].size + spans[i + 1].size, false)]);
    } else {
      SpliceKeepsTiling(spans, total, i, 1, [spans[i].(occupied := false)]);
    }
  }

  lemma ReleaseKeepsTiling(spans: seq<Span>, total: nat, i: nat)
    requires Tiles(spans, total) && i < |spans|
    ensures Tiles(ReleaseSpan(spans, i), total)
  {
    FreeKeepsTiling(spans, total, i);
    var r := FreeAndMergeNext(spans, i);
    if i > 0 && !r[i - 1].occupied {
      assert Abuts(r, i);
      SpliceKeepsTiling(r, total, i - 1, 2, [r[i - 1].(size := r[i - 1].size + r[i].size)]);
    }
  }
}
