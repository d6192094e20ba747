/**
 The slotted map as a value: a dense array of slots and an open-addressed index
 over it. Its contents are the dense slots in order; read as a finite map, every
 operation is the map operation of the same name, and the index never lets one
 down: no operation can find it corrupt or full.
 */
module SlottedModel {
  import opened Common
  import opened SlottedIndex

  datatype Slot<K, V> = Slot(key: K, entry: V)

  /** `Corrupt` stands for the ABORT branches of the code. */
  datatype Status = Ok | NotFound | AlreadyExists | OutOfMemory | Corrupt

  datatype Table<K, V> = Table(slots: seq<Slot<K, V>>, index: seq<IndexSlot>, size: nat)

  // --------------------------------------------------------- dense contents

  ghost predicate UniqueKeys<K, V>(s: seq<Slot<K, V>>) {
    forall i, j :: 0 <= i < j < |s| ==> s[i].key != s[j].key
  }

  /** The finite map that dense slots stand for. */
  ghost function ToMap<K, V>(s: seq<Slot<K, V>>): (m: map<K, V>)
    ensures forall i :: 0 <= i < |s| ==> s[i].key in m
    ensures forall k :: k in m ==> exists i :: 0 <= i < |s| && s[i].key == k
  {
    if s == [] then map[] else ToMap(s[..|s| - 1])[s[|s| - 1].key := s[|s| - 1].entry]
  }

  /** With unique keys the map gives each slot's entry ... */
  lemma {:induction false} MapOfSlot<K, V>(s: seq<Slot<K, V>>, x: Slot<K, V>)
    requires UniqueKeys(s) && x in s
    ensures x.key in ToMap(s) && ToMap(s)[x.key] == x.entry
  {
    var front, last := s[..|s| - 1], s[|s| - 1];
    assert s == front + [last];
    if x == last {
    } else {
      MapOfSlot(front, x);
      var i :| 0 <= i < |front| && front[i] == x;
      assert s[i] == x;
    }
  }

  /** ... and nothing else. */
  lemma SlotOfMap<K, V>(s: seq<Slot<K, V>>, k: K) returns (x: Slot<K, V>)
    requires UniqueKeys(s) && k in ToMap(s)
    ensures x in s && x.key == k && ToMap(s)[k] == x.entry
  {
    var i :| 0 <= i < |s| && s[i].key == k;
    x := s[i];
    MapOfSlot(s, x);
  }

  /** Swap-with-last removal of the slot at `i`. */
  function RemoveAt<X>(s: seq<X>, i: nat): (r: seq<X>)
    requires i < |s|
    ensures |r| == |s| - 1
  {
    s[i := s[|s| - 1]][..|s| - 1]
  }

  /** It drops that slot and no other, and keeps keys unique. */
  lemma RemoveAtDrops<K, V>(s: seq<Slot<K, V>>, i: nat)
    requires UniqueKeys(s) && i < |s|
    ensures UniqueKeys(RemoveAt(s, i))
    ensures forall x :: x in RemoveAt(s, i) <==> x in s && x != s[i]
  {
    var r := RemoveAt(s, i);
    forall x | x in s && x != s[i] ensures x in r {
      var j :| 0 <= j < |s| && s[j] == x;
      assert j < |s| - 1 ==> r[j] == x;
      assert j == |s| - 1 ==> r[i] == x;
    }
  }

  /** Read as a map, swap-with-last removal removes the key. */
  lemma RemoveAtIsRemove<K, V>(s: seq<Slot<K, V>>, i: nat)
    requires UniqueKeys(s) && i < |s|
    ensures ToMap(RemoveAt(s, i)) == ToMap(s) - {s[i].key}
  {
    hide ToMap, RemoveAt;
    RemoveAtDrops(s, i);
    var r := RemoveAt(s, i);
    var m := ToMap(s) - {s[i].key};
    forall k | k in ToMap(r) ensures k in m && ToMap(r)[k] == m[k] {
      var x := SlotOfMap(r, k);
      SameKeySameSlot(s, x, s[i]);
      MapOfSlot(s, x);
    }
    forall k | k in m ensures k in ToMap(r) {
      var x := SlotOfMap(s, k);
      MapOfSlot(r, x);
    }
  }

  lemma SameKeySameSlot<K, V>(s: seq<Slot<K, V>>, x: Slot<K, V>, y: Slot<K, V>)
    requires UniqueKeys(s) && x in s && y in s
    ensures x.key == y.key ==> x == y
  {
    var i :| 0 <= i < |s| && s[i] == x;
    var j :| 0 <= j < |s| && s[j] == y;
    assert i < j || j < i || i == j;
  }

  // --------------------------------------------------------------- tables

  predicate Below(i: nat, size: nat) {
    i < size
  }

  function Live(size: nat): set<nat> {
    set i: nat | i < size && Below(i, size)
  }

  lemma {:induction false} LiveSize(size: nat)
    ensures |Live(size)| == size
  {
    if size == 0 {
    } else {
      LiveSize(size - 1);
      assert Live(size) == Live(size - 1) + {size - 1};
    }
  }

  lemma LiveMore(size: nat)
    ensures Live(size) + {size} == Live(size + 1)
  {
  }

  lemma LiveFewer(size: nat, i: nat)
    requires i < size
    ensures i in Live(size) && |Live(size) - {i}| == size - 1
    ensures i == size - 1 ==> Live(size) - {i} == Live(size - 1)
    ensures i < size - 1 ==> size - 1 in Live(size) - {i} && Live(size) - {i} - {size - 1} + {i} == Live(size - 1)
  {
    LiveSize(size);
    assert i in Live(size);
  }

  function Keys<K, V>(s: seq<Slot<K, V>>): (r: seq<K>)
    ensures |r| == |s| && forall i :: 0 <= i < |s| ==> r[i] == s[i].key
  {
    seq(|s|, i requires 0 <= i < |s| => s[i].key)
  }

  /** The sizes of the arrays fit, and index entries name existing slots. */
  ghost predicate Shaped<K, V>(t: Table<K, V>) {
    && 0 < |t.slots| && |t.index| == |t.slots| * 2 + 1 && t.size <= |t.slots|
    && forall p :: 0 <= p < |t.index| && t.index[p].Occupied? ==> t.index[p].slot < |t.slots|
  }

  /** The index serves exactly the slots below `size`. */
  ghost predicate Sound<K, V>(hash: K -> nat, t: Table<K, V>) {
    Shaped(t) && Serves(hash, t.index, Keys(t.slots), Live(t.size))
  }

  /** The dense slots in order. */
  function Dense<K, V>(t: Table<K, V>): seq<Slot<K, V>>
    requires t.size <= |t.slots|
  {
    t.slots[..t.size]
  }

  ghost function Contents<K, V>(t: Table<K, V>): map<K, V>
    requires t.size <= |t.slots|
  {
    ToMap(Dense(t))
  }

  // ----------------------------------------------------------- operations

  /** The slot that the index gives for `key`. */
  function FindIndex<K(==), V>(hash: K -> nat, t: Table<K, V>, key: K): (r: Option<nat>)
    requires Shaped(t)
    ensures r.Some? ==> r.value < |t.slots| && t.slots[r.value].key == key
  {
    match Search(t.index, Keys(t.slots), hash(key), key)
    case None => None
    case Some(probe) => Some(At(t.index, hash(key), probe).slot)
  }

  /** Turns the entry of `key` into a tombstone, if there is one. */
  function IndexErase<K(==), V>(hash: K -> nat, t: Table<K, V>, key: K): (r: Option<Table<K, V>>)
    requires Shaped(t)
    ensures r.Some? ==> Shaped(r.value) && r.value.slots == t.slots && r.value.size == t.size
  {
    match Search(t.index, Keys(t.slots), hash(key), key)
    case None => None
    case Some(probe) => Some(t.(index := t.index[Pos(hash(key), probe, |t.index|) := Tombstone]))
  }

  /** Enters `slot` under `key`, if the key is new and an entry is left. */
  function IndexInsert<K(==), V>(hash: K -> nat, t: Table<K, V>, key: K, slot: nat): (r: Option<Table<K, V>>)
    requires Shaped(t) && slot < |t.slots|
    ensures r.Some? ==> Shaped(r.value) && r.value.slots == t.slots && r.value.size == t.size
  {
    match InsertTry(t.index, Keys(t.slots), hash(key), key)
    case None => None
    case Some(probe) => Some(t.(index := t.index[Pos(hash(key), probe, |t.index|) := Occupied(slot)]))
  }

  function Insert<K(==), V>(hash: K -> nat, blank: Slot<K, V>, t: Table<K, V>, key: K, entry: V)
    : (r: (Status, Table<K, V>))
    requires Shaped(t)
    ensures Shaped(r.1) && |r.1.slots| == |t.slots|
  {
    if FindIndex(hash, t, key).Some? then (AlreadyExists, t)
    else if t.size >= |t.slots| then (OutOfMemory, t)
    else
      match IndexInsert(hash, Appended(t, Slot(key, entry)), key, t.size)
      case Some(r) => (Ok, r)
      case None => (OutOfMemory, t.(slots := t.slots[t.size := blank]))
  }

  /** After the last slot was copied into slot `i`: redirects its entry; None where the code aborts. */
  function Redirect<K(==), V>(hash: K -> nat, t: Table<K, V>, i: nat): (r: Option<Table<K, V>>)
    requires Shaped(t) && i < |t.slots|
    ensures r.Some? ==> Shaped(r.value) && r.value.slots == t.slots && r.value.size == t.size
  {
    match IndexErase(hash, t, t.slots[i].key)
    case None => None
    case Some(erased) => IndexInsert(hash, erased, t.slots[i].key, i)
  }

  /** Moves the last slot into slot `i`, unless it is there already. */
  function MoveLast<K(==), V>(hash: K -> nat, t: Table<K, V>, i: nat): (r: Option<Table<K, V>>)
    requires Shaped(t) && i < t.size
    ensures r.Some? ==> Shaped(r.value) && r.value.slots == t.slots[i := t.slots[t.size - 1]] && r.value.size == t.size
  {
    var last := t.size - 1;
    if i == last then Some(t) else Redirect(hash, t.(slots := t.slots[i := t.slots[last]]), i)
  }

  /** Takes slot `i`, which holds `key`, out by moving the last slot into it. */
  function Vacate<K(==), V>(hash: K -> nat, blank: Slot<K, V>, t: Table<K, V>, key: K, i: nat): (r: Option<Table<K, V>>)
    requires Shaped(t) && i < t.size
    ensures r.Some? ==> Shaped(r.value) && |r.value.slots| == |t.slots| && Dense(r.value) == RemoveAt(Dense(t), i)
  {
    match IndexErase(hash, t, key)
    case None => None
    case Some(erased) =>
      match MoveLast(hash, erased, i)
      case None => None
      case Some(moved) => Some(moved.(slots := moved.slots[t.size - 1 := blank], size := t.size - 1))
  }

  /** Finds the slot of `key` and takes it out; the entry goes to the caller. */
  function Extract<K(==), V>(hash: K -> nat, blank: Slot<K, V>, t: Table<K, V>, key: K)
    : (r: (Status, Option<V>, Table<K, V>))
    requires Shaped(t)
    ensures Shaped(r.2) && |r.2.slots| == |t.slots|
  {
    match FindIndex(hash, t, key)
    case None => (NotFound, None, t)
    case Some(i) =>
      if i >= t.size then (Corrupt, None, t)
      else match Vacate(hash, blank, t, key, i)
        case None => (Corrupt, None, t)
        case Some(r) => (Ok, Some(t.slots[i].entry), r)
  }

  // --------------------------------------------------------------- proofs

  lemma DenseKeysUnique<K, V>(hash: K -> nat, t: Table<K, V>)
    requires Sound(hash, t)
    ensures UniqueKeys(Dense(t))
  {
    forall i, j | 0 <= i < j < t.size ensures t.slots[i].key != t.slots[j].key {
      assert i in Live(t.size) && j in Live(t.size);
      assert Keys(t.slots)[i] != Keys(t.slots)[j];
    }
  }

  /** What the index says about `key` is what the dense slots say. */
  lemma FindIndexIsLookup<K, V>(hash: K -> nat, t: Table<K, V>, key: K)
    requires Sound(hash, t)
    ensures match FindIndex(hash, t, key)
      case None => key !in Contents(t)
      case Some(i) => i < t.size && key in Contents(t) && Contents(t)[key] == t.slots[i].entry
  {
    var keys, dense := Keys(t.slots), Dense(t);
    DenseKeysUnique(hash, t);
    if key in Contents(t) {
      var x := SlotOfMap(dense, key);
      var i :| 0 <= i < t.size && dense[i] == x;
      assert i in Live(t.size);
      SearchFindsLive(hash, t.index, keys, Live(t.size), i);
    } else {
      forall i | i in Live(t.size) ensures keys[i] != key {
        MapOfSlot(dense, dense[i]);
      }
      SearchMissesDead(hash, t.index, keys, Live(t.size), key);
    }
  }

  lemma IndexEraseServes<K, V>(hash: K -> nat, t: Table<K, V>, live: set<nat>, s: nat)
    requires Shaped(t) && Serves(hash, t.index, Keys(t.slots), live) && s in live
    ensures var r := IndexErase(hash, t, t.slots[s].key);
      r.Some? && Serves(hash, r.value.index, Keys(r.value.slots), live - {s})
  {
    var keys := Keys(t.slots);
    SearchFindsLive(hash, t.index, keys, live, s);
    var probe := Search(t.index, keys, hash(keys[s]), keys[s]).value;
    EraseServes(hash, t.index, keys, live, Pos(hash(keys[s]), probe, |t.index|), s);
  }

  lemma IndexInsertServes<K, V>(hash: K -> nat, t: Table<K, V>, live: set<nat>, s: nat)
    requires Shaped(t) && Serves(hash, t.index, Keys(t.slots), live) && s < |t.slots| && s !in live
    requires !HasKey(Keys(t.slots), live, t.slots[s].key) && |live| <= |t.slots|
    ensures var r := IndexInsert(hash, t, t.slots[s].key, s);
      r.Some? && Serves(hash, r.value.index, Keys(r.value.slots), live + {s})
  {
    var keys := Keys(t.slots);
    InsertHasRoom(hash, t.index, keys, live, keys[s]);
    InsertServes(hash, t.index, keys, live, InsertTry(t.index, keys, hash(keys[s]), keys[s]).value, s);
  }

  /** `t` with a slot for `key` appended, before the index knows of it. */
  function Appended<K, V>(t: Table<K, V>, x: Slot<K, V>): (r: Table<K, V>)
    requires Shaped(t) && t.size < |t.slots|
    ensures Shaped(r)
  {
    t.(slots := t.slots[t.size := x], size := t.size + 1)
  }

  lemma NewKeyIsNotLive<K, V>(hash: K -> nat, t: Table<K, V>, key: K)
    requires Sound(hash, t) && key !in Contents(t)
    ensures !HasKey(Keys(t.slots), Live(t.size), key)
  {
    forall i | i in Live(t.size) ensures Keys(t.slots)[i] != key {
      DenseKeysUnique(hash, t);
      MapOfSlot(Dense(t), Dense(t)[i]);
    }
  }

  lemma AppendedIsServed<K, V>(hash: K -> nat, t: Table<K, V>, x: Slot<K, V>)
    requires Sound(hash, t) && x.key !in Contents(t) && t.size < |t.slots|
    ensures var r := IndexInsert(hash, Appended(t, x), x.key, t.size);
      r.Some? && Sound(hash, r.value)
  {
    var filled := Appended(t, x);
    NewKeyIsNotLive(hash, t, x.key);
    DeadKeysDoNotMatter(hash, t.index, Keys(t.slots), Keys(filled.slots), Live(t.size));
    LiveSize(t.size);
    IndexInsertServes(hash, filled, Live(t.size), t.size);
    LiveMore(t.size);
  }

  /** An insert fails only for a key that is held or a full map; else it appends the slot. */
  lemma InsertIsUpdate<K, V>(hash: K -> nat, blank: Slot<K, V>, t: Table<K, V>, key: K, entry: V)
    requires Sound(hash, t)
    ensures var (status, r) := Insert(hash, blank, t, key, entry);
      && Sound(hash, r)
      && status == (if key in Contents(t) then AlreadyExists else if t.size >= |t.slots| then OutOfMemory else Ok)
      && (if status == Ok
          then Dense(r) == Dense(t) + [Slot(key, entry)] && Contents(r) == Contents(t)[key := entry]
          else r == t)
  {
    FindIndexIsLookup(hash, t, key);
    if FindIndex(hash, t, key).None? && t.size < |t.slots| {
      AppendedIsServed(hash, t, Slot(key, entry));
      var dense := Dense(Insert(hash, blank, t, key, entry).1);
      assert dense == Dense(t) + [Slot(key, entry)];
      assert dense[..t.size] == Dense(t);
    }
  }

  lemma RedirectServes<K, V>(hash: K -> nat, t: Table<K, V>, live: set<nat>, i: nat, last: nat)
    requires Shaped(t) && i < |t.slots| && last < |t.slots| && t.slots[i].key == t.slots[last].key
    requires Serves(hash, t.index, Keys(t.slots), live) && last in live && i !in live && |live| <= |t.slots|
    ensures var r := Redirect(hash, t, i);
      r.Some? && Serves(hash, r.value.index, Keys(r.value.slots), live - {last} + {i})
  {
    IndexEraseServes(hash, t, live, last);
    var erased := IndexErase(hash, t, t.slots[i].key).value;
    IndexInsertServes(hash, erased, live - {last}, i);
  }

  lemma CopyServes<K, V>(hash: K -> nat, t: Table<K, V>, live: set<nat>, i: nat, last: nat)
    requires Shaped(t) && i < |t.slots| && last < |t.slots| && last in live && i !in live && |live| <= |t.slots|
    requires Serves(hash, t.index, Keys(t.slots), live)
    ensures var r := Redirect(hash, t.(slots := t.slots[i := t.slots[last]]), i);
      r.Some? && Serves(hash, r.value.index, Keys(r.value.slots), live - {last} + {i})
  {
    var copied := t.(slots := t.slots[i := t.slots[last]]);
    DeadKeysDoNotMatter(hash, copied.index, Keys(t.slots), Keys(copied.slots), live);
    RedirectServes(hash, copied, live, i, last);
  }

  lemma TrimmedIsSound<K, V>(hash: K -> nat, blank: Slot<K, V>, t: Table<K, V>, last: nat)
    requires Shaped(t) && last < |t.slots| && Serves(hash, t.index, Keys(t.slots), Live(last))
    ensures Sound(hash, t.(slots := t.slots[last := blank], size := last))
  {
    DeadKeysDoNotMatter(hash, t.index, Keys(t.slots), Keys(t.slots[last := blank]), Live(last));
  }

  lemma MoveLastServes<K, V>(hash: K -> nat, t: Table<K, V>, i: nat, live: set<nat>)
    requires Shaped(t) && i < t.size && live == Live(t.size) - {i} && Serves(hash, t.index, Keys(t.slots), live)
    ensures var r := MoveLast(hash, t, i);
      r.Some? && Serves(hash, r.value.index, Keys(r.value.slots), Live(t.size - 1))
  {
    hide Serves, Redirect;
    LiveFewer(t.size, i);
    if i != t.size - 1 {
      CopyServes(hash, t, live, i, t.size - 1);
    }
  }

  /** Erasing a slot's key and moving the last slot into its place leaves an index for one slot fewer. */
  lemma EraseAndMoveServe<K, V>(hash: K -> nat, t: Table<K, V>, i: nat)
    requires Sound(hash, t) && i < t.size
    ensures var erased := IndexErase(hash, t, t.slots[i].key);
      && erased.Some? && MoveLast(hash, erased.value, i).Some?
      && var moved := MoveLast(hash, erased.value, i).value;
         Shaped(moved) && Serves(hash, moved.index, Keys(moved.slots), Live(t.size - 1))
  {
    hide Serves, IndexErase, MoveLast, Keys, Live;
    LiveFewer(t.size, i);
    IndexEraseServes(hash, t, Live(t.size), i);
    MoveLastServes(hash, IndexErase(hash, t, t.slots[i].key).value, i, Live(t.size) - {i});
  }

  /** Taking a slot out never meets a corrupt or full index, and leaves a sound table. */
  lemma VacateIsSound<K, V>(hash: K -> nat, blank: Slot<K, V>, t: Table<K, V>, i: nat)
    requires Sound(hash, t) && i < t.size
    ensures var r := Vacate(hash, blank, t, t.slots[i].key, i);
      r.Some? && Sound(hash, r.value)
  {
    hide Serves, IndexErase, MoveLast, Keys, Live;
    EraseAndMoveServe(hash, t, i);
    var erased := IndexErase(hash, t, t.slots[i].key).value;
    TrimmedIsSound(hash, blank, MoveLast(hash, erased, i).value, t.size - 1);
  }

  /** Extraction gives back the entry of a held key and removes it; the ABORT branches cannot be taken. */
  lemma ExtractIsRemove<K, V>(hash: K -> nat, blank: Slot<K, V>, t: Table<K, V>, key: K)
    requires Sound(hash, t)
    ensures var (status, entry, r) := Extract(hash, blank, t, key);
      && Sound(hash, r)
      && status == (if key in Contents(t) then Ok else NotFound)
      && entry == (if key in Contents(t) then Some(Contents(t)[key]) else None)
      && Contents(r) == Contents(t) - {key}
      && (if status == Ok
          then exists i :: 0 <= i < t.size && t.slots[i].key == key && Dense(r) == RemoveAt(Dense(t), i)
          else r == t)
  {
    FindIndexIsLookup(hash, t, key);
    var found := FindIndex(hash, t, key);
    if found.Some? {
      VacateIsSound(hash, blank, t, found.value);
      DenseKeysUnique(hash, t);
      RemoveAtIsRemove(Dense(t), found.value);
      assert Dense(t)[found.value] == t.slots[found.value];
    } else {
      assert Contents(t) - {key} == Contents(t);
    }
  }

  ghost function Cleared<K, V>(blank: Slot<K, V>, t: Table<K, V>): Table<K, V>
    requires t.size <= |t.slots|
  {
    Table(seq(|t.slots|, i requires 0 <= i < |t.slots| => if i < t.size then blank else t.slots[i]),
          seq(|t.index|, i => Empty), 0)
  }

  lemma ClearedIsEmpty<K, V>(hash: K -> nat, blank: Slot<K, V>, t: Table<K, V>)
    requires Shaped(t)
    ensures Sound(hash, Cleared(blank, t)) && Contents(Cleared(blank, t)) == map[]
  {
  }
}
