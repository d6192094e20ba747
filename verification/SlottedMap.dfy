/**
 The slotted map as the firmware runs it: slot and index arrays changed in
 place. Each method is proved equal to the operation on tables it carries out,
 and, through it, to the finite-map operation of the same name.
 */
module SlottedMaps {
  import opened Common
  import opened SlottedIndex
  import opened SlottedModel

  class SlottedMap<K(==), V> {
    const hash: K -> nat
    /** A default-constructed slot. */
    const blank: Slot<K, V>
    const slots: array<Slot<K, V>>
    const index: array<IndexSlot>
    var size: nat

    ghost function View(): Table<K, V>
      reads this, slots, index
    {
      Table(slots[..], index[..], size)
    }

    ghost predicate Valid()
      reads this, slots, index
    {
      Sound(hash, View())
    }

    /** The finite map held. */
    ghost function Model(): map<K, V>
      reads this, slots, index
      requires Valid()
    {
      Contents(View())
    }

    constructor (capacity: nat, hash: K -> nat, blank: Slot<K, V>)
      requires capacity > 0
      ensures Valid() && Model() == map[] && slots.Length == capacity
      ensures this.hash == hash && this.blank == blank
      ensures fresh(slots) && fresh(index)
    {
      this.hash := hash;
      this.blank := blank;
      slots := new Slot<K, V>[capacity](_ => blank);
      index := new IndexSlot[capacity * 2 + 1](_ => Empty);
      size := 0;
      new;
      ClearedIsEmpty(hash, blank, View());
      assert View() == Cleared(blank, View());
    }

    // ------------------------------------------------------------- the index

    method FindIndex(key: K) returns (r: Option<nat>)
      requires Shaped(View())
      ensures r == SlottedModel.FindIndex(hash, View(), key)
    {
      var start := hash(key) % index.Length;
      ghost var entries, keys := index[..], Keys(slots[..]);
      ghost var goal := Search(entries, keys, hash(key), key);
      for probe := 0 to index.Length
        invariant Search(entries, keys, hash(key), key, probe) == goal
      {
        var pos := (start + probe) % index.Length;
        PosIsRemainder(hash(key), probe, index.Length);
        var entry := index[pos];
        assert At(entries, hash(key), probe) == entry;
        if entry == Empty {
          return None;
        }
        if entry.Occupied? && slots[entry.slot].key == key {
          return Some(entry.slot);
        }
      }
      return None;
    }

    /** Puts an entry for `slot` under `key`; false when the key is met or no entry is left. */
    method IndexInsert(key: K, slot: nat) returns (ok: bool)
      requires Shaped(View()) && slot < slots.Length
      modifies index
      ensures var r := SlottedModel.IndexInsert(hash, old(View()), key, slot);
        ok == r.Some? && View() == if ok then r.value else old(View())
    {
      var start := hash(key) % index.Length;
      var firstTombstone: Option<nat> := None;
      ghost var tomb: Option<nat> := None;
      ghost var entries, keys := index[..], Keys(slots[..]);
      ghost var goal := InsertTry(entries, keys, hash(key), key);
      for probe := 0 to index.Length
        invariant index[..] == entries
        invariant InsertTry(entries, keys, hash(key), key, tomb, probe) == goal
        invariant tomb.Some? <==> firstTombstone.Some?
        invariant tomb.Some? ==> firstTombstone.value == Pos(hash(key), tomb.value, index.Length)
      {
        var pos := (start + probe) % index.Length;
        PosIsRemainder(hash(key), probe, index.Length);
        var entry := index[pos];
        assert At(entries, hash(key), probe) == entry;
        if entry.Occupied? {
          if slots[entry.slot].key == key {
            return false;
          }
        } else if entry == Tombstone {
          if firstTombstone.None? {
            firstTombstone, tomb := Some(pos), Some(probe);
          }
        } else {
          var insertPos := if firstTombstone.Some? then firstTombstone.value else pos;
          index[insertPos] := Occupied(slot);
          assert index[..] == entries[insertPos := Occupied(slot)];
          return true;
        }
      }
      if firstTombstone.Some? {
        index[firstTombstone.value] := Occupied(slot);
        assert index[..] == entries[firstTombstone.value := Occupied(slot)];
        return true;
      }
      return false;
    }

    /** Turns the entry of `key` into a tombstone; false when there is none. */
    method IndexErase(key: K) returns (ok: bool)
      requires Shaped(View())
      modifies index
      ensures var r := SlottedModel.IndexErase(hash, old(View()), key);
        ok == r.Some? && View() == if ok then r.value else old(View())
    {
      var start := hash(key) % index.Length;
      ghost var entries, keys := index[..], Keys(slots[..]);
      ghost var goal := Search(entries, keys, hash(key), key);
      for probe := 0 to index.Length
        invariant index[..] == entries
        invariant Search(entries, keys, hash(key), key, probe) == goal
      {
        var pos := (start + probe) % index.Length;
        PosIsRemainder(hash(key), probe, index.Length);
        var entry := index[pos];
        assert At(entries, hash(key), probe) == entry;
        if entry == Empty {
          return false;
        }
        if entry.Occupied? && slots[entry.slot].key == key {
          index[pos] := Tombstone;
          assert index[..] == entries[pos := Tombstone];
          return true;
        }
      }
      return false;
    }

    // -------------------------------------------------------- map operations

    method Get(key: K) returns (r: Option<V>)
      requires Valid()
      ensures r == if key in Model() then Some(Model()[key]) else None
    {
      FindIndexIsLookup(hash, View(), key);
      var i := FindIndex(key);
      if i.None? {
        return None;
      }
      return Some(slots[i.value].entry);
    }

    method Insert(key: K, entry: V) returns (status: Status)
      requires Valid()
      modifies this`size, slots, index
      ensures Valid()
      ensures (status, View()) == SlottedModel.Insert(hash, blank, old(View()), key, entry)
      ensures status == if key in old(Model()) then AlreadyExists
                        else if old(size) >= slots.Length then OutOfMemory else Ok
      ensures Model() == if status == Ok then old(Model())[key := entry] else old(Model())
    {
      InsertIsUpdate(hash, blank, View(), key, entry);
      var found := FindIndex(key);
      if found.Some? {
        return AlreadyExists;
      }
      if size >= slots.Length {
        return OutOfMemory;
      }
      var ok := Append(key, entry);
      return if ok then Ok else OutOfMemory;
    }

    /** Appends a slot and enters it in the index, or takes it back if the index has no place for it. */
    method Append(key: K, entry: V) returns (ok: bool)
      requires Shaped(View()) && size < slots.Length
      modifies this`size, slots, index
      ensures var t := old(View());
        var r := SlottedModel.IndexInsert(hash, Appended(t, Slot(key, entry)), key, t.size);
        ok == r.Some? && View() == if ok then r.value else t.(slots := t.slots[t.size := blank])
    {
      var slotIndex := size;
      slots[size] := Slot(key, entry);
      size := size + 1;
      assert View() == Appended(old(View()), Slot(key, entry));
      ok := IndexInsert(key, slotIndex);
      if !ok {
        size := size - 1;
        slots[size] := blank;
      }
    }

    /** Copies the last slot into slot `i` and redirects its entry; false stands for the ABORT branches. */
    method MoveLast(i: nat) returns (ok: bool)
      requires Shaped(View()) && i < size
      modifies slots, index
      ensures var r := SlottedModel.MoveLast(hash, old(View()), i);
        ok == r.Some? && (ok ==> View() == r.value)
    {
      var last := size - 1;
      if i == last {
        return true;
      }
      slots[i] := slots[last];
      assert View() == old(View()).(slots := old(slots[..])[i := old(slots[last])]);
      ok := IndexErase(slots[i].key);
      if !ok {
        return;
      }
      ok := IndexInsert(slots[i].key, i);
    }

    method Vacate(key: K, i: nat) returns (ok: bool)
      requires Shaped(View()) && i < size
      modifies this`size, slots, index
      ensures var r := SlottedModel.Vacate(hash, blank, old(View()), key, i);
        ok == r.Some? && (ok ==> View() == r.value)
    {
      ok := IndexErase(key);
      if !ok {
        return;
      }
      ok := MoveLast(i);
      if !ok {
        return;
      }
      ghost var moved := View();
      slots[size - 1] := blank;
      size := size - 1;
      assert View() == moved.(slots := moved.slots[moved.size - 1 := blank], size := moved.size - 1);
    }

    method Extract(key: K) returns (status: Status, entry: Option<V>)
      requires Valid()
      modifies this`size, slots, index
      ensures Valid()
      ensures (status, entry, View()) == SlottedModel.Extract(hash, blank, old(View()), key)
      ensures status == if key in old(Model()) then Ok else NotFound
      ensures entry == if key in old(Model()) then Some(old(Model())[key]) else None
      ensures Model() == old(Model()) - {key}
    {
      ExtractIsRemove(hash, blank, View(), key);
      FindIndexIsLookup(hash, View(), key);
      var i := FindIndex(key);
      if i.None? {
        return NotFound, None;
      }
      VacateIsSound(hash, blank, View(), i.value);
      var out := slots[i.value].entry;
      var ok := Vacate(key, i.value);
      if !ok {
        assert false;
      }
      return Ok, Some(out);
    }

    method Remove(key: K) returns (status: Status)
      requires Valid()
      modifies this`size, slots, index
      ensures Valid()
      ensures View() == SlottedModel.Extract(hash, blank, old(View()), key).2
      ensures status == if key in old(Model()) then Ok else NotFound
      ensures Model() == old(Model()) - {key}
    {
      ExtractIsRemove(hash, blank, View(), key);
      FindIndexIsLookup(hash, View(), key);
      var i := FindIndex(key);
      if i.None? {
        return NotFound;
      }
      VacateIsSound(hash, blank, View(), i.value);
      var ok := Vacate(key, i.value);
      if !ok {
        assert false;
      }
      return Ok;
    }

    method Clear()
      requires Valid()
      modifies this`size, slots, index
      ensures Valid() && View() == Cleared(blank, old(View())) && Model() == map[]
    {
      ClearedIsEmpty(hash, blank, View());
      for i := 0 to size
        invariant size == old(size) && index[..] == old(index[..])
        invariant forall k :: 0 <= k < slots.Length ==> slots[k] == if k < i then blank else old(slots[k])
      {
        slots[i] := blank;
      }
      ghost var wiped := slots[..];
      for i := 0 to index.Length
        invariant size == old(size) && slots[..] == wiped
        invariant forall p :: 0 <= p < i ==> index[p] == Empty
      {
        index[i] := Empty;
      }
      size := 0;
      assert View() == Cleared(blank, old(View()));
    }
  }
}
