/**
 Filtered extraction from a directory: the keys that pass the filter are noted
 first, then taken out one by one, although every removal moves a slot.
 */
module Directories {
  import opened SlottedModel
  import opened SlottedMaps

  predicate Passes<K, V>(filter: (K, V) -> bool, x: Slot<K, V>) {
    filter(x.key, x.entry)
  }

  /** The slots that pass the filter, in slot order. */
  function Selected<K, V>(s: seq<Slot<K, V>>, filter: (K, V) -> bool): seq<Slot<K, V>> {
    if s == [] then []
    else
      var front, last := Selected(s[..|s| - 1], filter), s[|s| - 1];
      if Passes(filter, last) then front + [last] else front
  }

  lemma {:induction false} SelectedPasses<K, V>(s: seq<Slot<K, V>>, filter: (K, V) -> bool)
    requires UniqueKeys(s)
    ensures UniqueKeys(Selected(s, filter)) && |Selected(s, filter)| <= |s|
    ensures forall x :: x in Selected(s, filter) ==> x in s && Passes(filter, x)
    ensures forall x :: x in s && Passes(filter, x) ==> x in Selected(s, filter)
  {
    if s == [] {
    } else {
      var front, last := s[..|s| - 1], s[|s| - 1];
      SelectedPasses(front, filter);
      assert s == front + [last];
      var r := Selected(front, filter);
      forall i | 0 <= i < |r| ensures r[i].key != last.key {
        var x := r[i];
        assert x in r;
        assert x in front;
        var j :| 0 <= j < |front| && front[j] == x;
        assert s[j] == x;
      }
    }
  }

  /** Where in the slots the selected ones are. */
  function Places<K, V>(s: seq<Slot<K, V>>, filter: (K, V) -> bool): (r: seq<nat>)
    ensures forall i :: 0 <= i < |r| ==> r[i] < |s|
  {
    if s == [] then []
    else
      var front := Places(s[..|s| - 1], filter);
      if Passes(filter, s[|s| - 1]) then front + [|s| - 1] else front
  }

  predicate Increasing(r: seq<nat>) {
    forall i, j :: 0 <= i < j < |r| ==> r[i] < r[j]
  }

  lemma {:induction false} PlacesGrow<K, V>(s: seq<Slot<K, V>>, filter: (K, V) -> bool)
    ensures Increasing(Places(s, filter))
    ensures forall p :: p in Places(s, filter) ==> Passes(filter, s[p])
  {
    if s != [] {
      PlacesGrow(s[..|s| - 1], filter);
    }
  }

  lemma {:induction false} PlacesMissNone<K, V>(s: seq<Slot<K, V>>, filter: (K, V) -> bool, p: nat)
    requires p < |s| && Passes(filter, s[p])
    ensures p in Places(s, filter)
  {
    if p < |s| - 1 {
      PlacesMissNone(s[..|s| - 1], filter, p);
    }
  }

  lemma {:induction false} SelectedAtPlaces<K, V>(s: seq<Slot<K, V>>, filter: (K, V) -> bool)
    ensures |Selected(s, filter)| == |Places(s, filter)|
    ensures forall i :: 0 <= i < |Places(s, filter)| ==> Selected(s, filter)[i] == s[Places(s, filter)[i]]
  {
    if s != [] {
      SelectedAtPlaces(s[..|s| - 1], filter);
    }
  }

  /** The selected slots come in slot order: each from a place after the one before, and none that passes is missed. */
  lemma SelectedInOrder<K, V>(s: seq<Slot<K, V>>, filter: (K, V) -> bool) returns (places: seq<nat>)
    ensures |places| == |Selected(s, filter)|
    ensures forall i :: 0 <= i < |places| ==> places[i] < |s| && s[places[i]] == Selected(s, filter)[i]
    ensures Increasing(places)
    ensures forall p :: 0 <= p < |s| ==> (p in places <==> Passes(filter, s[p]))
  {
    hide Selected, Places;
    places := Places(s, filter);
    SelectedAtPlaces(s, filter);
    PlacesGrow(s, filter);
    forall p | 0 <= p < |s| && Passes(filter, s[p]) ensures p in places {
      PlacesMissNone(s, filter, p);
    }
  }

  function Entries<K, V>(s: seq<Slot<K, V>>): (r: seq<V>)
    ensures |r| == |s| && forall i :: 0 <= i < |s| ==> r[i] == s[i].entry
  {
    seq(|s|, i requires 0 <= i < |s| => s[i].entry)
  }

  /** The keys of the first `n` slots. */
  function KeySet<K, V>(s: seq<Slot<K, V>>, n: nat): set<K>
    requires n <= |s|
  {
    set i | 0 <= i < n :: s[i].key
  }

  /** What remains of a map when every key that passes the filter is gone. */
  ghost function Rest<K, V>(m: map<K, V>, filter: (K, V) -> bool): map<K, V> {
    map k | k in m && !filter(k, m[k]) :: m[k]
  }

  lemma RemovingSelectedLeavesRest<K, V>(s: seq<Slot<K, V>>, filter: (K, V) -> bool)
    requires UniqueKeys(s)
    ensures var x := Selected(s, filter);
      ToMap(s) - KeySet(x, |x|) == Rest(ToMap(s), filter)
  {
    SelectedPasses(s, filter);
    var selected := Selected(s, filter);
    forall k | k in ToMap(s) ensures k in KeySet(selected, |selected|) <==> filter(k, ToMap(s)[k]) {
      var x := SlotOfMap(s, k);
      if filter(k, x.entry) {
        assert x in selected;
      }
      if k in KeySet(selected, |selected|) {
        var i :| 0 <= i < |selected| && selected[i].key == k;
        assert selected[i] in selected;
        MapOfSlot(s, selected[i]);
      }
    }
  }

  /** What is left of the map of `s` when the first `i` selected keys are gone. */
  ghost function Left<K, V>(s: seq<Slot<K, V>>, filter: (K, V) -> bool, i: nat): map<K, V>
    requires i <= |Selected(s, filter)|
  {
    ToMap(s) - KeySet(Selected(s, filter), i)
  }

  lemma NothingTakenYet<K, V>(s: seq<Slot<K, V>>, filter: (K, V) -> bool)
    ensures Left(s, filter, 0) == ToMap(s)
  {
    assert KeySet(Selected(s, filter), 0) == {};
  }

  lemma KeySetGrows<K, V>(s: seq<Slot<K, V>>, n: nat)
    requires n < |s|
    ensures KeySet(s, n + 1) == KeySet(s, n) + {s[n].key}
  {
  }

  /** The `i`-th selected slot is still held when the keys selected before it are gone. */
  lemma SelectedIsHeld<K, V>(s: seq<Slot<K, V>>, filter: (K, V) -> bool, i: nat)
    requires UniqueKeys(s) && i < |Selected(s, filter)|
    ensures var x := Selected(s, filter)[i];
      && x.key in Left(s, filter, i) && Left(s, filter, i)[x.key] == x.entry
      && Left(s, filter, i) - {x.key} == Left(s, filter, i + 1)
  {
    SelectedPasses(s, filter);
    var x := Selected(s, filter);
    assert x[i] in x;
    MapOfSlot(s, x[i]);
    KeySetGrows(x, i);
  }

  class Directory<K(==), V> {
    const entries: SlottedMap<K, V>

    constructor (entries: SlottedMap<K, V>)
      ensures this.entries == entries
    {
      this.entries := entries;
    }

    /** Notes the keys of the slots that pass the filter, in slot order. */
    method SnapshotKeys(filter: (K, V) -> bool) returns (keys: seq<K>)
      requires Shaped(entries.View())
      ensures keys == Keys(Selected(Dense(entries.View()), filter))
    {
      keys := [];
      ghost var dense := Dense(entries.View());
      for i := 0 to entries.size
        invariant keys == Keys(Selected(dense[..i], filter))
      {
        assert dense[..i + 1][..i] == dense[..i] && dense[i] == entries.slots[i];
        if filter(entries.slots[i].key, entries.slots[i].entry) {
          keys := keys + [entries.slots[i].key];
        }
      }
      assert dense[..entries.size] == dense;
    }

    /** Extracts the noted keys one by one; `dense` and `filter` say where they come from. */
    method ExtractKeys(keys: seq<K>, ghost dense: seq<Slot<K, V>>, ghost filter: (K, V) -> bool)
      returns (status: Status, out: seq<V>)
      requires entries.Valid() && UniqueKeys(dense) && entries.Model() == ToMap(dense)
      requires keys == Keys(Selected(dense, filter))
      modifies entries`size, entries.slots, entries.index
      ensures entries.Valid() && status == Ok
      ensures out == Entries(Selected(dense, filter))
      ensures |out| == |Selected(dense, filter)| && entries.Model() == Left(dense, filter, |out|)
    {
      hide *;
      ghost var selected := Selected(dense, filter);
      NothingTakenYet(dense, filter);
      out := [];
      for i := 0 to |keys|
        invariant entries.Valid() && |out| == i
        invariant forall j :: 0 <= j < i ==> out[j] == selected[j].entry
        invariant entries.Model() == Left(dense, filter, i)
      {
        SelectedIsHeld(dense, filter, i);
        var one, entry := entries.Extract(keys[i]);
        if one != Ok {
          return one, out;
        }
        out := out + [entry.value];
      }
      return Ok, out;
    }

    /** Takes out every entry that passes the filter; no single extraction can fail. */
    method Extract(filter: (K, V) -> bool) returns (status: Status, out: seq<V>)
      requires entries.Valid()
      modifies entries`size, entries.slots, entries.index
      ensures entries.Valid() && status == Ok
      ensures out == Entries(Selected(old(Dense(entries.View())), filter))
      ensures entries.Model() == Rest(old(entries.Model()), filter)
    {
      ghost var dense := Dense(entries.View());
      DenseKeysUnique(entries.hash, entries.View());
      RemovingSelectedLeavesRest(dense, filter);
      var keys := SnapshotKeys(filter);
      status, out := ExtractKeys(keys, dense, filter);
    }
  }
}
