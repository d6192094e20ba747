/**
 The open-addressed index of a slotted map: linear probing from the key's hash,
 tombstones on erase. An index serves a set of live slots when each of them has
 exactly one entry and probing from its key's hash reaches that entry before
 any empty one.
 */
module SlottedIndex {
  import opened Common

  datatype IndexSlot = Empty | Occupied(slot: nat) | Tombstone

  /** The position of the `probe`-th entry tried for a key that hashes to `h`: one step on, around the end. */
  function Pos(h: nat, probe: nat, n: nat): (p: nat)
    requires n > 0
    ensures p < n
  {
    if probe == 0 then h % n
    else
      var before := Pos(h, probe - 1, n);
      if before + 1 == n then 0 else before + 1
  }

  lemma {:induction false} PosWrapsOnce(h: nat, probe: nat, n: nat)
    requires 0 < n && probe < n
    ensures Pos(h, probe, n) == if h % n + probe < n then h % n + probe else h % n + probe - n
  {
    if probe == 0 {
    } else {
      PosWrapsOnce(h, probe - 1, n);
    }
  }

  lemma SmallRemainder(a: nat, n: nat)
    requires a < n
    ensures a % n == a && (a + n) % n == a
  {
  }

  /** It is the position the code computes with a remainder. */
  lemma PosIsRemainder(h: nat, probe: nat, n: nat)
    requires 0 < n && probe < n
    ensures Pos(h, probe, n) == (h % n + probe) % n
  {
    PosWrapsOnce(h, probe, n);
    SmallRemainder(Pos(h, probe, n), n);
  }

  /** The entry met at the `probe`-th try. */
  function At(index: seq<IndexSlot>, h: nat, probe: nat): IndexSlot
    requires index != []
  {
    index[Pos(h, probe, |index|)]
  }

  /** No empty entry stops a search before its `probe`-th try. */
  ghost predicate Unstopped(index: seq<IndexSlot>, h: nat, probe: nat)
    requires index != []
  {
    forall q :: 0 <= q < probe ==> At(index, h, q) != Empty
  }

  ghost predicate ReachedAt(index: seq<IndexSlot>, h: nat, probe: nat, slot: nat)
    requires index != []
  {
    probe < |index| && Unstopped(index, h, probe) && At(index, h, probe) == Occupied(slot)
  }

  ghost predicate Reached(index: seq<IndexSlot>, h: nat, slot: nat)
    requires index != []
  {
    exists probe: nat :: ReachedAt(index, h, probe, slot)
  }

  /** Every occupied entry names a live slot, and no two name the same. */
  ghost predicate NamesLive(index: seq<IndexSlot>, live: set<nat>) {
    && (forall p :: 0 <= p < |index| && index[p].Occupied? ==> index[p].slot in live)
    && (forall p, q :: 0 <= p < q < |index| && index[p].Occupied? && index[q].Occupied? ==>
                         index[p].slot != index[q].slot)
  }

  ghost predicate DistinctKeys<K>(keys: seq<K>, live: set<nat>) {
    && (forall s :: s in live ==> s < |keys|)
    && (forall s, t :: s in live && t in live && s != t ==> keys[s] != keys[t])
  }

  ghost predicate Serves<K>(hash: K -> nat, index: seq<IndexSlot>, keys: seq<K>, live: set<nat>) {
    && index != [] && NamesLive(index, live) && DistinctKeys(keys, live)
    && forall s :: s in live ==> Reached(index, hash(keys[s]), s)
  }

  ghost predicate HasKey<K>(keys: seq<K>, live: set<nat>, key: K) {
    exists s :: s in live && s < |keys| && keys[s] == key
  }

  // ------------------------------------------------------------------- search

  /** Entry `e` is occupied by a slot that holds `key`. */
  predicate Hits<K(==)>(e: IndexSlot, keys: seq<K>, key: K) {
    e.Occupied? && e.slot < |keys| && keys[e.slot] == key
  }

  /** The first try from `probe` on that meets `key`, unless an empty entry comes first. */
  function Search<K(==)>(index: seq<IndexSlot>, keys: seq<K>, h: nat, key: K, probe: nat := 0): (r: Option<nat>)
    requires index != [] && probe <= |index|
    ensures r.Some? ==> probe <= r.value < |index| && Hits(At(index, h, r.value), keys, key)
    ensures r.Some? ==> forall q :: probe <= q < r.value ==>
                                      At(index, h, q) != Empty && !Hits(At(index, h, q), keys, key)
    decreases |index| - probe
  {
    if probe == |index| || At(index, h, probe) == Empty then None
    else if Hits(At(index, h, probe), keys, key) then Some(probe)
    else Search(index, keys, h, key, probe + 1)
  }

  lemma {:induction false} SearchIsFirst<K>(index: seq<IndexSlot>, keys: seq<K>, h: nat, key: K, probe: nat, slot: nat,
                                            from: nat)
    requires index != [] && ReachedAt(index, h, probe, slot) && from <= probe && slot < |keys| && keys[slot] == key
    ensures Search(index, keys, h, key, from).Some?
    decreases probe - from
  {
    if from == probe {
    } else {
      assert At(index, h, from) != Empty;
      SearchIsFirst(index, keys, h, key, probe, slot, from + 1);
    }
  }

  /** Searching a live key finds its slot. */
  lemma SearchFindsLive<K>(hash: K -> nat, index: seq<IndexSlot>, keys: seq<K>, live: set<nat>, s: nat)
    requires Serves(hash, index, keys, live) && s in live
    ensures var r := Search(index, keys, hash(keys[s]), keys[s]);
      r.Some? && At(index, hash(keys[s]), r.value) == Occupied(s)
  {
    var h := hash(keys[s]);
    assert Reached(index, h, s);
    var probe: nat :| ReachedAt(index, h, probe, s);
    SearchIsFirst(index, keys, h, keys[s], probe, s, 0);
    var r := Search(index, keys, h, keys[s]);
    var e := At(index, h, r.value);
    assert index[Pos(h, r.value, |index|)] == e;
    assert e.slot in live;
  }

  /** Searching a key that no live slot holds finds nothing. */
  lemma SearchMissesDead<K>(hash: K -> nat, index: seq<IndexSlot>, keys: seq<K>, live: set<nat>, key: K)
    requires Serves(hash, index, keys, live) && !HasKey(keys, live, key)
    ensures Search(index, keys, hash(key), key).None?
  {
    forall p | 0 <= p < |index| ensures !Hits(index[p], keys, key) {
    }
  }

  // -------------------------------------------------------------------- erase

  /** An entry that is not empty may change to any non-empty entry without stopping a search. */
  lemma ReachedDespite(index: seq<IndexSlot>, p: nat, e: IndexSlot, h: nat, slot: nat)
    requires index != [] && p < |index| && e != Empty && index[p] != Occupied(slot)
    requires Reached(index, h, slot)
    ensures Reached(index[p := e], h, slot)
  {
    var probe: nat :| ReachedAt(index, h, probe, slot);
    var r := index[p := e];
    forall q | 0 <= q < probe ensures At(r, h, q) != Empty {
      assert At(index, h, q) != Empty;
    }
    assert ReachedAt(r, h, probe, slot);
  }

  /** Replacing a slot's entry by a tombstone serves the other live slots. */
  lemma EraseServes<K>(hash: K -> nat, index: seq<IndexSlot>, keys: seq<K>, live: set<nat>, p: nat, s: nat)
    requires Serves(hash, index, keys, live) && p < |index| && index[p] == Occupied(s)
    ensures s in live && Serves(hash, index[p := Tombstone], keys, live - {s})
  {
    forall t | t in live - {s} ensures Reached(index[p := Tombstone], hash(keys[t]), t) {
      ReachedDespite(index, p, Tombstone, hash(keys[t]), t);
    }
  }

  // ------------------------------------------------------------------- insert

  /**
   Where an insert puts its entry: the first tombstone met before an empty entry,
   else that empty entry; None if the key is met first or no entry is left.
   `tomb` is the first tombstone met before the `probe`-th try.
   */
  function InsertTry<K(==)>(index: seq<IndexSlot>, keys: seq<K>, h: nat, key: K, tomb: Option<nat> := None,
                            probe: nat := 0): (r: Option<nat>)
    requires index != [] && probe <= |index|
    decreases |index| - probe
  {
    if probe == |index| then tomb
    else match At(index, h, probe)
      case Occupied(_) =>
        if Hits(At(index, h, probe), keys, key) then None else InsertTry(index, keys, h, key, tomb, probe + 1)
      case Tombstone => InsertTry(index, keys, h, key, if tomb.None? then Some(probe) else tomb, probe + 1)
      case Empty => if tomb.Some? then tomb else Some(probe)
  }

  /** A try that stands for an insertable place: not occupied, and no empty entry before it. */
  ghost predicate Insertable(index: seq<IndexSlot>, h: nat, probe: nat)
    requires index != []
  {
    probe < |index| && Unstopped(index, h, probe) && !At(index, h, probe).Occupied?
  }

  lemma {:induction false} InsertTryIsInsertable<K>(index: seq<IndexSlot>, keys: seq<K>, h: nat, key: K,
                                                    tomb: Option<nat>, probe: nat)
    requires index != [] && probe <= |index| && Unstopped(index, h, probe)
    requires forall p :: 0 <= p < |index| ==> !Hits(index[p], keys, key)
    requires tomb.Some? ==> Insertable(index, h, tomb.value)
    requires tomb.None? ==> forall q :: 0 <= q < probe ==> At(index, h, q).Occupied?
    ensures var r := InsertTry(index, keys, h, key, tomb, probe);
      if r.Some? then Insertable(index, h, r.value)
      else forall q :: 0 <= q < |index| ==> At(index, h, q).Occupied?
    decreases |index| - probe
  {
    if probe == |index| {
    } else {
      match At(index, h, probe)
      case Occupied(_) => InsertTryIsInsertable(index, keys, h, key, tomb, probe + 1);
      case Tombstone => InsertTryIsInsertable(index, keys, h, key, if tomb.None? then Some(probe) else tomb, probe + 1);
      case Empty =>
    }
  }

  /** Every position is tried. */
  lemma EveryPositionTried(h: nat, p: nat, n: nat) returns (probe: nat)
    requires p < n
    ensures probe < n && Pos(h, probe, n) == p
  {
    probe := if p >= h % n then p - h % n else p + n - h % n;
    PosWrapsOnce(h, probe, n);
  }

  lemma {:induction false} FullIndexNamesMany(index: seq<IndexSlot>, live: set<nat>)
    requires NamesLive(index, live) && forall p :: 0 <= p < |index| ==> index[p].Occupied?
    ensures |live| >= |index|
  {
    if index == [] {
    } else {
      var last := index[|index| - 1];
      var front := index[..|index| - 1];
      assert NamesLive(front, live - {last.slot});
      FullIndexNamesMany(front, live - {last.slot});
    }
  }

  /** With fewer live slots than entries an insert finds a place. */
  lemma InsertHasRoom<K>(hash: K -> nat, index: seq<IndexSlot>, keys: seq<K>, live: set<nat>, key: K)
    requires Serves(hash, index, keys, live) && !HasKey(keys, live, key) && |live| < |index|
    ensures var r := InsertTry(index, keys, hash(key), key);
      r.Some? && Insertable(index, hash(key), r.value)
  {
    var h := hash(key);
    InsertTryIsInsertable(index, keys, h, key, None, 0);
    if InsertTry(index, keys, h, key).None? {
      forall p | 0 <= p < |index| ensures index[p].Occupied? {
        var probe := EveryPositionTried(h, p, |index|);
        assert At(index, h, probe).Occupied?;
      }
      FullIndexNamesMany(index, live);
      assert false;
    }
  }

  /** Filling an insertable place serves the new slot beside the old ones. */
  lemma InsertServes<K>(hash: K -> nat, index: seq<IndexSlot>, keys: seq<K>, live: set<nat>, probe: nat, s: nat)
    requires Serves(hash, index, keys, live) && s !in live && s < |keys| && !HasKey(keys, live, keys[s])
    requires Insertable(index, hash(keys[s]), probe)
    ensures Serves(hash, index[Pos(hash(keys[s]), probe, |index|) := Occupied(s)], keys, live + {s})
  {
    var h := hash(keys[s]);
    var p := Pos(h, probe, |index|);
    var r := index[p := Occupied(s)];
    forall t | t in live ensures Reached(r, hash(keys[t]), t) {
      ReachedDespite(index, p, Occupied(s), hash(keys[t]), t);
    }
    forall q | 0 <= q < probe ensures At(r, h, q) != Empty {
      assert At(index, h, q) != Empty;
    }
    assert ReachedAt(r, h, probe, s);
  }

  /** Only the keys of live slots matter to an index. */
  lemma DeadKeysDoNotMatter<K>(hash: K -> nat, index: seq<IndexSlot>, keys: seq<K>, other: seq<K>, live: set<nat>)
    requires Serves(hash, index, keys, live)
    requires forall s :: s in live ==> s < |other| && other[s] == keys[s]
    ensures Serves(hash, index, other, live)
  {
    forall s | s in live ensures Reached(index, hash(other[s]), s) {
      assert Reached(index, hash(keys[s]), s);
    }
  }

  /** A new key goes to the first try that is not occupied, so the first tombstone is used again. */
  lemma {:induction false} InsertTryIsFirst<K>(index: seq<IndexSlot>, keys: seq<K>, h: nat, key: K,
                                               tomb: Option<nat>, probe: nat)
    requires index != [] && probe <= |index|
    requires forall p :: 0 <= p < |index| ==> !Hits(index[p], keys, key)
    requires match tomb
      case Some(q) => q < probe && !At(index, h, q).Occupied? && forall p :: 0 <= p < q ==> At(index, h, p).Occupied?
      case None => forall p :: 0 <= p < probe ==> At(index, h, p).Occupied?
    ensures match InsertTry(index, keys, h, key, tomb, probe)
      case Some(r) =>
        r < |index| && !At(index, h, r).Occupied? && forall p :: 0 <= p < r ==> At(index, h, p).Occupied?
      case None => forall p :: 0 <= p < |index| ==> At(index, h, p).Occupied?
    decreases |index| - probe
  {
    if probe < |index| && !At(index, h, probe).Empty? {
      InsertTryIsFirst(index, keys, h, key, if At(index, h, probe).Tombstone? && tomb.None? then Some(probe) else tomb,
                       probe + 1);
    }
  }

  /** A key that is met before any empty entry is not entered again. */
  lemma {:induction false} InsertTryMeetsKey<K>(index: seq<IndexSlot>, keys: seq<K>, h: nat, key: K,
                                                tomb: Option<nat>, probe: nat, hit: nat)
    requires index != [] && probe <= hit < |index| && Hits(At(index, h, hit), keys, key)
    requires forall p :: probe <= p < hit ==> !At(index, h, p).Empty?
    ensures InsertTry(index, keys, h, key, tomb, probe) == None
    decreases hit - probe
  {
    if probe < hit && !Hits(At(index, h, probe), keys, key) {
      InsertTryMeetsKey(index, keys, h, key, if At(index, h, probe).Tombstone? && tomb.None? then Some(probe) else tomb,
                        probe + 1, hit);
    }
  }
}
