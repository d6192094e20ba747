/** Runs of operations on a slotted map give the answers of a finite map. */
module SlottedRuns {
  import opened Common
  import opened SlottedIndex
  import opened SlottedModel

  datatype Op<K, V> = InsertOp(key: K, entry: V) | RemoveOp(key: K) | ExtractOp(key: K) | GetOp(key: K) | ClearOp

  /** What an operation answers: its status, and the entry it gives out. */
  datatype Answer<V> = Answer(status: Status, entry: Option<V>)

  ghost function Step<K, V>(hash: K -> nat, blank: Slot<K, V>, t: Table<K, V>, op: Op<K, V>)
    : (r: (Answer<V>, Table<K, V>))
    requires Shaped(t)
    ensures Shaped(r.1) && |r.1.slots| == |t.slots|
  {
    match op
    case InsertOp(key, entry) =>
      var (status, next) := Insert(hash, blank, t, key, entry);
      (Answer(status, None), next)
    case RemoveOp(key) =>
      var (status, _, next) := Extract(hash, blank, t, key);
      (Answer(status, None), next)
    case ExtractOp(key) =>
      var (status, entry, next) := Extract(hash, blank, t, key);
      (Answer(status, entry), next)
    case GetOp(key) =>
      (match FindIndex(hash, t, key)
       case None => (Answer(NotFound, None), t)
       case Some(i) => (Answer(Ok, Some(t.slots[i].entry)), t))
    case ClearOp => (Answer(Ok, None), Cleared(blank, t))
  }

  /** All the answers of a run, and the table it ends with. */
  ghost function Run<K, V>(hash: K -> nat, blank: Slot<K, V>, t: Table<K, V>, ops: seq<Op<K, V>>)
    : (r: (seq<Answer<V>>, Table<K, V>))
    requires Shaped(t)
    ensures Shaped(r.1) && |r.1.slots| == |t.slots|
  {
    if ops == [] then ([], t)
    else
      var (answers, before) := Run(hash, blank, t, ops[..|ops| - 1]);
      var (answer, next) := Step(hash, blank, before, ops[|ops| - 1]);
      (answers + [answer], next)
  }

  /** The same operation on a finite map that holds at most `capacity` keys; it never answers `Corrupt`. */
  ghost function StepMap<K, V>(m: map<K, V>, capacity: nat, op: Op<K, V>): (r: (Answer<V>, map<K, V>))
    ensures r.0.status != Corrupt
  {
    match op
    case InsertOp(key, entry) =>
      if key in m then (Answer(AlreadyExists, None), m)
      else if |m| >= capacity then (Answer(OutOfMemory, None), m)
      else (Answer(Ok, None), m[key := entry])
    case RemoveOp(key) => (Answer(if key in m then Ok else NotFound, None), m - {key})
    case ExtractOp(key) =>
      if key in m then (Answer(Ok, Some(m[key])), m - {key}) else (Answer(NotFound, None), m)
    case GetOp(key) => if key in m then (Answer(Ok, Some(m[key])), m) else (Answer(NotFound, None), m)
    case ClearOp => (Answer(Ok, None), map[])
  }

  ghost function RunMap<K, V>(m: map<K, V>, capacity: nat, ops: seq<Op<K, V>>): (r: (seq<Answer<V>>, map<K, V>))
    ensures forall i :: 0 <= i < |r.0| ==> r.0[i].status != Corrupt
  {
    if ops == [] then ([], m)
    else
      var (answers, before) := RunMap(m, capacity, ops[..|ops| - 1]);
      var (answer, next) := StepMap(before, capacity, ops[|ops| - 1]);
      (answers + [answer], next)
  }

  lemma {:induction false} ContentsSize<K, V>(s: seq<Slot<K, V>>)
    requires UniqueKeys(s)
    ensures |ToMap(s)| == |s|
  {
    if s == [] {
    } else {
      var front := s[..|s| - 1];
      ContentsSize(front);
      assert s[|s| - 1].key !in ToMap(front);
      assert ToMap(s).Keys == ToMap(front).Keys + {s[|s| - 1].key};
    }
  }

  /** Each operation answers as the map's, and leaves a sound table that stands for the map it leaves. */
  lemma StepRefinesMap<K, V>(hash: K -> nat, blank: Slot<K, V>, t: Table<K, V>, op: Op<K, V>)
    requires Sound(hash, t)
    ensures var (answer, next) := Step(hash, blank, t, op);
      Sound(hash, next) && (answer, Contents(next)) == StepMap(Contents(t), |t.slots|, op)
  {
    hide Serves, Insert, Extract, FindIndex, Cleared, ToMap;
    match op
    case InsertOp(key, entry) =>
      InsertIsUpdate(hash, blank, t, key, entry);
      DenseKeysUnique(hash, t);
      ContentsSize(Dense(t));
    case RemoveOp(key) => ExtractIsRemove(hash, blank, t, key);
    case ExtractOp(key) => ExtractIsRemove(hash, blank, t, key);
    case GetOp(key) => FindIndexIsLookup(hash, t, key);
    case ClearOp => ClearedIsEmpty(hash, blank, t);
  }

  /** Over any run the table stays sound, stands for the map the run makes and gives all the map's answers, never
      `Corrupt`. */
  lemma {:induction false} RunRefinesMap<K, V>(hash: K -> nat, blank: Slot<K, V>, t: Table<K, V>, ops: seq<Op<K, V>>)
    requires Sound(hash, t)
    ensures var (answers, end) := Run(hash, blank, t, ops);
      && Sound(hash, end)
      && (answers, Contents(end)) == RunMap(Contents(t), |t.slots|, ops)
      && forall i :: 0 <= i < |answers| ==> answers[i].status != Corrupt
  {
    if ops == [] {
    } else {
      hide Step, StepMap, Contents, Serves;
      RunRefinesMap(hash, blank, t, ops[..|ops| - 1]);
      StepRefinesMap(hash, blank, Run(hash, blank, t, ops[..|ops| - 1]).1, ops[|ops| - 1]);
    }
  }

  /** The slots that are not in use are blank. */
  ghost predicate RestBlank<K, V>(blank: Slot<K, V>, t: Table<K, V>) {
    forall i :: t.size <= i < |t.slots| ==> t.slots[i] == blank
  }

  /** A new entry comes last, a removed one is replaced by the last, and nothing of it stays behind. */
  lemma StepOrders<K, V>(hash: K -> nat, blank: Slot<K, V>, t: Table<K, V>, op: Op<K, V>)
    requires Sound(hash, t) && RestBlank(blank, t)
    ensures var (answer, next) := Step(hash, blank, t, op);
      && RestBlank(blank, next)
      && (op.InsertOp? && answer.status == Ok ==> Dense(next) == Dense(t) + [Slot(op.key, op.entry)])
      && ((op.RemoveOp? || op.ExtractOp?) && answer.status == Ok ==>
            exists i :: 0 <= i < t.size && t.slots[i].key == op.key && Dense(next) == RemoveAt(Dense(t), i))
      && (answer.status != Ok || op.GetOp? ==> Dense(next) == Dense(t))
  {
    hide Serves, Insert, Extract, FindIndex, RestBlank, RemoveAt, Dense, Cleared;
    match op
    case InsertOp(key, entry) => InsertOrders(hash, blank, t, key, entry);
    case RemoveOp(key) => ExtractOrders(hash, blank, t, key);
    case ExtractOp(key) => ExtractOrders(hash, blank, t, key);
    case GetOp(_) =>
    case ClearOp => ClearedIsBlank(blank, t);
  }

  lemma InsertOrders<K, V>(hash: K -> nat, blank: Slot<K, V>, t: Table<K, V>, key: K, entry: V)
    requires Sound(hash, t) && RestBlank(blank, t)
    ensures var (status, next) := Insert(hash, blank, t, key, entry);
      RestBlank(blank, next) && Dense(next) == if status == Ok then Dense(t) + [Slot(key, entry)] else Dense(t)
  {
    hide Serves, IndexInsert, FindIndex;
  }

  lemma ClearedIsBlank<K, V>(blank: Slot<K, V>, t: Table<K, V>)
    requires Shaped(t) && RestBlank(blank, t)
    ensures RestBlank(blank, Cleared(blank, t))
  {
  }

  lemma ExtractOrders<K, V>(hash: K -> nat, blank: Slot<K, V>, t: Table<K, V>, key: K)
    requires Sound(hash, t) && RestBlank(blank, t)
    ensures var (status, _, next) := Extract(hash, blank, t, key);
      && RestBlank(blank, next)
      && (status == Ok ==>
            exists i :: 0 <= i < t.size && t.slots[i].key == key && Dense(next) == RemoveAt(Dense(t), i))
      && (status != Ok ==> Dense(next) == Dense(t))
  {
    FindIndexIsLookup(hash, t, key);
    ExtractIsRemove(hash, blank, t, key);
    hide Sound, ToMap, FindIndex, Vacate, RestBlank, RemoveAt;
    var found := FindIndex(hash, t, key);
    if found.Some? && Vacate(hash, blank, t, key, found.value).Some? {
      VacateLeavesBlank(hash, blank, t, key, found.value);
    }
  }

  lemma VacateLeavesBlank<K, V>(hash: K -> nat, blank: Slot<K, V>, t: Table<K, V>, key: K, i: nat)
    requires Shaped(t) && i < t.size && RestBlank(blank, t) && Vacate(hash, blank, t, key, i).Some?
    ensures RestBlank(blank, Vacate(hash, blank, t, key, i).value)
  {
    hide IndexErase, MoveLast;
  }

  /** Over any run the slots that are not in use stay blank. */
  lemma {:induction false} RunLeavesRestBlank<K, V>(hash: K -> nat, blank: Slot<K, V>, t: Table<K, V>,
                                                    ops: seq<Op<K, V>>)
    requires Sound(hash, t) && RestBlank(blank, t)
    ensures RestBlank(blank, Run(hash, blank, t, ops).1)
  {
    if ops == [] {
    } else {
      hide Step, Serves;
      RunRefinesMap(hash, blank, t, ops[..|ops| - 1]);
      RunLeavesRestBlank(hash, blank, t, ops[..|ops| - 1]);
      StepOrders(hash, blank, Run(hash, blank, t, ops[..|ops| - 1]).1, ops[|ops| - 1]);
    }
  }
}
