/** The browser's durable key/value store as the app uses it: an object store
    `tasks` keyed by each record's `id`, and an object store `counters` whose
    record `taskId` holds the next id to hand out. Every request may be
    rejected by the backend; the caller says which with an `ok` flag. The
    connection handle is page state and lives with the page script. */
module TaskStore {
  import opened TaskRecords

  datatype Outcome = Done | Failed

  datatype Result<T> = Success(value: T) | Failure

  /** A write request sent to the store, in the order the app sends them. */
  datatype Write = StoreTask(task: Task) | RemoveTask(id: int) | StoreCounter(value: int)

  /** The `tasks` object store has key path `id`: each record sits under its
      own id. */
  ghost predicate KeyedById(m: map<int, Task>) {
    forall k :: k in m ==> m[k].id == k
  }

  /** What `loadTaskCounter` makes of the `taskId` record: its value, or 0 when
      there is none. */
  function CounterOrZero(record: Option<int>): (r: int)
    ensures record == Some(r) || (record == None && r == 0)
  {
    match record
    case Some(v) => v
    case None => 0
  }

  /** Every stored record's id is below the stored counter, so the counter
      never hands out an id that is already in use. */
  ghost predicate Covered(m: map<int, Task>, record: Option<int>) {
    forall k :: k in m ==> k < CounterOrZero(record)
  }

  predicate IsLeast(k: int, s: set<int>) {
    k in s && forall j :: j in s ==> k <= j
  }

  lemma HasElement(s: set<int>)
    requires s != {}
    ensures exists x :: x in s
  {
    if forall x :: x !in s {
      assert false;
    }
  }

  /** Every finite non-empty set of ids has a least element. */
  lemma {:induction false} LeastKeyExists(s: set<int>)
    requires s != {}
    ensures exists k :: IsLeast(k, s)
    decreases |s|
  {
    HasElement(s);
    var x :| x in s;
    var s' := s - {x};
    if s' == {} {
      assert s == {x};
      assert IsLeast(x, s);
    } else {
      LeastKeyExists(s');
      var y :| IsLeast(y, s');
      var k := if x < y then x else y;
      assert IsLeast(k, s) by {
        forall j | j in s ensures k <= j {
          if j != x { assert j in s'; }
        }
      }
    }
  }

  /** Ids strictly ascend along `r`. */
  ghost predicate Ascending(r: seq<Task>) {
    forall i, j :: 0 <= i < j < |r| ==> r[i].id < r[j].id
  }

  /** `r` holds the records of `m` and nothing else. */
  ghost predicate RecordsOf(r: seq<Task>, m: map<int, Task>) {
    && (forall i :: 0 <= i < |r| ==> r[i].id in m && m[r[i].id] == r[i])
    && (forall k :: k in m ==> m[k] in r)
  }

  /** `r` lists the records of `m`, each once, in ascending key order. */
  ghost predicate ListsInKeyOrder(r: seq<Task>, m: map<int, Task>) {
    |r| == |m| && RecordsOf(r, m) && Ascending(r)
  }

  /** The records of the `tasks` object store as `getAll` lists them: every
      record exactly once, in ascending key order. */
  function InKeyOrder(m: map<int, Task>): (r: seq<Task>)
    requires KeyedById(m)
    ensures ListsInKeyOrder(r, m)
    decreases |m|
  {
    if m == map[] then []
    else
      LeastKeyExists(m.Keys);
      var k :| k in m && IsLeast(k, m.Keys);
      var rest := m - {k};
      var tail := InKeyOrder(rest);
      assert |m| == |rest| + 1 by { assert m.Keys == rest.Keys + {k}; }
      LeastFirstRecords(m, k, tail);
      LeastFirstAscending(m, k, tail);
      [m[k]] + tail
  }

  /** Putting the record with key `k` in front of a listing of the others
      lists every record. */
  lemma LeastFirstRecords(m: map<int, Task>, k: int, tail: seq<Task>)
    requires KeyedById(m) && k in m && RecordsOf(tail, m - {k})
    ensures RecordsOf([m[k]] + tail, m)
  {
    var r := [m[k]] + tail;
    forall i | 0 <= i < |r| ensures r[i].id in m && m[r[i].id] == r[i] {
      if i > 0 {
        assert r[i] == tail[i - 1];
        assert r[i].id in m - {k} && (m - {k})[r[i].id] == m[r[i].id];
      }
    }
    forall x | x in m && x != k ensures m[x] in r {
      assert m[x] == (m - {k})[x];
    }
  }

  /** ... and, when `k` is the least key, in ascending order. */
  lemma LeastFirstAscending(m: map<int, Task>, k: int, tail: seq<Task>)
    requires KeyedById(m) && IsLeast(k, m.Keys)
    requires RecordsOf(tail, m - {k}) && Ascending(tail)
    ensures Ascending([m[k]] + tail)
  {
    var r := [m[k]] + tail;
    forall j | 0 < j < |r| ensures r[0].id < r[j].id {
      assert r[j] == tail[j - 1];
      assert r[j].id in m - {k};
    }
    forall i, j | 0 < i < j < |r| ensures r[i].id < r[j].id {
      assert r[i] == tail[i - 1] && r[j] == tail[j - 1];
    }
  }

  /** Saving a record and listing the store returns that record: the
      round trip of `saveTask` and `loadTasks`. */
  lemma PutThenList(m: map<int, Task>, t: Task)
    requires KeyedById(m)
    ensures KeyedById(m[t.id := t])
    ensures t in InKeyOrder(m[t.id := t])
    ensures forall k :: k in m && k != t.id ==> m[k] in InKeyOrder(m[t.id := t])
  {
    var m' := m[t.id := t];
    assert t == m'[t.id];
    assert forall k :: k in m && k != t.id ==> m[k] == m'[k];
  }

  class Database {
    /** The object stores exist (the upgrade of the first open ran). */
    var provisioned: bool
    /** Object store `tasks`, keyed by id. */
    var tasks: map<int, Task>
    /** The value of the `taskId` record in object store `counters`, if any. */
    var counter: Option<int>
    /** The write requests that reached the store, oldest first, the seed of
        the counter included. */
    ghost var writes: seq<Write>

    ghost predicate Valid()
      reads this
    {
      && KeyedById(tasks)
      && (!provisioned ==> tasks == map[] && counter == None)
    }

    /** A browser profile in which the app never ran. */
    constructor ()
      ensures Valid()
      ensures !provisioned && tasks == map[] && counter == None && writes == []
    {
      provisioned := false;
      tasks, counter := map[], None;
      writes := [];
    }

    /** `initDB`'s open request: the first accepted open creates both object
        stores and seeds the counter with 0; a later one finds them as they
        were left. */
    method Open(ok: bool) returns (r: Outcome)
      requires Valid()
      modifies this
      ensures Valid()
      ensures r == Done <==> ok
      ensures provisioned == (old(provisioned) || ok)
      ensures !old(provisioned) && ok ==>
                tasks == map[] && counter == Some(0) && writes == old(writes) + [StoreCounter(0)]
      ensures old(provisioned) || !ok ==>
                tasks == old(tasks) && counter == old(counter) && writes == old(writes)
    {
      if !ok {
        return Failed;
      }
      if !provisioned {
        provisioned := true;
        tasks := map[];
        counter := Some(0);
        writes := writes + [StoreCounter(0)];
      }
      r := Done;
    }

    /** The `put` request of `saveTask`: upserts the record under its id. */
    method Put(t: Task, ok: bool) returns (r: Outcome)
      requires Valid() && provisioned
      modifies this
      ensures Valid() && provisioned
      ensures r == Done <==> ok
      ensures tasks == if ok then old(tasks)[t.id := t] else old(tasks)
      ensures writes == if ok then old(writes) + [StoreTask(t)] else old(writes)
      ensures counter == old(counter)
    {
      if !ok {
        return Failed;
      }
      tasks := tasks[t.id := t];
      writes := writes + [StoreTask(t)];
      r := Done;
    }

    /** The `getAll` request of `loadTasks`: every stored record, in key order. */
    method GetAll(ok: bool) returns (r: Result<seq<Task>>)
      requires Valid() && provisioned
      ensures r.Success? <==> ok
      ensures r.Success? ==> ListsInKeyOrder(r.value, tasks)
    {
      if !ok {
        return Failure;
      }
      r := Success(InKeyOrder(tasks));
    }

    /** The `delete` request of `deleteTaskFromDB`: removes the record with
        that id, if there is one; deleting an absent id succeeds. */
    method Delete(id: int, ok: bool) returns (r: Outcome)
      requires Valid() && provisioned
      modifies this
      ensures Valid() && provisioned
      ensures r == Done <==> ok
      ensures tasks == if ok then old(tasks) - {id} else old(tasks)
      ensures writes == if ok then old(writes) + [RemoveTask(id)] else old(writes)
      ensures counter == old(counter)
    {
      if !ok {
        return Failed;
      }
      tasks := tasks - {id};
      writes := writes + [RemoveTask(id)];
      r := Done;
    }

    /** The `get` request of `loadTaskCounter`: the `taskId` record, which may
        be absent. */
    method GetCounter(ok: bool) returns (r: Result<Option<int>>)
      requires Valid() && provisioned
      ensures r.Success? <==> ok
      ensures r.Success? ==> r.value == counter
    {
      if !ok {
        return Failure;
      }
      r := Success(counter);
    }

    /** The `put` request of `saveTaskCounter`: overwrites the `taskId` record. */
    method SetCounter(value: int, ok: bool) returns (r: Outcome)
      requires Valid() && provisioned
      modifies this
      ensures Valid() && provisioned
      ensures r == Done <==> ok
      ensures counter == if ok then Some(value) else old(counter)
      ensures writes == if ok then old(writes) + [StoreCounter(value)] else old(writes)
      ensures tasks == old(tasks)
    {
      if !ok {
        return Failed;
      }
      counter := Some(value);
      writes := writes + [StoreCounter(value)];
      r := Done;
    }
  }
}
