/** The to-do record and the list operations the handlers apply to the
    in-memory `tasks` array: `find` by id and `filter` out an id. */
module TaskRecords {

  /** One to-do item, as stored: `createdAt` is the ISO timestamp taken at
      creation, kept as an opaque string. */
  datatype Task = Task(id: int, text: string, completed: bool, createdAt: string)

  datatype Option<T> = None | Some(value: T)

  /** The record after `task.completed = !task.completed`. */
  function Flip(t: Task): (r: Task)
    ensures r.id == t.id && r.text == t.text && r.createdAt == t.createdAt
    ensures r.completed != t.completed
  {
    t.(completed := !t.completed)
  }

  /** Flipping twice gives the record back: the rollback in `toggleTask`
      restores what was there. */
  lemma FlipTwice(t: Task)
    ensures Flip(Flip(t)) == t
  {
  }

  predicate HasId(ts: seq<Task>, id: int) {
    exists i :: 0 <= i < |ts| && ts[i].id == id
  }

  /** No two entries share an id. */
  predicate DistinctIds(ts: seq<Task>) {
    forall i, j :: 0 <= i < j < |ts| ==> ts[i].id != ts[j].id
  }

  /** Every id in the list is below the next id to hand out, and no id occurs
      twice: the list and the counter agree. */
  predicate IdsFresh(ts: seq<Task>, counter: int) {
    (forall i :: 0 <= i < |ts| ==> ts[i].id < counter) && DistinctIds(ts)
  }

  /** Appending a record that carries the counter's value, and moving the
      counter one up, keeps the list and the counter in agreement. */
  lemma {:induction false} IdsFreshAppend(ts: seq<Task>, counter: int, t: Task)
    requires IdsFresh(ts, counter) && t.id == counter
    ensures IdsFresh(ts + [t], counter + 1)
  {
    var us := ts + [t];
    forall i, j | 0 <= i < j < |us| ensures us[i].id != us[j].id {
      if j == |ts| { assert us[i].id == ts[i].id < counter; }
      else { assert us[i] == ts[i] && us[j] == ts[j]; }
    }
  }

  /** `tasks.find(t => t.id === id)`: the position of the first entry with
      that id, or none when no entry has it. */
  function FindIndex(ts: seq<Task>, id: int): (r: Option<nat>)
    ensures r.None? <==> !HasId(ts, id)
    ensures r.Some? ==> r.value < |ts| && ts[r.value].id == id
                        && forall i :: 0 <= i < r.value ==> ts[i].id != id
  {
    if ts == [] then None
    else if ts[0].id == id then Some(0)
    else match FindIndex(ts[1..], id)
      case None =>
        assert forall i :: 1 <= i < |ts| ==> ts[i] == ts[1..][i - 1];
        None
      case Some(k) =>
        assert forall i :: 1 <= i <= k + 1 ==> ts[i] == ts[1..][i - 1];
        Some(k + 1)
  }

  /** `tasks.filter(t => t.id !== id)`. */
  function Without(ts: seq<Task>, id: int): (r: seq<Task>)
    ensures |r| <= |ts|
    ensures !HasId(r, id)
    ensures forall t :: t in ts && t.id != id ==> t in r
    ensures forall t :: t in r ==> t in ts
  {
    if ts == [] then []
    else if ts[0].id == id then Without(ts[1..], id)
    else [ts[0]] + Without(ts[1..], id)
  }

  /** Filtering distributes over concatenation: together with
      `WithoutSingle`, the kept entries stay in their original order. */
  lemma {:induction false} WithoutAppend(a: seq<Task>, b: seq<Task>, id: int)
    ensures Without(a + b, id) == Without(a, id) + Without(b, id)
  {
    if a == [] {
      assert a + b == b;
    } else {
      assert (a + b)[1..] == a[1..] + b;
      WithoutAppend(a[1..], b, id);
    }
  }

  lemma WithoutSingle(t: Task, id: int)
    ensures Without([t], id) == if t.id == id then [] else [t]
  {
  }

  /** Filtering out an id that no entry carries changes nothing. */
  lemma {:induction false} WithoutAbsent(ts: seq<Task>, id: int)
    requires !HasId(ts, id)
    ensures Without(ts, id) == ts
  {
    if ts != [] {
      assert ts == [ts[0]] + ts[1..];
      assert !HasId(ts[1..], id) by {
        forall i | 0 <= i < |ts[1..]| ensures ts[1..][i].id != id {
          assert ts[1..][i] == ts[i + 1];
        }
      }
      WithoutAbsent(ts[1..], id);
    }
  }

  /** Filtering keeps ids distinct. */
  lemma {:induction false} WithoutKeepsDistinct(ts: seq<Task>, id: int)
    requires DistinctIds(ts)
    ensures DistinctIds(Without(ts, id))
  {
    if ts != [] {
      var tail := ts[1..];
      assert forall i :: 0 <= i < |tail| ==> tail[i] == ts[i + 1];
      WithoutKeepsDistinct(tail, id);
      if ts[0].id != id {
        ConsDistinct(ts[0], Without(tail, id));
      }
    }
  }

  lemma ConsDistinct(t: Task, rest: seq<Task>)
    requires DistinctIds(rest)
    requires forall u :: u in rest ==> u.id != t.id
    ensures DistinctIds([t] + rest)
  {
    var r := [t] + rest;
    forall i, j | 0 <= i < j < |r| ensures r[i].id != r[j].id {
      assert r[j] == rest[j - 1];
      if i > 0 { assert r[i] == rest[i - 1]; }
    }
  }
}
