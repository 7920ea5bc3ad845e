/** The to-do part of the page script: the module-level `tasks` array and
    `taskIdCounter`, the start-up load, and the three handlers `addTask`,
    `toggleTask` and `deleteTask`, each of which awaits its store requests in
    turn and compensates in memory when one is rejected. */
module TodoApp {
  import opened TaskText
  import opened TaskRecords
  import opened TaskStore

  /** The in-memory list shows exactly the stored records, no id twice. */
  ghost predicate Mirrors(ts: seq<Task>, m: map<int, Task>) {
    DistinctIds(ts) && RecordsOf(ts, m)
  }

  /** A fresh load shows the store as it is. */
  lemma MirrorsLoaded(ts: seq<Task>, m: map<int, Task>)
    requires ListsInKeyOrder(ts, m)
    ensures Mirrors(ts, m)
  {
  }

  /** Saving a record under an unused id and appending it to the list keeps
      the two in step. */
  lemma MirrorsAppend(ts: seq<Task>, m: map<int, Task>, t: Task)
    requires KeyedById(m) && Mirrors(ts, m) && t.id !in m
    ensures Mirrors(ts + [t], m[t.id := t])
  {
    var us, m' := ts + [t], m[t.id := t];
    forall i, j | 0 <= i < j < |us| ensures us[i].id != us[j].id {
      assert us[i] == ts[i];
      if j < |ts| { assert us[j] == ts[j]; }
    }
    forall i | 0 <= i < |us| ensures us[i].id in m' && m'[us[i].id] == us[i] {
      if i < |ts| { assert us[i] == ts[i]; }
    }
    forall k | k in m' ensures m'[k] in us {
      if k != t.id { assert m'[k] == m[k]; }
      else { assert us[|ts|] == t; }
    }
  }

  /** Replacing a listed record by one with the same id, in the list and in
      the store, keeps the two in step. */
  lemma MirrorsUpdate(ts: seq<Task>, m: map<int, Task>, i: nat, t: Task)
    requires KeyedById(m) && Mirrors(ts, m) && i < |ts| && ts[i].id == t.id
    ensures Mirrors(ts[i := t], m[t.id := t])
  {
    var us, m' := ts[i := t], m[t.id := t];
    forall j | 0 <= j < |us| ensures us[j].id in m' && m'[us[j].id] == us[j] {
      if j != i { assert us[j] == ts[j] && ts[j].id != ts[i].id; }
    }
    forall k | k in m' ensures m'[k] in us {
      if k == t.id {
        assert us[i] == t;
      } else {
        var j :| 0 <= j < |ts| && ts[j] == m[k];
        assert ts[j].id == k;
        assert j != i && us[j] == ts[j];
      }
    }
  }

  /** Deleting an id from the store and filtering it out of the list keeps the
      two in step. */
  lemma MirrorsRemove(ts: seq<Task>, m: map<int, Task>, id: int)
    requires KeyedById(m) && Mirrors(ts, m)
    ensures Mirrors(Without(ts, id), m - {id})
  {
    var us, m' := Without(ts, id), m - {id};
    WithoutKeepsDistinct(ts, id);
    forall j | 0 <= j < |us| ensures us[j].id in m' && m'[us[j].id] == us[j] {
      assert us[j] in ts;
      var i :| 0 <= i < |ts| && ts[i] == us[j];
      assert us[j].id != id by {
        assert !HasId(us, id);
      }
    }
    forall k | k in m' ensures m'[k] in us {
      assert m[k] in ts && m[k].id == k;
    }
  }

  class App {
    /** The durable store behind the module-level `db` handle. */
    const db: Database
    /** The module-level `db` handle is set: this page opened the database.
        Until then every request throws on the undefined handle and its
        promise rejects. */
    var isOpen: bool
    /** The module-level `tasks` array: what the page shows. */
    var tasks: seq<Task>
    /** The module-level `taskIdCounter`: the id the next task gets. */
    var taskIdCounter: int

    ghost predicate Valid()
      reads this, db
    {
      db.Valid() && (isOpen ==> db.provisioned)
    }

    /** The list shows the store, the counter in memory equals the stored one,
        and every stored id is below it. */
    ghost predicate Consistent()
      reads this, db
    {
      && Valid()
      && Mirrors(tasks, db.tasks)
      && taskIdCounter == CounterOrZero(db.counter)
      && Covered(db.tasks, db.counter)
    }

    /** The script is loaded over whatever the browser profile holds: no
        handle yet, an empty list and a counter at 0. */
    constructor (db: Database)
      requires db.Valid()
      ensures Valid() && this.db == db
      ensures !isOpen && tasks == [] && taskIdCounter == 0
    {
      this.db := db;
      isOpen := false;
      tasks := [];
      taskIdCounter := 0;
    }

    /** `saveTask`: upserts the record. */
    method SaveTask(t: Task, ok: bool) returns (r: Outcome)
      requires Valid()
      modifies db
      ensures Valid()
      ensures r == Done <==> isOpen && ok
      ensures db.tasks == if r == Done then old(db.tasks)[t.id := t] else old(db.tasks)
      ensures db.writes == if r == Done then old(db.writes) + [StoreTask(t)] else old(db.writes)
      ensures db.provisioned == old(db.provisioned) && db.counter == old(db.counter)
    {
      if !isOpen {
        return Failed;
      }
      r := db.Put(t, ok);
    }

    /** `deleteTaskFromDB`: removes the record with that id, if any. */
    method DeleteTaskFromDB(id: int, ok: bool) returns (r: Outcome)
      requires Valid()
      modifies db
      ensures Valid()
      ensures r == Done <==> isOpen && ok
      ensures db.tasks == if r == Done then old(db.tasks) - {id} else old(db.tasks)
      ensures db.writes == if r == Done then old(db.writes) + [RemoveTask(id)] else old(db.writes)
      ensures db.provisioned == old(db.provisioned) && db.counter == old(db.counter)
    {
      if !isOpen {
        return Failed;
      }
      r := db.Delete(id, ok);
    }

    /** `saveTaskCounter`: stores the current `taskIdCounter`. */
    method SaveTaskCounter(ok: bool) returns (r: Outcome)
      requires Valid()
      modifies db
      ensures Valid()
      ensures r == Done <==> isOpen && ok
      ensures db.counter == if r == Done then Some(taskIdCounter) else old(db.counter)
      ensures db.writes == if r == Done then old(db.writes) + [StoreCounter(taskIdCounter)] else old(db.writes)
      ensures db.provisioned == old(db.provisioned) && db.tasks == old(db.tasks)
    {
      if !isOpen {
        return Failed;
      }
      r := db.SetCounter(taskIdCounter, ok);
    }

    /** `loadTaskCounter`: the stored counter, or 0 when none is stored. */
    method LoadTaskCounter(ok: bool) returns (r: Outcome)
      requires Valid()
      modifies this
      ensures Valid() && tasks == old(tasks) && isOpen == old(isOpen)
      ensures r == Done <==> isOpen && ok
      ensures taskIdCounter == if r == Done then CounterOrZero(db.counter) else old(taskIdCounter)
    {
      if !isOpen {
        return Failed;
      }
      var got := db.GetCounter(ok);
      if got.Failure? {
        return Failed;
      }
      taskIdCounter := match got.value
        case Some(v) => v
        case None => 0;
      r := Done;
    }

    /** `loadTasks`: the list becomes every stored record, in key order. */
    method LoadTasks(ok: bool) returns (r: Outcome)
      requires Valid()
      modifies this
      ensures Valid() && taskIdCounter == old(taskIdCounter) && isOpen == old(isOpen)
      ensures r == Done <==> isOpen && ok
      ensures r == Done ==> ListsInKeyOrder(tasks, db.tasks)
      ensures r == Failed ==> tasks == old(tasks)
    {
      if !isOpen {
        return Failed;
      }
      var got := db.GetAll(ok);
      if got.Failure? {
        return Failed;
      }
      tasks := got.value;
      r := Done;
    }

    /** `initializeApp`: open the database (`initDB`, which sets the handle),
        then load the counter, then the tasks, stopping at the first rejected
        step. A store whose ids are all below its counter is then shown as it
        is. */
    method Initialize(openOk: bool, counterOk: bool, tasksOk: bool) returns (r: Outcome)
      requires Valid()
      modifies this, db
      ensures Valid()
      ensures r == Done <==> openOk && counterOk && tasksOk
      ensures isOpen == (old(isOpen) || openOk)
      ensures db.provisioned == (old(db.provisioned) || openOk)
      ensures !old(db.provisioned) && openOk ==>
                db.tasks == map[] && db.counter == Some(0) && db.writes == old(db.writes) + [StoreCounter(0)]
      ensures old(db.provisioned) || !openOk ==>
                db.tasks == old(db.tasks) && db.counter == old(db.counter) && db.writes == old(db.writes)
      ensures taskIdCounter == if openOk && counterOk then CounterOrZero(db.counter) else old(taskIdCounter)
      ensures r == Done ==> ListsInKeyOrder(tasks, db.tasks)
      ensures r == Failed ==> tasks == old(tasks)
      ensures r == Done && Covered(db.tasks, db.counter) ==> Consistent()
    {
      r := db.Open(openOk);
      if r == Failed {
        return;
      }
      isOpen := true;
      r := LoadTaskCounter(counterOk);
      if r == Failed {
        return;
      }
      r := LoadTasks(tasksOk);
      if r == Done {
        MirrorsLoaded(tasks, db.tasks);
      }
    }

    /** `addTask`: trims the input; blank input does nothing. Otherwise the
        new task takes the counter's value as id, the counter moves up, and
        the task is saved, then the counter is saved, then the task is
        appended and the input cleared (`cleared`). If either save is
        rejected the counter moves back down and the list is untouched,
        even when the task record itself was already saved. */
    method AddTask(input: string, now: string, saveOk: bool, counterOk: bool) returns (cleared: bool)
      requires Valid()
      modifies this, db
      ensures Valid()
      ensures isOpen == old(isOpen) && db.provisioned == old(db.provisioned)
      // blank input: no task, no store request
      ensures Trim(input) == [] ==>
                !cleared && tasks == old(tasks) && taskIdCounter == old(taskIdCounter)
                && db.tasks == old(db.tasks) && db.counter == old(db.counter) && db.writes == old(db.writes)
      ensures cleared <==> Trim(input) != [] && isOpen && saveOk && counterOk
      // success: one task appended, counter one up, both saved in that order
      ensures cleared ==>
                var t := Task(old(taskIdCounter), Trim(input), false, now);
                && tasks == old(tasks) + [t]
                && taskIdCounter == old(taskIdCounter) + 1
                && db.tasks == old(db.tasks)[t.id := t]
                && db.counter == Some(old(taskIdCounter) + 1)
                && db.writes == old(db.writes) + [StoreTask(t), StoreCounter(old(taskIdCounter) + 1)]
      // any rejection: list and counter as before, stored counter as before
      ensures !cleared ==>
                tasks == old(tasks) && taskIdCounter == old(taskIdCounter) && db.counter == old(db.counter)
      // the task record stays stored when only the counter save was rejected
      ensures Trim(input) != [] && !cleared ==>
                var t := Task(old(taskIdCounter), Trim(input), false, now);
                if isOpen && saveOk
                then db.tasks == old(db.tasks)[t.id := t] && db.writes == old(db.writes) + [StoreTask(t)]
                else db.tasks == old(db.tasks) && db.writes == old(db.writes)
      ensures old(IdsFresh(tasks, taskIdCounter)) ==> IdsFresh(tasks, taskIdCounter)
      // the list and the store stay in step, except after a rejected counter save,
      // which leaves a stored record under the id the counter hands out next
      ensures old(Consistent()) && !(Trim(input) != [] && isOpen && saveOk && !counterOk) ==> Consistent()
      ensures old(Consistent()) && Trim(input) != [] && isOpen && saveOk && !counterOk ==>
                taskIdCounter in db.tasks && !Covered(db.tasks, db.counter)
    {
      ghost var wasFresh := IdsFresh(tasks, taskIdCounter);
      ghost var wasConsistent := Consistent();
      var text := Trim(input);
      if text == [] {
        return false;
      }
      var t := Task(taskIdCounter, text, false, now);
      taskIdCounter := taskIdCounter + 1;
      var saved := SaveTask(t, saveOk);
      if saved == Done {
        var counted := SaveTaskCounter(counterOk);
        if counted == Done {
          if wasFresh {
            IdsFreshAppend(tasks, t.id, t);
          }
          if wasConsistent {
            MirrorsAppend(tasks, old(db.tasks), t);
          }
          tasks := tasks + [t];
          return true;
        }
      }
      taskIdCounter := taskIdCounter - 1;
      cleared := false;
    }

    /** `toggleTask`: flips `completed` on the first listed task with that id
        and saves it; if the save is rejected the flag is flipped back. An id
        that is not listed changes nothing and sends no request. */
    method ToggleTask(id: int, saveOk: bool)
      requires Valid()
      modifies this, db
      ensures Valid()
      ensures taskIdCounter == old(taskIdCounter) && isOpen == old(isOpen)
      ensures db.provisioned == old(db.provisioned) && db.counter == old(db.counter)
      ensures !HasId(old(tasks), id) ==>
                tasks == old(tasks) && db.tasks == old(db.tasks) && db.writes == old(db.writes)
      ensures HasId(old(tasks), id) ==>
                var i := FindIndex(old(tasks), id).value;
                var t := Flip(old(tasks)[i]);
                if isOpen && saveOk
                then tasks == old(tasks)[i := t] && db.tasks == old(db.tasks)[id := t]
                     && db.writes == old(db.writes) + [StoreTask(t)]
                else tasks == old(tasks) && db.tasks == old(db.tasks) && db.writes == old(db.writes)
      ensures old(Consistent()) ==> Consistent()
    {
      ghost var wasConsistent := Consistent();
      var found := FindIndex(tasks, id);
      if found.None? {
        return;
      }
      var i := found.value;
      tasks := tasks[i := Flip(tasks[i])];
      var saved := SaveTask(tasks[i], saveOk);
      if saved == Failed {
        FlipTwice(old(tasks)[i]);
        tasks := tasks[i := Flip(tasks[i])];
      } else if wasConsistent {
        MirrorsUpdate(old(tasks), old(db.tasks), i, tasks[i]);
      }
    }

    /** `deleteTask`: deletes the id from the store, then filters it out of
        the list; if the delete is rejected the list is untouched. */
    method DeleteTask(id: int, ok: bool)
      requires Valid()
      modifies this, db
      ensures Valid()
      ensures taskIdCounter == old(taskIdCounter) && isOpen == old(isOpen)
      ensures db.provisioned == old(db.provisioned) && db.counter == old(db.counter)
      ensures isOpen && ok ==>
                tasks == Without(old(tasks), id) && db.tasks == old(db.tasks) - {id}
                && db.writes == old(db.writes) + [RemoveTask(id)]
      ensures !(isOpen && ok) ==>
                tasks == old(tasks) && db.tasks == old(db.tasks) && db.writes == old(db.writes)
      ensures !HasId(old(tasks), id) && id !in old(db.tasks) ==>
                tasks == old(tasks) && db.tasks == old(db.tasks)
      ensures old(IdsFresh(tasks, taskIdCounter)) ==> IdsFresh(tasks, taskIdCounter)
      ensures old(Consistent()) ==> Consistent()
    {
      ghost var wasConsistent := Consistent();
      ghost var wasFresh := IdsFresh(tasks, taskIdCounter);
      ghost var listed := HasId(tasks, id);
      if wasFresh {
        WithoutKeepsDistinct(tasks, id);
      }
      var r := DeleteTaskFromDB(id, ok);
      if r == Done {
        if !listed {
          WithoutAbsent(tasks, id);
        }
        if wasConsistent {
          MirrorsRemove(tasks, old(db.tasks), id);
        }
        tasks := Without(tasks, id);
      }
    }
  }
}
