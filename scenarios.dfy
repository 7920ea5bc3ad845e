/** Whole sessions driven through the handlers, from a browser profile in
    which the app never ran: what the page shows at the end follows from the
    handlers' contracts alone. */
module TodoScenarios {
  import opened TaskText
  import opened TaskRecords
  import opened TaskStore
  import opened TodoApp

  /** Add "Buy milk", complete it, delete it, add "Walk dog": the first task
      gets id 0 and the second id 1, as deleted ids are not handed out again. */
  method AddToggleDeleteAdd(now: string) returns (first: seq<Task>, toggled: seq<Task>,
                                                  deleted: seq<Task>, last: seq<Task>)
    ensures first == [Task(0, "Buy milk", false, now)]
    ensures toggled == [Task(0, "Buy milk", true, now)]
    ensures deleted == []
    ensures last == [Task(1, "Walk dog", false, now)]
  {
    var db := new Database();
    var app := new App(db);
    var r := app.Initialize(true, true, true);
    assert app.tasks == [] by {
      assert |app.tasks| == |db.tasks| == 0;
    }
    TrimUnpadded("Buy milk");
    var cleared := app.AddTask("Buy milk", now, true, true);
    first := app.tasks;
    assert db.tasks == map[0 := first[0]] && db.counter == Some(1);
    assert FindIndex(first, 0) == Some(0);
    app.ToggleTask(0, true);
    toggled := app.tasks;
    assert db.tasks.Keys == {0} && app.taskIdCounter == 1;
    app.DeleteTask(0, true);
    deleted := app.tasks;
    assert db.tasks == map[] && db.counter == Some(1) && app.taskIdCounter == 1;
    TrimUnpadded("Walk dog");
    cleared := app.AddTask("Walk dog", now, true, true);
    last := app.tasks;
  }

  /** Blank input creates nothing and leaves the counter where it was. */
  method AddBlank(now: string) returns (shown: seq<Task>, next: int)
    ensures shown == [] && next == 0
  {
    var db := new Database();
    var app := new App(db);
    var r := app.Initialize(true, true, true);
    assert app.tasks == [] by {
      assert |app.tasks| == |db.tasks| == 0;
    }
    assert AllWhitespace(" \t ");
    var cleared := app.AddTask(" \t ", now, true, true);
    shown, next := app.tasks, app.taskIdCounter;
  }

  /** The counter save is rejected after the task was saved: the page shows
      nothing, yet the record stays stored under id 0 while the stored counter
      stays 0. After a reload the next task gets id 0 again, overwrites that
      record in the store, and the page shows two tasks with id 0. */
  method RejectedCounterSaveThenReload(now: string) returns (before: seq<Task>, after: seq<Task>)
    ensures before == []
    ensures after == [Task(0, "Buy milk", false, now), Task(0, "Walk dog", false, now)]
    ensures !DistinctIds(after)
  {
    var db := new Database();
    var app := new App(db);
    var r := app.Initialize(true, true, true);
    assert app.tasks == [] by {
      assert |app.tasks| == |db.tasks| == 0;
    }
    TrimUnpadded("Buy milk");
    var cleared := app.AddTask("Buy milk", now, true, false);
    before := app.tasks;
    assert db.tasks == map[0 := Task(0, "Buy milk", false, now)] && db.counter == Some(0);

    var reloaded := new App(db);
    r := reloaded.Initialize(true, true, true);
    assert reloaded.tasks == [Task(0, "Buy milk", false, now)] by {
      var ts := reloaded.tasks;
      assert |ts| == 1 && ts[0].id in db.tasks;
    }
    TrimUnpadded("Walk dog");
    cleared := reloaded.AddTask("Walk dog", now, true, true);
    after := reloaded.tasks;
    assert after[0].id == after[1].id;
  }

  /** A first session stores "Buy milk"; the page is reloaded and this time
      the open is rejected. The new page has no handle, so adding "Walk dog"
      is rejected even though the store would accept it: nothing is shown,
      the text box is not cleared and the store keeps only the first task. */
  method ReloadWithRejectedOpen(now: string) returns (cleared: bool, shown: seq<Task>, kept: bool)
    ensures !cleared && shown == [] && kept
  {
    var db := new Database();
    var app := new App(db);
    var r := app.Initialize(true, true, true);
    assert app.tasks == [] by {
      assert |app.tasks| == |db.tasks| == 0;
    }
    TrimUnpadded("Buy milk");
    cleared := app.AddTask("Buy milk", now, true, true);

    var reloaded := new App(db);
    r := reloaded.Initialize(false, true, true);
    TrimUnpadded("Walk dog");
    cleared := reloaded.AddTask("Walk dog", now, true, true);
    shown := reloaded.tasks;
    kept := db.tasks == map[0 := Task(0, "Buy milk", false, now)];
  }
}
