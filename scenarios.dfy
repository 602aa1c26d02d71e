/**
 * Worked scenarios for the task list, derived from the method contracts
 * alone: each `assert` follows from what the handlers promise.
 */
module Scenarios {

  import opened Wrappers
  import opened TaskApi
  import opened TaskApp
  import Text

  /** Fallback mode, nothing saved: adding "Buy milk" gives one pending task, saved. */
  method FallbackCreate(now: int, timestamp: string) {
    var store := new TaskStore(None);
    store.Init(false, []);
    assert store.tasks == [];
    Text.TrimOfTrimmed("Buy milk");
    assert Text.Trim("Buy milk") == "Buy milk";
    var request := store.AddTask("Buy milk", None, now, timestamp);
    assert request == None;
    assert |store.tasks| == 1;
    assert !store.tasks[0].completed && store.tasks[0].status == "pending";
    assert store.tasks[0].text == "Buy milk";
    assert store.localStore == Some(store.tasks);
  }

  /**
   * Remote mode: the backend creates task 7, a toggle of it is sent and
   * fails, and the task is back to unfinished and "pending".
   */
  method RemoteToggleFails(created: string, updated: string) {
    var store := new TaskStore(None);
    store.Init(true, []);
    var record := BackendTask(7, "X", None, "pending", Some(created), Some(updated));
    Text.TrimOfTrimmed("X");
    var request := store.AddTask("X", Some(record), 0, "");
    var task := ConvertBackendTask(record);
    assert request == Some(CreateRequest("X", "", "pending"));
    assert store.tasks == [task];
    assert task.id == 7 && task.text == "X" && !task.completed && task.status == "pending";
    assert Find(store.tasks, 7) == Some(0);
    FlipTwice(task);
    request := store.ToggleTask(7, false);
    assert request == Some(UpdateRequest(7, None, Some("completed")));
    assert store.tasks == [task];
  }

  /** A declined confirmation sends nothing and keeps the list. */
  method DeclinedDelete(id: int) {
    var store := new TaskStore(None);
    store.Init(true, [BackendTask(id, "X", None, "pending", None, None)]);
    ghost var before := store.tasks;
    var request := store.DeleteTask(id, false, true);
    assert request == None && store.tasks == before;
  }

}
