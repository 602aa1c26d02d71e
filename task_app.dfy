/**
 * The task list of frontend/task-app.js: a list of tasks held in memory,
 * kept in step either with the backend (remote mode) or with the browser's
 * local storage (fallback mode).
 *
 * Each handler runs to completion on its own. What the outside world
 * answers during a handler (the backend's reply, the user's confirmation,
 * the clock) is a parameter of the method that models it; a handler that
 * sends a request to the backend returns that request.
 */
module TaskApp {

  import opened Wrappers
  import opened Text
  import opened JsArray
  import opened TaskApi
  import opened Views

  /** The status string paired with a completion flag. */
  function StatusFor(completed: bool): string {
    if completed then "completed" else "pending"
  }

  /** A task's completion flag, the one the views filter on. */
  predicate IsCompleted(t: Task) {
    t.completed
  }

  function HasId(id: int): Task -> bool {
    (t: Task) => t.id == id
  }

  function LacksId(id: int): Task -> bool {
    (t: Task) => t.id != id
  }

  /** Every task's `completed` and `status` agree. */
  predicate AllAgree(ts: seq<Task>) {
    forall t :: t in ts ==> StatusAgrees(t)
  }

  /** Replacing one task by one whose fields agree keeps the whole list agreeing. */
  lemma AllAgreeUpdate(ts: seq<Task>, i: nat, t: Task)
    requires i < |ts| && AllAgree(ts) && StatusAgrees(t)
    ensures AllAgree(ts[i := t])
  {
    forall u | u in ts[i := t] ensures StatusAgrees(u) {
      var k :| 0 <= k < |ts[i := t]| && ts[i := t][k] == u;
      if k != i {
        assert u in ts;
      }
    }
  }

  /**
   * The position of the task `tasks.find(t => t.id === id)` picks: the
   * first one with that id. Ids need not be unique.
   */
  function Find(ts: seq<Task>, id: int): (r: Option<nat>)
    ensures r.Some? ==> r.value < |ts| && ts[r.value].id == id
    ensures r.Some? ==> forall j :: 0 <= j < r.value ==> ts[j].id != id
    ensures r.None? <==> forall j :: 0 <= j < |ts| ==> ts[j].id != id
  {
    FindIndex(ts, HasId(id))
  }

  /** `tasks.filter(t => t.id !== id)`: every task with that id is gone, the others stay. */
  function WithoutId(ts: seq<Task>, id: int): (r: seq<Task>)
    ensures |r| <= |ts|
    ensures forall i :: 0 <= i < |r| ==> r[i].id != id && r[i] in ts
    ensures forall i :: 0 <= i < |ts| && ts[i].id != id ==> ts[i] in r
  {
    Filter(ts, LacksId(id))
  }

  /** Deletion keeps the remaining tasks in their order. */
  lemma WithoutIdConcat(a: seq<Task>, b: seq<Task>, id: int)
    ensures WithoutId(a + b, id) == WithoutId(a, id) + WithoutId(b, id)
  {
    FilterConcat(a, b, LacksId(id));
  }

  /**
   * Deletion removes exactly the tasks with the id, with their
   * multiplicity: what is left and what has the id make up the list.
   */
  lemma WithoutIdRemovesMatches(ts: seq<Task>, id: int)
    ensures multiset(WithoutId(ts, id)) + multiset(Filter(ts, HasId(id))) == multiset(ts)
    ensures forall t :: t in Filter(ts, HasId(id)) ==> t.id == id
  {
    FilterPartition(ts, LacksId(id), HasId(id));
    forall t | t in Filter(ts, HasId(id)) ensures t.id == id {
      var k :| 0 <= k < |Filter(ts, HasId(id))| && Filter(ts, HasId(id))[k] == t;
    }
  }

  /** Deleting an id no task has changes nothing, and only then. */
  lemma WithoutAbsentId(ts: seq<Task>, id: int)
    ensures WithoutId(ts, id) == ts <==> forall i :: 0 <= i < |ts| ==> ts[i].id != id
  {
    FilterKeepsAll(ts, LacksId(id));
  }

  /** A task after `toggleTask` flips it: completion negated, status derived from it, nothing else touched. */
  function Flipped(t: Task): (r: Task)
    ensures r.completed == !t.completed && r.status == StatusFor(r.completed)
    ensures r.(completed := t.completed, status := t.status) == t
    ensures StatusAgrees(r)
  {
    t.(completed := !t.completed, status := StatusFor(!t.completed))
  }

  /**
   * Undoing a flip the way the rollback does (flip again) restores
   * `completed`, and gives the status derived from it: the original task
   * comes back exactly when its status was the derived one.
   */
  lemma FlipTwice(t: Task)
    ensures Flipped(Flipped(t)).completed == t.completed
    ensures Flipped(Flipped(t)).status == StatusFor(t.completed)
    ensures Flipped(Flipped(t)) == t <==> t.status == StatusFor(t.completed)
  {
  }

  class TaskStore {
    var tasks: seq<Task>
    var currentFilter: string
    var editingTaskId: Option<int>
    var backendAvailable: bool
    /** What local storage holds under the "tasks" key; None when nothing is saved there. */
    var localStore: Option<seq<Task>>

    /**
     * In fallback mode, local storage holds the list in memory (or holds
     * nothing and the list is empty).
     */
    ghost predicate Mirrored()
      reads this
    {
      !backendAvailable ==> localStore == Some(tasks) || (localStore == None && tasks == [])
    }

    /** The module-level state as the script starts, beside what local storage already holds. */
    constructor (stored: Option<seq<Task>>)
      ensures tasks == [] && currentFilter == "all" && editingTaskId == None
      ensures !backendAvailable && localStore == stored
    {
      tasks := [];
      currentFilter := "all";
      editingTaskId := None;
      backendAvailable := false;
      localStore := stored;
    }

    /**
     * `init`: remote mode when the availability probe answered, with the
     * backend's list converted; otherwise fallback mode with the saved list,
     * or an empty one.
     */
    method Init(available: bool, fetched: seq<BackendTask>)
      modifies this
      ensures backendAvailable == available
      ensures available ==> tasks == Map(fetched, ConvertBackendTask) && AllAgree(tasks)
      ensures !available ==> tasks == (if old(localStore).Some? then old(localStore).value else [])
      ensures localStore == old(localStore)
      ensures currentFilter == old(currentFilter) && editingTaskId == old(editingTaskId)
      ensures Mirrored()
    {
      backendAvailable := available;
      if backendAvailable {
        tasks := Map(fetched, ConvertBackendTask);
        forall t | t in tasks ensures StatusAgrees(t) {
          var k :| 0 <= k < |tasks| && tasks[k] == t;
        }
      } else {
        tasks := if localStore.Some? then localStore.value else [];
      }
    }

    /** `saveTasks`: the list in memory becomes what local storage holds. */
    method SaveTasks()
      modifies this`localStore
      ensures localStore == Some(tasks)
    {
      localStore := Some(tasks);
    }

    /**
     * `addTask`. Input that is blank once trimmed changes nothing. In remote
     * mode the create request is sent and the backend's record, converted,
     * is appended only if it returned one; in fallback mode a new pending
     * task with the trimmed text is appended and saved.
     */
    method AddTask(input: string, created: Option<BackendTask>, now: int, timestamp: string)
      returns (request: Option<Request>)
      modifies this
      ensures backendAvailable == old(backendAvailable)
      ensures currentFilter == old(currentFilter) && editingTaskId == old(editingTaskId)
      ensures Trim(input) == "" ==> tasks == old(tasks) && localStore == old(localStore) && request == None
      ensures Trim(input) != "" && backendAvailable ==>
        && request == Some(CreateRequest(Trim(input), "", "pending"))
        && tasks == old(tasks) + (if created.Some? then [ConvertBackendTask(created.value)] else [])
        && localStore == old(localStore)
      ensures Trim(input) != "" && !backendAvailable ==>
        && request == None
        && tasks == old(tasks) + [Task(now, Trim(input), "", false, "pending", Some(timestamp), None)]
        && localStore == Some(tasks)
      ensures old(Mirrored()) ==> Mirrored()
      ensures old(AllAgree(tasks)) ==> AllAgree(tasks)
    {
      request := None;
      var text := Trim(input);
      if text == "" {
        return;
      }
      if backendAvailable {
        request := Some(CreateRequest(text, "", "pending"));
        if created.Some? {
          tasks := tasks + [ConvertBackendTask(created.value)];
        } else {
          return;
        }
      } else {
        var task := Task(now, text, "", false, "pending", Some(timestamp), None);
        tasks := tasks + [task];
        SaveTasks();
      }
    }

    /**
     * `toggleTask`. An id no task has changes nothing. Otherwise the first
     * task with the id is flipped; in remote mode the update request carries
     * the new status, and if it fails the task is flipped back, which
     * restores `completed` and derives `status` from it.
     */
    method ToggleTask(id: int, updated: bool) returns (request: Option<Request>)
      modifies this
      ensures backendAvailable == old(backendAvailable)
      ensures currentFilter == old(currentFilter) && editingTaskId == old(editingTaskId)
      ensures Find(old(tasks), id).None? ==>
        tasks == old(tasks) && localStore == old(localStore) && request == None
      ensures Find(old(tasks), id).Some? && !backendAvailable ==>
        var i := Find(old(tasks), id).value;
        && tasks == old(tasks)[i := Flipped(old(tasks)[i])]
        && localStore == Some(tasks) && request == None
      ensures Find(old(tasks), id).Some? && backendAvailable ==>
        var i := Find(old(tasks), id).value;
        && request == Some(UpdateRequest(id, None, Some(StatusFor(!old(tasks)[i].completed))))
        && localStore == old(localStore)
        && (updated ==> tasks == old(tasks)[i := Flipped(old(tasks)[i])])
        && (!updated ==> tasks == old(tasks)[i := Flipped(Flipped(old(tasks)[i]))])
        && (!updated ==> tasks[i].completed == old(tasks)[i].completed)
        && (!updated ==> tasks[i].status == StatusFor(old(tasks)[i].completed))
      ensures old(Mirrored()) ==> Mirrored()
      ensures old(AllAgree(tasks)) ==> AllAgree(tasks)
    {
      request := None;
      var found := Find(tasks, id);
      if found.None? {
        return;
      }
      var i := found.value;
      tasks := tasks[i := Flipped(tasks[i])];
      if backendAvailable {
        request := Some(UpdateRequest(id, None, Some(tasks[i].status)));
        if !updated {
          tasks := tasks[i := Flipped(tasks[i])];
          return;
        }
      } else {
        SaveTasks();
      }
    }

    /**
     * `deleteTask`. Declined confirmation changes nothing and sends nothing.
     * In remote mode the delete request is sent and the tasks with the id
     * are removed only if it succeeded; in fallback mode they are removed
     * and the list is saved.
     */
    method DeleteTask(id: int, confirmed: bool, deleted: bool) returns (request: Option<Request>)
      modifies this
      ensures backendAvailable == old(backendAvailable)
      ensures currentFilter == old(currentFilter) && editingTaskId == old(editingTaskId)
      ensures !confirmed ==> tasks == old(tasks) && localStore == old(localStore) && request == None
      ensures confirmed && backendAvailable ==>
        && request == Some(DeleteRequest(id))
        && tasks == (if deleted then WithoutId(old(tasks), id) else old(tasks))
        && localStore == old(localStore)
      ensures confirmed && !backendAvailable ==>
        tasks == WithoutId(old(tasks), id) && localStore == Some(tasks) && request == None
      ensures old(Mirrored()) ==> Mirrored()
      ensures old(AllAgree(tasks)) ==> AllAgree(tasks)
    {
      request := None;
      if !confirmed {
        return;
      }
      if backendAvailable {
        request := Some(DeleteRequest(id));
        if !deleted {
          return;
        }
      }
      tasks := WithoutId(tasks, id);
      if !backendAvailable {
        SaveTasks();
      }
    }

    /** The state `editTask` sets before it rewrites the page: the task being edited, if the id is found. */
    method BeginEdit(id: int)
      modifies this`editingTaskId
      ensures Find(tasks, id).Some? ==> editingTaskId == Some(id)
      ensures Find(tasks, id).None? ==> editingTaskId == old(editingTaskId)
    {
      var found := Find(tasks, id);
      if found.None? {
        return;
      }
      editingTaskId := Some(id);
    }

    /**
     * `saveEdit`. Input that is blank once trimmed, or an id no task has,
     * changes nothing. Otherwise the first task with the id takes the
     * trimmed text. In remote mode the update request carries it, and if the
     * request fails the task's text becomes the untrimmed input, not its
     * old text, and `editingTaskId` is not cleared (nothing reads it).
     */
    method SaveEdit(id: int, input: string, updated: bool) returns (request: Option<Request>)
      modifies this
      ensures backendAvailable == old(backendAvailable) && currentFilter == old(currentFilter)
      ensures Trim(input) == "" || Find(old(tasks), id).None? ==>
        && tasks == old(tasks) && localStore == old(localStore)
        && editingTaskId == old(editingTaskId) && request == None
      ensures Trim(input) != "" && Find(old(tasks), id).Some? && !backendAvailable ==>
        var i := Find(old(tasks), id).value;
        && tasks == old(tasks)[i := old(tasks)[i].(text := Trim(input))]
        && localStore == Some(tasks) && editingTaskId == None && request == None
      ensures Trim(input) != "" && Find(old(tasks), id).Some? && backendAvailable ==>
        var i := Find(old(tasks), id).value;
        && request == Some(UpdateRequest(id, Some(Trim(input)), None))
        && localStore == old(localStore)
        && (updated ==> tasks == old(tasks)[i := old(tasks)[i].(text := Trim(input))] && editingTaskId == None)
        && (!updated ==> tasks == old(tasks)[i := old(tasks)[i].(text := input)] && editingTaskId == old(editingTaskId))
      ensures old(Mirrored()) ==> Mirrored()
      ensures old(AllAgree(tasks)) ==> AllAgree(tasks)
    {
      request := None;
      var newText := Trim(input);
      if newText == "" {
        return;
      }
      var found := Find(tasks, id);
      if found.None? {
        return;
      }
      var i := found.value;
      ghost var before := tasks;
      var edited := tasks[i].(text := newText);
      if AllAgree(before) {
        assert before[i] in before;
        AllAgreeUpdate(before, i, edited);
        AllAgreeUpdate(before, i, tasks[i].(text := input));
      }
      tasks := tasks[i := edited];
      if backendAvailable {
        request := Some(UpdateRequest(id, Some(newText), None));
        if !updated {
          tasks := tasks[i := tasks[i].(text := input)];
          return;
        }
      } else {
        SaveTasks();
      }
      editingTaskId := None;
    }

    /** `cancelEdit`: no task is being edited any more. */
    method CancelEdit()
      modifies this`editingTaskId
      ensures editingTaskId == None
    {
      editingTaskId := None;
    }

    /** A filter button's click handler: the filter named by its `data-filter`. */
    method SetFilter(filter: string)
      modifies this`currentFilter
      ensures currentFilter == filter
    {
      currentFilter := filter;
    }

    /** The tasks `renderTasks` lists, in list order. */
    method RenderTasks() returns (shown: seq<Task>)
      ensures shown == View(tasks, currentFilter, IsCompleted)
    {
      if currentFilter == "active" {
        shown := Filter(tasks, Not(IsCompleted));
      } else if currentFilter == "completed" {
        shown := Filter(tasks, IsCompleted);
      } else {
        shown := tasks;
      }
    }

    /** The two counts `updateStats` shows. */
    method UpdateStats() returns (total: nat, completed: nat)
      ensures total == |tasks| && completed == CompletedCount(tasks, IsCompleted)
      ensures completed <= total
      ensures total - completed == |View(tasks, "active", IsCompleted)|
    {
      total := |tasks|;
      completed := |Filter(tasks, IsCompleted)|;
    }
  }

}
