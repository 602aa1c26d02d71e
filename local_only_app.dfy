/**
 * The local-only task list of frontend/aryan_js.js: the same add, toggle,
 * delete, edit and filter operations with no backend and no storage. Its
 * toggle and edit rebuild the list with `map`, so they change EVERY task
 * carrying the id, where frontend/task-app.js changes only the first.
 */
module LocalOnlyApp {

  import opened Wrappers
  import opened Text
  import opened JsArray
  import opened Views

  /** A task of this list: `{id, text, completed}`. */
  datatype Task = Task(id: int, text: string, completed: bool)

  /** A task's completion flag, the one the views filter on. */
  predicate IsCompleted(t: Task) {
    t.completed
  }

  function LacksId(id: int): Task -> bool {
    (t: Task) => t.id != id
  }

  /** The callback `toggleTask` maps over the list. */
  function ToggleIfId(id: int): Task -> Task {
    (t: Task) => if t.id == id then t.(completed := !t.completed) else t
  }

  /** The callback `editTask` maps over the list. */
  function RetextIfId(id: int, text: string): Task -> Task {
    (t: Task) => if t.id == id then t.(text := text) else t
  }

  /**
   * The list after `toggleTask(id)`: same length, same ids and texts, and
   * `completed` flipped on exactly the tasks with the id.
   */
  function Toggled(ts: seq<Task>, id: int): (r: seq<Task>)
    ensures |r| == |ts|
    ensures forall i :: 0 <= i < |ts| ==> r[i].id == ts[i].id && r[i].text == ts[i].text
    ensures forall i :: 0 <= i < |ts| ==> (r[i].completed != ts[i].completed <==> ts[i].id == id)
  {
    Map(ts, ToggleIfId(id))
  }

  /** Toggling the same id twice gives back the list. */
  lemma ToggledTwice(ts: seq<Task>, id: int)
    ensures Toggled(Toggled(ts, id), id) == ts
  {
    MapInvolution(ts, ToggleIfId(id));
  }

  /**
   * The list after `editTask` with accepted text: same length, same ids and
   * completion, and the new text on exactly the tasks with the id.
   */
  function Retexted(ts: seq<Task>, id: int, text: string): (r: seq<Task>)
    ensures |r| == |ts|
    ensures forall i :: 0 <= i < |ts| ==> r[i].id == ts[i].id && r[i].completed == ts[i].completed
    ensures forall i :: 0 <= i < |ts| && ts[i].id == id ==> r[i].text == text
    ensures forall i :: 0 <= i < |ts| && ts[i].id != id ==> r[i] == ts[i]
  {
    Map(ts, RetextIfId(id, text))
  }

  /** The list after a confirmed `deleteTask(id)`: every task with the id gone, the others kept. */
  function Removed(ts: seq<Task>, id: int): (r: seq<Task>)
    ensures |r| <= |ts|
    ensures forall i :: 0 <= i < |r| ==> r[i].id != id && r[i] in ts
    ensures forall i :: 0 <= i < |ts| && ts[i].id != id ==> ts[i] in r
  {
    Filter(ts, LacksId(id))
  }

  /** Deletion keeps the remaining tasks in their order. */
  lemma RemovedConcat(a: seq<Task>, b: seq<Task>, id: int)
    ensures Removed(a + b, id) == Removed(a, id) + Removed(b, id)
  {
    FilterConcat(a, b, LacksId(id));
  }

  /** Deleting an id no task has changes nothing, and only then. */
  lemma RemovedAbsentId(ts: seq<Task>, id: int)
    ensures Removed(ts, id) == ts <==> forall i :: 0 <= i < |ts| ==> ts[i].id != id
  {
    FilterKeepsAll(ts, LacksId(id));
  }

  /** The script's module-level state: the list and the selected filter. */
  class LocalTaskList {
    var tasks: seq<Task>
    var currentFilter: string

    constructor ()
      ensures tasks == [] && currentFilter == "all"
    {
      tasks := [];
      currentFilter := "all";
    }

    /**
     * `addTask`: input that is blank once trimmed changes nothing; otherwise
     * one unfinished task with the trimmed text is pushed at the end.
     */
    method AddTask(input: string, now: int)
      modifies this`tasks
      ensures Trim(input) == "" ==> tasks == old(tasks)
      ensures Trim(input) != "" ==> tasks == old(tasks) + [Task(now, Trim(input), false)]
    {
      var text := Trim(input);
      if text == "" {
        return;
      }
      tasks := tasks + [Task(now, text, false)];
    }

    /** `toggleTask`: every task with the id is flipped. */
    method ToggleTask(id: int)
      modifies this`tasks
      ensures tasks == Toggled(old(tasks), id)
    {
      tasks := Map(tasks, ToggleIfId(id));
    }

    /** `deleteTask`: nothing changes unless the user confirms; then every task with the id goes. */
    method DeleteTask(id: int, confirmed: bool)
      modifies this`tasks
      ensures !confirmed ==> tasks == old(tasks)
      ensures confirmed ==> tasks == Removed(old(tasks), id)
    {
      if !confirmed {
        return;
      }
      tasks := Filter(tasks, LacksId(id));
    }

    /**
     * `editTask`: a cancelled prompt (None) or an answer that is blank once
     * trimmed changes nothing; otherwise every task with the id takes the
     * trimmed answer.
     */
    method EditTask(id: int, answer: Option<string>)
      modifies this`tasks
      ensures answer.None? ==> tasks == old(tasks)
      ensures answer.Some? && Trim(answer.value) == "" ==> tasks == old(tasks)
      ensures answer.Some? && Trim(answer.value) != "" ==> tasks == Retexted(old(tasks), id, Trim(answer.value))
    {
      if answer.None? {
        return;
      }
      if Trim(answer.value) == "" {
        return;
      }
      tasks := Map(tasks, RetextIfId(id, Trim(answer.value)));
    }

    /** A filter button's click handler: the filter named by its `data-filter`. */
    method SetFilter(filter: string)
      modifies this`currentFilter
      ensures currentFilter == filter
    {
      currentFilter := filter;
    }

    /** The tasks `renderTasks` lists, in list order. */
    method RenderTasks() returns (shown: seq<Task>)
      ensures shown == View(tasks, currentFilter, IsCompleted)
    {
      if currentFilter == "active" {
        shown := Filter(tasks, Not(IsCompleted));
      } else if currentFilter == "completed" {
        shown := Filter(tasks, IsCompleted);
      } else {
        shown := tasks;
      }
    }

    /** The two counts `updateStats` shows. */
    method UpdateStats() returns (total: nat, completed: nat)
      ensures total == |tasks| && completed == CompletedCount(tasks, IsCompleted)
      ensures completed <= total
      ensures total - completed == |View(tasks, "active", IsCompleted)|
    {
      total := |tasks|;
      completed := |Filter(tasks, IsCompleted)|;
    }
  }

}
