/**
 * The record shapes on both sides of the backend boundary and the two
 * conversions between them (frontend/api.js), plus the requests the task
 * list sends to the backend. The network calls themselves are not modelled:
 * their outcomes are inputs of the task list's operations.
 */
module TaskApi {

  import opened Wrappers

  /**
   * A task as the backend sends it: `{id, title, description?, status,
   * created_at, updated_at}`. A field the backend leaves out, or sends as
   * `null`, is None.
   */
  datatype BackendTask = BackendTask(
    id: int,
    title: string,
    description: Option<string>,
    status: string,
    createdAt: Option<string>,
    updatedAt: Option<string>)

  /**
   * A task as the frontend keeps it in its list:
   * `{id, text, description, completed, status, createdAt, updatedAt?}`.
   */
  datatype Task = Task(
    id: int,
    text: string,
    description: string,
    completed: bool,
    status: string,
    createdAt: Option<string>,
    updatedAt: Option<string>)

  /**
   * The fields `convertFrontendTask` reads from the object it is given;
   * any string field may be missing, and `completed` is read for its
   * truthiness.
   */
  datatype FrontendFields = FrontendFields(
    text: Option<string>,
    title: Option<string>,
    description: Option<string>,
    completed: bool,
    status: Option<string>)

  /** The body `convertFrontendTask` builds: `{title, description, status}`, nothing more. */
  datatype BackendPayload = BackendPayload(title: Option<string>, description: string, status: string)

  /** A request the task list sends to the backend. */
  datatype Request =
    | CreateRequest(title: string, description: string, status: string)
    | UpdateRequest(id: int, newTitle: Option<string>, newStatus: Option<string>)
    | DeleteRequest(id: int)

  /** A string field is truthy in JavaScript when it is present and not empty. */
  predicate Truthy(v: Option<string>) {
    v.Some? && v.value != ""
  }

  /** JavaScript's `v || fallback` for a string field. */
  function OrElse(v: Option<string>, fallback: string): string {
    if Truthy(v) then v.value else fallback
  }

  /** The pairing of the two mirrors of completion: `completed` iff status is "completed". */
  predicate StatusAgrees(t: Task) {
    t.completed <==> t.status == "completed"
  }

  /** `convertBackendTask`: a backend record as a frontend task. */
  function ConvertBackendTask(b: BackendTask): (t: Task)
    ensures t.id == b.id && t.text == b.title && t.status == b.status
    ensures t.createdAt == b.createdAt && t.updatedAt == b.updatedAt
    ensures t.completed <==> b.status == "completed"
    ensures Truthy(b.description) ==> t.description == b.description.value
    ensures !Truthy(b.description) ==> t.description == ""
    ensures StatusAgrees(t)
  {
    Task(
      id := b.id,
      text := b.title,
      description := OrElse(b.description, ""),
      completed := b.status == "completed",
      status := b.status,
      createdAt := b.createdAt,
      updatedAt := b.updatedAt)
  }

  /** `convertFrontendTask`: the body sent to the backend for a frontend task. */
  function ConvertFrontendTask(f: FrontendFields): (p: BackendPayload)
    ensures Truthy(f.text) ==> p.title == f.text
    ensures !Truthy(f.text) ==> p.title == f.title
    ensures p.description == OrElse(f.description, "")
    ensures f.completed ==> p.status == "completed"
    ensures !f.completed && Truthy(f.status) ==> p.status == f.status.value
    ensures !f.completed && !Truthy(f.status) ==> p.status == "pending"
    ensures p.status != ""
  {
    BackendPayload(
      title := if Truthy(f.text) then f.text else f.title,
      description := OrElse(f.description, ""),
      status := if f.completed then "completed" else OrElse(f.status, "pending"))
  }

  /** A frontend task seen as the object `convertFrontendTask` reads: it has no `title` field. */
  function FieldsOf(t: Task): FrontendFields {
    FrontendFields(Some(t.text), None, Some(t.description), t.completed, Some(t.status))
  }

  /**
   * Converting a backend record to a frontend task and back gives the same
   * title, the description with a missing one read as "", and the same
   * status, except that an empty title comes back missing (the converted
   * task's empty `text` is falsy and it has no `title` to fall back on) and
   * an empty status comes back "pending".
   */
  lemma RoundTrip(b: BackendTask)
    ensures var p := ConvertFrontendTask(FieldsOf(ConvertBackendTask(b)));
      && (b.title != "" ==> p.title == Some(b.title))
      && (b.title == "" ==> p.title == None)
      && p.description == OrElse(b.description, "")
      && (b.status != "" ==> p.status == b.status)
      && (b.status == "" ==> p.status == "pending")
  {
  }

  /**
   * For a task whose status is "pending" or "completed" and agrees with
   * `completed`, the backend payload carries exactly that status.
   */
  lemma PayloadKeepsAgreeingStatus(t: Task)
    requires t.status == "pending" || t.status == "completed"
    requires StatusAgrees(t)
    ensures ConvertFrontendTask(FieldsOf(t)).status == t.status
  {
  }

}
