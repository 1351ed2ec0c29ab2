/** The gateway's in-memory task table (`store/store.go`): tasks are
    objects shared by reference, kept in a map from task id; an update
    callback mutates the stored object in place. */
module TaskStore {
  /** The fields of a task at one moment. */
  datatype TaskFields = TaskFields(
    id: string, status: string, progress: int,
    sourcePath: string, annotatedPath: string, reportPath: string)

  /** A processing job's state; the store and its callers hold the same
      object. */
  class Task {
    var id: string
    var status: string
    var progress: int
    var sourcePath: string
    var annotatedPath: string
    var reportPath: string

    constructor (f: TaskFields)
      ensures Fields() == f
    {
      id := f.id;
      status := f.status;
      progress := f.progress;
      sourcePath := f.sourcePath;
      annotatedPath := f.annotatedPath;
      reportPath := f.reportPath;
    }

    function Fields(): (r: TaskFields)
      reads this
      ensures r.id == id && r.status == status && r.progress == progress
    {
      TaskFields(id, status, progress, sourcePath, annotatedPath, reportPath)
    }

    /** Overwrite every field, as a callback writing through the pointer
        may. */
    method SetFields(f: TaskFields)
      modifies this
      ensures Fields() == f
    {
      id := f.id;
      status := f.status;
      progress := f.progress;
      sourcePath := f.sourcePath;
      annotatedPath := f.annotatedPath;
      reportPath := f.reportPath;
    }
  }

  class Store {
    var tasks: map<string, Task>

    /** The store's contents as values: each id with the current fields of
        the task stored under it. */
    function View(): (r: map<string, TaskFields>)
      reads this, tasks.Values
      ensures r.Keys == tasks.Keys
      ensures forall k | k in r :: r[k] == tasks[k].Fields()
    {
      map k | k in tasks :: tasks[k].Fields()
    }

    /** `NewStore`: no tasks. */
    constructor ()
      ensures tasks == map[]
      ensures View() == map[]
    {
      tasks := map[];
    }

    /** `AddTask`: store the task under its current id, replacing whatever
        was stored under that id; the object itself is kept, not a copy. */
    method AddTask(t: Task)
      modifies this
      ensures tasks == old(tasks)[old(t.id) := t]
      ensures View() == old(View())[t.id := t.Fields()]
    {
      tasks := tasks[t.id := t];
    }

    /** `GetTask`: the stored object and true when the id is present, null
        and false otherwise. */
    method GetTask(id: string) returns (t: Task?, ok: bool)
      ensures ok <==> id in tasks
      ensures ok ==> t == tasks[id]
      ensures !ok ==> t == null
    {
      if id in tasks {
        t, ok := tasks[id], true;
      } else {
        t, ok := null, false;
      }
    }

    /** `UpdateTask`: false and no change for an absent id; otherwise the
        callback's new field values are written into the stored object,
        so every id that holds that same object sees them, and true. The
        callback is given as the function from the task's fields before
        to its fields after. */
    method UpdateTask(id: string, fn: TaskFields -> TaskFields) returns (updated: bool)
      modifies if id in tasks then {tasks[id]} else {}
      ensures updated <==> id in tasks
      ensures tasks == old(tasks)
      ensures updated ==> tasks[id].Fields() == fn(old(tasks[id].Fields()))
      ensures updated ==> forall k | k in tasks && tasks[k] != tasks[id] :: tasks[k].Fields() == old(tasks[k].Fields())
      ensures !updated ==> View() == old(View())
    {
      if id !in tasks {
        return false;
      }
      var t := tasks[id];
      t.SetFields(fn(t.Fields()));
      return true;
    }
  }

  /** The callback of the store test: status "Running", progress 50. */
  function MarkRunning(f: TaskFields): (r: TaskFields)
    ensures r.status == "Running" && r.progress == 50
    ensures r.id == f.id && r.sourcePath == f.sourcePath
    ensures r.annotatedPath == f.annotatedPath && r.reportPath == f.reportPath
  {
    f.(status := "Running", progress := 50)
  }

  /** The add, get, update, get sequence of the store test: the task is
      found with status "Pending", the update succeeds, and the task is
      then found with status "Running" and progress 50. */
  method AddGetUpdate() returns (found: bool, before: string, updated: bool, foundAgain: bool, after: TaskFields)
    ensures found && before == "Pending"
    ensures updated
    ensures foundAgain && after.status == "Running" && after.progress == 50 && after.id == "t1"
  {
    var s := new Store();
    var task := new Task(TaskFields("t1", "Pending", 0, "", "", ""));
    s.AddTask(task);
    var got;
    got, found := s.GetTask("t1");
    before := got.status;
    updated := s.UpdateTask("t1", MarkRunning);
    got, foundAgain := s.GetTask("t1");
    after := got.Fields();
  }
}
