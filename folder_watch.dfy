/** The folder watchers of src-tauri/src/ollama.rs: a table from a watched
    path to the debouncer that reports changes under it. Creating the
    debouncer and registering the path with the operating system are
    outcomes given as parameters. */
module FolderWatch {
  import opened Wrappers

  /** Seconds a debouncer waits for changes to settle before reporting. */
  const DebounceSeconds: nat := 2
  const FolderChanged: string := "folder-changed"
  const CreateFailed: string := "Failed to create watcher: "
  const WatchFailed: string := "Failed to watch folder: "

  /** A debouncer: the path its callback reports and its delay. */
  datatype Debouncer = Debouncer(watchPath: string, delaySeconds: nat)

  /** The kind of one debounced event. */
  datatype EventKind = Any | AnyContinuous

  /** The debouncer's callback: the payload of the `folder-changed` event it
      emits for one batch, if it emits one. */
  function Notify(d: Debouncer, batch: Result<seq<EventKind>, string>): (r: Option<(string, string)>)
    ensures r.Some? <==> batch.Ok? && Any in batch.value
    ensures r.Some? ==> r.value == (FolderChanged, d.watchPath)
  {
    if batch.Ok? && exists k :: 0 <= k < |batch.value| && batch.value[k] == Any
    then Some((FolderChanged, d.watchPath))
    else None
  }

  /** Every debouncer in the table reports its own key. */
  ghost predicate Registered(table: map<string, Debouncer>) {
    forall p :: p in table ==> table[p] == Debouncer(p, DebounceSeconds)
  }

  /** `watch_folder(path)` on the table; `creation` and `watching` are the
      outcomes of creating the debouncer and of registering the path. */
  function Watch(table: map<string, Debouncer>, path: string, creation: Result<Unit, string>, watching: Result<Unit, string>)
    : (r: (map<string, Debouncer>, Result<Unit, string>))
    ensures path in table ==> r == (table, Ok(Unit))
    ensures path !in table && creation.Err? ==> r == (table, Err(CreateFailed + creation.error))
    ensures path !in table && creation.Ok? && watching.Err? ==> r == (table, Err(WatchFailed + watching.error))
    ensures path !in table && creation.Ok? && watching.Ok?
      ==> r == (table[path := Debouncer(path, DebounceSeconds)], Ok(Unit))
  {
    if path in table then (table, Ok(Unit))
    else if creation.Err? then (table, Err(CreateFailed + creation.error))
    else if watching.Err? then (table, Err(WatchFailed + watching.error))
    else (table[path := Debouncer(path, DebounceSeconds)], Ok(Unit))
  }

  /** `unwatch_folder(path)` on the table: dropping the entry, if any. */
  function Unwatch(table: map<string, Debouncer>, path: string): (r: map<string, Debouncer>)
    ensures path !in r
    ensures forall p :: p in table && p != path ==> p in r && r[p] == table[p]
    ensures forall p :: p in r ==> p in table
  {
    table - {path}
  }

  /** After `watch_folder` the path is watched exactly when it succeeded, and
      no other path changed. */
  lemma WatchOkIff(table: map<string, Debouncer>, path: string, creation: Result<Unit, string>, watching: Result<Unit, string>)
    requires Registered(table)
    ensures var (t, res) := Watch(table, path, creation, watching);
      && Registered(t)
      && (res.Ok? <==> path in t)
      && (forall p :: p != path ==> (p in t <==> p in table))
  {
  }

  /** Watching a path again changes nothing and succeeds, whatever the
      outcomes passed the second time. */
  lemma WatchIdempotent(table: map<string, Debouncer>, path: string, c1: Result<Unit, string>, w1: Result<Unit, string>,
                        c2: Result<Unit, string>, w2: Result<Unit, string>)
    requires Watch(table, path, c1, w1).1.Ok?
    ensures Watch(Watch(table, path, c1, w1).0, path, c2, w2) == (Watch(table, path, c1, w1).0, Ok(Unit))
  {
  }

  /** Unwatching a path that a successful `watch_folder` added restores the
      table it started from. */
  lemma UnwatchUndoesWatch(table: map<string, Debouncer>, path: string, creation: Result<Unit, string>, watching: Result<Unit, string>)
    requires path !in table && Watch(table, path, creation, watching).1.Ok?
    ensures Unwatch(Watch(table, path, creation, watching).0, path) == table
  {
    assert Unwatch(Watch(table, path, creation, watching).0, path).Keys == table.Keys;
  }

  /** The `FolderWatchers` state behind its mutex. */
  class FolderWatchers {
    var table: map<string, Debouncer>

    ghost predicate Valid()
      reads this
    {
      Registered(table)
    }

    /** The state the application starts with: nothing watched. */
    constructor ()
      ensures Valid() && table == map[]
    {
      table := map[];
    }

    /** Whether `path` is watched. */
    function Watching(path: string): (r: bool)
      reads this
      ensures r <==> path in table
    {
      path in table
    }

    method WatchFolder(path: string, creation: Result<Unit, string>, watching: Result<Unit, string>)
      returns (r: Result<Unit, string>)
      requires Valid()
      modifies this
      ensures Valid()
      ensures (table, r) == Watch(old(table), path, creation, watching)
    {
      WatchOkIff(table, path, creation, watching);
      if path in table {
        return Ok(Unit);
      }
      if creation.Err? {
        return Err(CreateFailed + creation.error);
      }
      var debouncer := Debouncer(path, DebounceSeconds);
      if watching.Err? {
        return Err(WatchFailed + watching.error);
      }
      table := table[path := debouncer];
      r := Ok(Unit);
    }

    method UnwatchFolder(path: string) returns (r: Result<Unit, string>)
      requires Valid()
      modifies this
      ensures Valid()
      ensures table == Unwatch(old(table), path) && r == Ok(Unit)
    {
      table := table - {path};
      r := Ok(Unit);
    }
  }
}
