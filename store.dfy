/**
 * The tasks directory as a map from task id to task: saveTask writes the
 * file named after the task's own id, loadTask reads the file for an id,
 * and loadAllTasks reads every `.json` file a directory listing names.
 */
module Store {
  import opened Wrappers
  import opened Text
  import opened Records

  type TaskStore = map<string, Task>

  /** Every stored task sits in the file named after its own id. */
  predicate Keyed(store: TaskStore) {
    forall k | k in store :: store[k].id == k
  }

  /** saveTask: the file named after the task's id now holds the task. */
  function Save(store: TaskStore, t: Task): (r: TaskStore)
    ensures r.Keys == store.Keys + {t.id}
  {
    store[t.id := t]
  }

  /** loadTask: the task in the file for `id`, if there is one. */
  function Load(store: TaskStore, id: string): Option<Task> {
    if id in store then Some(store[id]) else None
  }

  /**
   * Loading after saving gives back the task saved, under its id, and
   * every other id loads as before; a keyed store stays keyed.
   */
  lemma LoadAfterSave(store: TaskStore, t: Task, id: string)
    ensures Load(Save(store, t), t.id) == Some(t)
    ensures id != t.id ==> Load(Save(store, t), id) == Load(store, id)
    ensures Keyed(store) ==> Keyed(Save(store, t))
  {
  }

  /** The task id a directory entry names: its name without ".json", for a ".json" file. */
  function TaskFileId(name: string): (id: Option<string>)
    ensures id.Some? <==> HasSuffix(name, ".json")
    ensures id.Some? ==> id.value + ".json" == name
  {
    if HasSuffix(name, ".json") then
      assert name == name[..|name| - 5] + name[|name| - 5..];
      Some(name[..|name| - 5])
    else None
  }

  /**
   * loadAllTasks: the tasks of the listed ".json" files, in listing order;
   * a file that does not load is skipped.
   */
  function Loaded(listing: seq<string>, store: TaskStore): seq<Task> {
    if listing == [] then []
    else LoadedOne(listing[0], store) + Loaded(listing[1..], store)
  }

  /** The task the listed file `name` holds, if it is a ".json" file that loads. */
  function LoadedOne(name: string, store: TaskStore): seq<Task> {
    var id := TaskFileId(name);
    if id.Some? && id.value in store then [store[id.value]] else []
  }

  /** loadAllTasks: the tasks of the ".json" files the listing names, in listing order. */
  method LoadAllTasks(store: TaskStore, listing: seq<string>) returns (loaded: seq<Task>)
    ensures loaded == Loaded(listing, store)
  {
    loaded := [];
    var i := 0;
    while i < |listing|
      invariant 0 <= i <= |listing|
      invariant loaded + Loaded(listing[i..], store) == Loaded(listing, store)
    {
      var name := listing[i];
      LoadedStep(listing, i, store);
      var piece := [];
      if HasSuffix(name, ".json") {
        var id := name[..|name| - 5];
        if id in store {
          piece := [store[id]];
        }
      }
      assert piece == LoadedOne(name, store);
      AppendPiece(loaded, piece, Loaded(listing[i + 1..], store), Loaded(listing[i..], store), Loaded(listing, store));
      loaded := loaded + piece;
      i := i + 1;
    }
    assert listing[i..] == [];
  }

  /** The loading loop's step: the listed file at `i` contributes its task, if any. */
  lemma LoadedStep(listing: seq<string>, i: nat, store: TaskStore)
    requires i < |listing|
    ensures Loaded(listing[i..], store) == LoadedOne(listing[i], store) + Loaded(listing[i + 1..], store)
  {
    assert listing[i..][1..] == listing[i + 1..];
  }

  /** The listed file `name` is a task file holding `t`. */
  predicate HoldsTask(name: string, store: TaskStore, t: Task) {
    TaskFileId(name).Some? && TaskFileId(name).value in store && store[TaskFileId(name).value] == t
  }

  /**
   * A task is loaded exactly when some listed ".json" file names a stored
   * id holding it.
   */
  lemma {:induction false} LoadedMembers(listing: seq<string>, store: TaskStore, t: Task)
    ensures t in Loaded(listing, store) <==> exists name | name in listing :: HoldsTask(name, store, t)
  {
    if listing != [] {
      LoadedMembers(listing[1..], store, t);
      if exists name | name in listing :: HoldsTask(name, store, t) {
        var name :| name in listing && HoldsTask(name, store, t);
        if name != listing[0] {
          assert name in listing[1..];
        }
      }
      if t in Loaded(listing, store) {
        if t in Loaded(listing[1..], store) {
          var name :| name in listing[1..] && HoldsTask(name, store, t);
          assert name in listing;
        } else {
          assert t in LoadedOne(listing[0], store);
          assert HoldsTask(listing[0], store, t);
        }
      }
    }
  }

  /** Only the stored tasks are ever loaded, so a keyed store loads keyed tasks. */
  lemma LoadedFromStore(listing: seq<string>, store: TaskStore, t: Task)
    requires Keyed(store)
    requires t in Loaded(listing, store)
    ensures t.id in store && store[t.id] == t
  {
    LoadedMembers(listing, store, t);
  }
}
