/**
 * The refactored journal service of internal/journal: the same create_task
 * and get_task handlers as the journal server, over its own task store,
 * with saveTask and loadTask as the put and get of that store. Its other
 * handlers are placeholders and are not modelled.
 */
module TaskService {
  import opened Wrappers
  import opened Records
  import opened Store
  import opened Markdown

  datatype ServiceError =
    | Required(field: string)
    | SaveFailed(id: string)
    | LoadFailed(id: string)

  class Service {
    var tasks: TaskStore

    ghost predicate Valid()
      reads this
    {
      Keyed(tasks)
    }

    constructor ()
      ensures Valid() && tasks == map[]
    {
      tasks := map[];
    }

    /** saveTask: the file named after the task's id holds the task, unless the write fails. */
    method SaveTask(task: Task, writeOk: bool) returns (ok: bool)
      requires Valid()
      modifies this
      ensures Valid()
      ensures ok == writeOk
      ensures tasks == if ok then Save(old(tasks), task) else old(tasks)
    {
      if !writeOk {
        return false;
      }
      tasks := tasks[task.id := task];
      return true;
    }

    /** loadTask: the task stored under `id`, or nothing when there is no such file. */
    method LoadTask(id: string) returns (task: Option<Task>)
      requires Valid()
      ensures task.Some? <==> id in tasks
      ensures task.Some? ==> task.value.id == id && task == Load(tasks, id)
    {
      if id !in tasks {
        return None;
      }
      return Some(tasks[id]);
    }

    /**
     * create_task: id, title and type are required, in that order. The task
     * saved is active, carries the issue id found in its URL and exactly one
     * creation entry; loading its id afterwards gives it back, and every
     * other id loads as before.
     */
    method CreateTask(id: Option<string>, title: Option<string>, kind: Option<string>, tags: seq<string>,
                      priority: string, issueUrl: string, now: nat, entryId: string, writeOk: bool)
      returns (r: Result<Task, ServiceError>)
      requires Valid()
      modifies this
      ensures Valid()
      ensures id.None? ==> r == Failure(Required("id"))
      ensures id.Some? && title.None? ==> r == Failure(Required("title"))
      ensures id.Some? && title.Some? && kind.None? ==> r == Failure(Required("type"))
      ensures id.Some? && title.Some? && kind.Some? && !writeOk ==> r == Failure(SaveFailed(id.value))
      ensures r.Success? <==> id.Some? && title.Some? && kind.Some? && writeOk
      ensures r.Success? ==>
        var t := r.value;
        t.id == id.value && t.title == title.value && t.kind == kind.value && t.tags == tags
        && t.status == "active" && t.priority == priority
        && t.issueUrl == issueUrl && t.issueId == IssueIdOf(issueUrl)
        && t.created == now && t.updated == now
        && t.entries == [CreationEntry(entryId, now, title.value)]
      ensures r.Success? ==> Load(tasks, id.value) == Some(r.value)
      ensures forall k | k in old(tasks) && (r.Failure? || k != id.value) :: Load(tasks, k) == Load(old(tasks), k)
      ensures r.Failure? ==> tasks == old(tasks)
    {
      if id.None? {
        return Failure(Required("id"));
      }
      if title.None? {
        return Failure(Required("title"));
      }
      if kind.None? {
        return Failure(Required("type"));
      }
      var task := NewTask(id.value, title.value, kind.value, tags, priority, issueUrl, now, entryId);
      var ok := SaveTask(task, writeOk);
      if !ok {
        return Failure(SaveFailed(id.value));
      }
      r := Success(task);
    }

    /**
     * get_task: task_id is required and the task must load; the document
     * shows each entry under its own day, days ascending, earliest entry
     * first, and the optional header lines only for fields that are set.
     */
    method GetTask(taskId: Option<string>) returns (r: Result<TaskDoc, ServiceError>)
      requires Valid()
      ensures taskId.None? ==> r == Failure(Required("task_id"))
      ensures taskId.Some? && taskId.value !in tasks ==> r == Failure(LoadFailed(taskId.value))
      ensures r.Success? <==> taskId.Some? && taskId.value in tasks
      ensures r.Success? ==>
        var t := tasks[taskId.value];
        Layout(t.entries, r.value.sections)
        && (r.value.showPriority <==> t.priority != "") && (r.value.showTags <==> |t.tags| > 0)
        && (r.value.showIssue <==> t.issueUrl != "")
    {
      if taskId.None? {
        return Failure(Required("task_id"));
      }
      var task := LoadTask(taskId.value);
      if task.None? {
        return Failure(LoadFailed(taskId.value));
      }
      var doc := FormatTask(task.value);
      r := Success(doc);
    }
  }
}
