/**
 * The journal service's task handlers: creating a task, adding, editing and
 * status-change entries, reading a task, listing and searching tasks, the
 * per-day activity cache, and reading and replacing the configuration.
 * The tasks directory, the daily directory and config.yaml are fields; the
 * clock, generated entry ids, directory listings, decoded JSON and the
 * outcome of each file write are parameters.
 */
module Journal {
  import opened Wrappers
  import opened Text
  import opened Dates
  import opened Records
  import opened Store
  import opened Listing
  import opened Markdown
  import opened Config
  import Search

  /** The errors the handlers report, one per distinct message. */
  datatype JournalError =
    | Required(field: string)
    | InvalidDate(field: string, value: string)
    | LoadFailed(id: string)
    | SaveFailed(id: string)
    | EntryNotFound
    | InvalidStatus
    | ListFailed
    | ConfigParseFailed
    | InvalidConfigJson
    | InvalidConfig(reason: ConfigError)
    | ConfigWriteFailed

  /** The contents of config.yaml: a configuration, or text that does not parse as one. */
  datatype StoredConfig = Parsed(config: Configuration) | Unparseable

  /** The daily directory: per "2006-01-02" day, the entries logged per task id. */
  type DailyStore = map<string, map<string, seq<Entry>>>

  /** validateDateFormat: an empty date is missing, any other must parse as "2006-01-02". */
  function ValidateDateFormat(s: string, field: string): (r: Option<JournalError>)
    ensures r.None? <==> ParseDate(s).Some?
    ensures s == "" ==> r == Some(Required(field))
    ensures s != "" && ParseDate(s).None? ==> r == Some(InvalidDate(field, s))
  {
    if s == "" then Some(Required(field))
    else if ParseDate(s).None? then Some(InvalidDate(field, s))
    else None
  }

  /** The timestamp of an added entry: the RFC 3339 argument when it parses, otherwise now. */
  function EntryTime(arg: string, now: nat): (ts: nat)
    ensures arg != "" && ParseRFC3339(arg).Some? ==> ts == ParseRFC3339(arg).value
    ensures (arg == "" || ParseRFC3339(arg).None?) ==> ts == now
  {
    if arg != "" && ParseRFC3339(arg).Some? then ParseRFC3339(arg).value else now
  }

  /** The text of a status_change entry, with ": reason" only when a reason is given. */
  function StatusChangeContent(from: string, to: string, reason: string): string {
    "Status changed from " + from + " to " + to + (if reason != "" then ": " + reason else "")
  }

  /** The position of the first entry with id `id`, or |entries| when there is none. */
  function FirstWithId(entries: seq<Entry>, id: string): (i: nat)
    ensures i <= |entries|
    ensures i < |entries| ==> entries[i].id == id
    ensures forall j | 0 <= j < i :: entries[j].id != id
  {
    if entries == [] then 0
    else if entries[0].id == id then 0
    else
      var rest := FirstWithId(entries[1..], id);
      assert forall j | 1 <= j < rest + 1 :: entries[j] == entries[1..][j - 1];
      1 + rest
  }

  /** updateDailyLog: the entry appended to its task's list in the file of its own day. */
  function WithDailyEntry(daily: DailyStore, taskId: string, entry: Entry): DailyStore {
    var date := DateKey(entry.timestamp);
    var day := if date in daily then daily[date] else map[];
    var logged := if taskId in day then day[taskId] else [];
    daily[date := day[taskId := logged + [entry]]]
  }

  /**
   * The day file written by updateDailyLog ends with the new entry under its
   * task, keeps what it held before, and no other day or task changes.
   */
  lemma DailyEntryAppended(daily: DailyStore, taskId: string, entry: Entry, date: string, other: string)
    ensures var after := WithDailyEntry(daily, taskId, entry);
      var day := DateKey(entry.timestamp);
      day in after && taskId in after[day]
      && after[day][taskId] == (if day in daily && taskId in daily[day] then daily[day][taskId] else []) + [entry]
      && (date != day ==> (date in after <==> date in daily) && (date in daily ==> after[date] == daily[date]))
      && (other != taskId && day in daily ==>
            (other in after[day] <==> other in daily[day])
            && (other in daily[day] ==> after[day][other] == daily[day][other]))
  {
  }

  /**
   * The day log GetDailyLog builds by scanning: per task with entries on
   * `date`, those entries under the task's id (a later task with the same
   * id replaces an earlier one).
   */
  function DayScan(tasks: seq<Task>, date: string): map<string, seq<Entry>> {
    if tasks == [] then map[]
    else
      var before := DayScan(tasks[..|tasks| - 1], date);
      var t := tasks[|tasks| - 1];
      var onDay := EntriesOn(t.entries, date);
      if onDay != [] then before[t.id := onDay] else before
  }

  /** Task `t` has id `id` and entries on `date`. */
  predicate LogsOn(t: Task, id: string, date: string) {
    t.id == id && EntriesOn(t.entries, date) != []
  }

  /** The last scanned task adds its id when it has entries on the day. */
  lemma DayScanLastKeys(tasks: seq<Task>, date: string, id: string)
    requires tasks != []
    ensures id in DayScan(tasks, date) <==>
      id in DayScan(tasks[..|tasks| - 1], date) || LogsOn(tasks[|tasks| - 1], id, date)
  {
  }

  /** The last scanned task with entries on the day replaces what was logged under its id. */
  lemma DayScanLastValue(tasks: seq<Task>, date: string, id: string)
    requires tasks != [] && id in DayScan(tasks, date)
    ensures var last := tasks[|tasks| - 1];
      DayScan(tasks, date)[id]
        == if LogsOn(last, id, date) then EntriesOn(last.entries, date) else DayScan(tasks[..|tasks| - 1], date)[id]
  {
  }

  /** A task id appears in a scanned day log exactly when a scanned task with that id has entries on the day. */
  lemma DayScanKeys(tasks: seq<Task>, date: string, id: string)
    ensures id in DayScan(tasks, date) <==> exists t | t in tasks :: LogsOn(t, id, date)
  {
    if id in DayScan(tasks, date) {
      DayScanKeysSound(tasks, date, id);
    }
    if exists t | t in tasks :: LogsOn(t, id, date) {
      var t :| t in tasks && LogsOn(t, id, date);
      DayScanKeysComplete(tasks, date, t);
    }
  }

  lemma {:induction false} DayScanKeysSound(tasks: seq<Task>, date: string, id: string)
    requires id in DayScan(tasks, date)
    ensures exists t | t in tasks :: LogsOn(t, id, date)
  {
    var init := tasks[..|tasks| - 1];
    var last := tasks[|tasks| - 1];
    DayScanLastKeys(tasks, date, id);
    if !LogsOn(last, id, date) {
      DayScanKeysSound(init, date, id);
      var t :| t in init && LogsOn(t, id, date);
      assert t in tasks;
    }
  }

  lemma {:induction false} DayScanKeysComplete(tasks: seq<Task>, date: string, t: Task)
    requires t in tasks && EntriesOn(t.entries, date) != []
    ensures t.id in DayScan(tasks, date)
  {
    var init := tasks[..|tasks| - 1];
    DayScanLastKeys(tasks, date, t.id);
    var k :| 0 <= k < |tasks| && tasks[k] == t;
    if k < |tasks| - 1 {
      assert init[k] == t;
      DayScanKeysComplete(init, date, t);
    }
  }

  /** A task id in a scanned day log lists the day's entries of a scanned task with that id. */
  lemma {:induction false} DayScanValues(tasks: seq<Task>, date: string, id: string)
    requires id in DayScan(tasks, date)
    ensures exists t | t in tasks :: t.id == id && DayScan(tasks, date)[id] == EntriesOn(t.entries, date)
  {
    var init := tasks[..|tasks| - 1];
    var last := tasks[|tasks| - 1];
    DayScanLastKeys(tasks, date, id);
    DayScanLastValue(tasks, date, id);
    if LogsOn(last, id, date) {
      assert tasks[|tasks| - 1] == last;
    } else {
      DayScanValues(init, date, id);
      var t :| t in init && t.id == id && DayScan(init, date)[id] == EntriesOn(t.entries, date);
      var k :| 0 <= k < |init| && init[k] == t;
      assert tasks[k] == t;
    }
  }

  /**
   * A scanned day log built from a keyed store lists, for each task id, just
   * that stored task's entries of the day; and every listed task with
   * entries on the day is in it.
   */
  lemma DayLogFromStore(listing: seq<string>, store: TaskStore, date: string, id: string)
    requires Keyed(store)
    ensures id in DayScan(Loaded(listing, store), date) ==>
      id in store && DayScan(Loaded(listing, store), date)[id] == EntriesOn(store[id].entries, date)
    ensures id in store && id + ".json" in listing && EntriesOn(store[id].entries, date) != [] ==>
      id in DayScan(Loaded(listing, store), date)
  {
    var loaded := Loaded(listing, store);
    DayScanKeys(loaded, date, id);
    if id in DayScan(loaded, date) {
      DayScanValues(loaded, date, id);
      var t :| t in loaded && t.id == id && DayScan(loaded, date)[id] == EntriesOn(t.entries, date);
      LoadedFromStore(listing, store, t);
    }
    if id in store && id + ".json" in listing && EntriesOn(store[id].entries, date) != [] {
      var name := id + ".json";
      assert HasSuffix(name, ".json") by {
        assert name[|name| - 5..] == ".json";
      }
      assert name[..|name| - 5] == id;
      assert HoldsTask(name, store, store[id]);
      LoadedMembers(listing, store, store[id]);
    }
  }

  /** The entries of one task on `date`, collected in order. */
  method DayEntries(entries: seq<Entry>, date: string) returns (onDay: seq<Entry>)
    ensures onDay == EntriesOn(entries, date)
  {
    onDay := [];
    var i := 0;
    while i < |entries|
      invariant 0 <= i <= |entries|
      invariant onDay + EntriesOn(entries[i..], date) == EntriesOn(entries, date)
    {
      EntriesOnStep(entries, i, date);
      var piece := DayPiece(entries[i], date);
      AppendPiece(onDay, piece, EntriesOn(entries[i + 1..], date), EntriesOn(entries[i..], date),
                  EntriesOn(entries, date));
      onDay := onDay + piece;
      i := i + 1;
    }
    assert entries[i..] == [];
  }

  /** One entry's share of the entries on a day, for the entry loop. */
  lemma EntriesOnStep(entries: seq<Entry>, i: nat, date: string)
    requires i < |entries|
    ensures EntriesOn(entries[i..], date)
         == DayPiece(entries[i], date) + EntriesOn(entries[i + 1..], date)
  {
    assert entries[i..][1..] == entries[i + 1..];
  }

  /** The scan GetDailyLog runs when the day has no file yet. */
  method ScanDay(tasks: seq<Task>, date: string) returns (day: map<string, seq<Entry>>)
    ensures day == DayScan(tasks, date)
  {
    day := map[];
    var i := 0;
    while i < |tasks|
      invariant 0 <= i <= |tasks|
      invariant day == DayScan(tasks[..i], date)
    {
      var task := tasks[i];
      assert tasks[..i + 1][..i] == tasks[..i];
      var onDay := DayEntries(task.entries, date);
      if |onDay| > 0 {
        day := day[task.id := onDay];
      }
      i := i + 1;
    }
    assert tasks[..i] == tasks;
  }

  /** What get_configuration reports for the contents of config.yaml. */
  function ConfigView(stored: Option<StoredConfig>): (r: Result<Configuration, JournalError>)
    ensures stored.None? ==> r == Success(DefaultConfiguration()) && ValidConfig(r.value)
    ensures stored == Some(Unparseable) <==> r == Failure(ConfigParseFailed)
  {
    match stored
    case None => Success(DefaultConfiguration())
    case Some(Unparseable) => Failure(ConfigParseFailed)
    case Some(Parsed(c)) => Success(c)
  }

  class JournalService {
    /** tasks/<id>.json */
    var tasks: TaskStore
    /** daily/<date>.json */
    var daily: DailyStore
    /** config.yaml, when it exists */
    var config: Option<StoredConfig>

    /** Every task file holds the task its name says. */
    ghost predicate Valid()
      reads this
    {
      Keyed(tasks)
    }

    constructor ()
      ensures Valid()
      ensures tasks == map[] && daily == map[] && config == None
    {
      tasks := map[];
      daily := map[];
      config := None;
    }

    /**
     * create_task: id, title and type are required, in that order; the new
     * task is active, has its issue id taken from the URL and exactly one
     * creation entry, and replaces any task with the same id.
     */
    method CreateTask(id: Option<string>, title: Option<string>, kind: Option<string>, tags: seq<string>,
                      priority: string, issueUrl: string, now: nat, entryId: string, saveOk: bool)
      returns (r: Result<Task, JournalError>)
      requires Valid()
      modifies this
      ensures Valid()
      ensures id.None? ==> r == Failure(Required("id"))
      ensures id.Some? && title.None? ==> r == Failure(Required("title"))
      ensures id.Some? && title.Some? && kind.None? ==> r == Failure(Required("type"))
      ensures id.Some? && title.Some? && kind.Some? && !saveOk ==> r == Failure(SaveFailed(id.value))
      ensures r.Success? <==> id.Some? && title.Some? && kind.Some? && saveOk
      ensures r.Success? ==>
        var t := r.value;
        t.id == id.value && t.title == title.value && t.kind == kind.value && t.tags == tags
        && t.status == "active" && t.priority == priority
        && t.issueUrl == issueUrl && t.issueId == IssueIdOf(issueUrl)
        && t.created == now && t.updated == now
        && t.entries == [CreationEntry(entryId, now, title.value)]
      ensures tasks == if r.Success? then Save(old(tasks), r.value) else old(tasks)
      ensures daily == old(daily) && config == old(config)
    {
      if id.None? {
        return Failure(Required("id"));
      }
      if title.None? {
        return Failure(Required("title"));
      }
      if kind.None? {
        return Failure(Required("type"));
      }
      var task := NewTask(id.value, title.value, kind.value, tags, priority, issueUrl, now, entryId);
      if !saveOk {
        return Failure(SaveFailed(id.value));
      }
      tasks := Save(tasks, task);
      r := Success(task);
    }

    /**
     * add_task_entry: task_id and content are required and the task must
     * load; the task gains one "log" entry at the parsed timestamp (or now),
     * is marked updated now, and the entry is logged for its day when the
     * day file can be written (`dailyOk`; a failed write is ignored).
     */
    method AddTaskEntry(taskId: Option<string>, content: Option<string>, timestampArg: string,
                        now: nat, entryId: string, saveOk: bool, dailyOk: bool)
      returns (r: Result<Entry, JournalError>)
      requires Valid()
      modifies this
      ensures Valid()
      ensures taskId.None? ==> r == Failure(Required("task_id"))
      ensures taskId.Some? && content.None? ==> r == Failure(Required("content"))
      ensures taskId.Some? && content.Some? && taskId.value !in old(tasks) ==> r == Failure(LoadFailed(taskId.value))
      ensures r.Success? <==> taskId.Some? && content.Some? && taskId.value in old(tasks) && saveOk
      ensures r.Success? ==> r.value == Entry(entryId, EntryTime(timestampArg, now), content.value, "log")
      ensures r.Success? ==>
        var t := old(tasks)[taskId.value];
        tasks == old(tasks)[taskId.value := t.(entries := t.entries + [r.value], updated := now)]
        && daily == (if dailyOk then WithDailyEntry(old(daily), taskId.value, r.value) else old(daily))
      ensures r.Failure? ==> tasks == old(tasks) && daily == old(daily)
      ensures config == old(config)
    {
      if taskId.None? {
        return Failure(Required("task_id"));
      }
      if content.None? {
        return Failure(Required("content"));
      }
      var tid := taskId.value;
      if tid !in tasks {
        return Failure(LoadFailed(tid));
      }
      var task := tasks[tid];
      var timestamp := now;
      if timestampArg != "" {
        var parsed := ParseRFC3339(timestampArg);
        if parsed.Some? {
          timestamp := parsed.value;
        }
      }
      var entry := Entry(entryId, timestamp, content.value, "log");
      task := task.(entries := task.entries + [entry], updated := now);
      if !saveOk {
        return Failure(SaveFailed(tid));
      }
      tasks := Save(tasks, task);
      UpdateDailyLog(tid, entry, dailyOk);
      r := Success(entry);
    }

    /**
     * updateDailyLog: the entry is appended under its task in the file of its
     * day; `writeOk` says whether that file could be written, a failed write
     * being ignored.
     */
    method UpdateDailyLog(taskId: string, entry: Entry, writeOk: bool)
      modifies this
      ensures daily == if writeOk then WithDailyEntry(old(daily), taskId, entry) else old(daily)
      ensures tasks == old(tasks) && config == old(config)
    {
      if !writeOk {
        return;
      }
      var date := DateKey(entry.timestamp);
      var day: map<string, seq<Entry>> := map[];
      if date in daily {
        day := daily[date];
      }
      var logged := if taskId in day then day[taskId] else [];
      day := day[taskId := logged + [entry]];
      daily := daily[date := day];
    }

    /**
     * update_task_entry: the first entry with the given id gets the new
     * content and the task is marked updated; without such an entry the
     * answer is "Entry not found" and nothing is saved.
     */
    method UpdateTaskEntry(taskId: Option<string>, entryId: Option<string>, content: Option<string>,
                           now: nat, saveOk: bool)
      returns (r: Result<nat, JournalError>)
      requires Valid()
      modifies this
      ensures Valid()
      ensures taskId.None? ==> r == Failure(Required("task_id"))
      ensures taskId.Some? && entryId.None? ==> r == Failure(Required("entry_id"))
      ensures taskId.Some? && entryId.Some? && content.None? ==> r == Failure(Required("content"))
      ensures taskId.Some? && entryId.Some? && content.Some? && taskId.value !in old(tasks) ==>
        r == Failure(LoadFailed(taskId.value))
      ensures (taskId.Some? && entryId.Some? && content.Some? && taskId.value in old(tasks)
               && FirstWithId(old(tasks)[taskId.value].entries, entryId.value) == |old(tasks)[taskId.value].entries|)
        ==> r == Failure(EntryNotFound)
      ensures r.Success? <==>
        taskId.Some? && entryId.Some? && content.Some? && taskId.value in old(tasks)
        && FirstWithId(old(tasks)[taskId.value].entries, entryId.value) < |old(tasks)[taskId.value].entries|
        && saveOk
      ensures r.Success? ==>
        var t := old(tasks)[taskId.value];
        r.value == FirstWithId(t.entries, entryId.value) && r.value < |t.entries| && saveOk
        && tasks == old(tasks)[taskId.value :=
             t.(entries := t.entries[r.value := t.entries[r.value].(content := content.value)], updated := now)]
      ensures r.Failure? ==> tasks == old(tasks)
      ensures daily == old(daily) && config == old(config)
    {
      if taskId.None? {
        return Failure(Required("task_id"));
      }
      if entryId.None? {
        return Failure(Required("entry_id"));
      }
      if content.None? {
        return Failure(Required("content"));
      }
      var tid := taskId.value;
      if tid !in tasks {
        return Failure(LoadFailed(tid));
      }
      var task := tasks[tid];
      var found := false;
      var i := 0;
      while i < |task.entries|
        invariant 0 <= i <= |task.entries|
        invariant forall j | 0 <= j < i :: task.entries[j].id != entryId.value
      {
        if task.entries[i].id == entryId.value {
          found := true;
          break;
        }
        i := i + 1;
      }
      if !found {
        return Failure(EntryNotFound);
      }
      assert i == FirstWithId(task.entries, entryId.value);
      task := task.(entries := task.entries[i := task.entries[i].(content := content.value)], updated := now);
      if !saveOk {
        return Failure(SaveFailed(tid));
      }
      tasks := Save(tasks, task);
      r := Success(i);
    }

    /**
     * update_task_status: a status outside the four allowed ones is refused
     * before the task is read; otherwise the status is set, the task is
     * marked updated and one "status_change" entry records the change, which
     * is also logged for its day when the day file can be written (`dailyOk`).
     */
    method UpdateTaskStatus(taskId: Option<string>, status: Option<string>, reason: string,
                            now: nat, entryId: string, saveOk: bool, dailyOk: bool)
      returns (r: Result<Entry, JournalError>)
      requires Valid()
      modifies this
      ensures Valid()
      ensures taskId.None? ==> r == Failure(Required("task_id"))
      ensures taskId.Some? && status.None? ==> r == Failure(Required("status"))
      ensures taskId.Some? && status.Some? && status.value !in Statuses ==> r == Failure(InvalidStatus)
      ensures taskId.Some? && status.Some? && status.value in Statuses && taskId.value !in old(tasks) ==>
        r == Failure(LoadFailed(taskId.value))
      ensures r.Success? <==>
        taskId.Some? && status.Some? && status.value in Statuses && taskId.value in old(tasks) && saveOk
      ensures r.Success? ==>
        var t := old(tasks)[taskId.value];
        r.value == Entry(entryId, now, StatusChangeContent(t.status, status.value, reason), "status_change")
        && tasks == old(tasks)[taskId.value :=
             t.(status := status.value, updated := now, entries := t.entries + [r.value])]
        && daily == (if dailyOk then WithDailyEntry(old(daily), taskId.value, r.value) else old(daily))
      ensures r.Failure? ==> tasks == old(tasks) && daily == old(daily)
      ensures config == old(config)
    {
      if taskId.None? {
        return Failure(Required("task_id"));
      }
      if status.None? {
        return Failure(Required("status"));
      }
      var isValid := IsOneOf(status.value, Statuses);
      if !isValid {
        return Failure(InvalidStatus);
      }
      var tid := taskId.value;
      if tid !in tasks {
        return Failure(LoadFailed(tid));
      }
      var task := tasks[tid];
      var oldStatus := task.status;
      task := task.(status := status.value, updated := now);
      var content := "Status changed from " + oldStatus + " to " + status.value;
      if reason != "" {
        content := content + ": " + reason;
      }
      var entry := Entry(entryId, now, content, "status_change");
      task := task.(entries := task.entries + [entry]);
      if !saveOk {
        return Failure(SaveFailed(tid));
      }
      tasks := Save(tasks, task);
      UpdateDailyLog(tid, entry, dailyOk);
      r := Success(entry);
    }

    /** get_task: the stored task laid out as a document, headings by day. */
    method GetTask(taskId: Option<string>) returns (r: Result<TaskDoc, JournalError>)
      ensures taskId.None? ==> r == Failure(Required("task_id"))
      ensures taskId.Some? && taskId.value !in tasks ==> r == Failure(LoadFailed(taskId.value))
      ensures r.Success? <==> taskId.Some? && taskId.value in tasks
      ensures r.Success? ==>
        var t := tasks[taskId.value];
        Layout(t.entries, r.value.sections)
        && (r.value.showPriority <==> t.priority != "") && (r.value.showTags <==> |t.tags| > 0)
        && (r.value.showIssue <==> t.issueUrl != "")
    {
      if taskId.None? {
        return Failure(Required("task_id"));
      }
      if taskId.value !in tasks {
        return Failure(LoadFailed(taskId.value));
      }
      var doc := FormatTask(tasks[taskId.value]);
      r := Success(doc);
    }

    /**
     * list_tasks: the loaded tasks that pass the filters, newest first, and
     * the requested page of them; an unreadable tasks directory is an error.
     */
    method ListTasks(listing: Option<seq<string>>, f: Filters, limitArg: string, offsetArg: string)
      returns (r: Result<Listed, JournalError>)
      ensures r.Failure? <==> listing.None?
      ensures r.Success? ==>
        multiset(r.value.sorted) == multiset(KeepMatching(Loaded(listing.value, tasks), f))
        && NewestFirst(r.value.sorted)
        && r.value.start == Min(ParseOffset(offsetArg), |r.value.sorted|)
        && r.value.end == Min(ParseOffset(offsetArg) + ParseLimit(limitArg), |r.value.sorted|)
        && r.value.start <= r.value.end <= |r.value.sorted|
        && r.value.page == r.value.sorted[r.value.start..r.value.end]
    {
      if listing.None? {
        return Failure(ListFailed);
      }
      var loaded := LoadAllTasks(tasks, listing.value);
      var listed := ListPage(loaded, f, limitArg, offsetArg);
      r := Success(listed);
    }

    /**
     * search_entries: the query is required; the hits over the loaded tasks
     * and the given meetings, newest first.
     */
    method SearchEntries(query: Option<string>, taskType: string, dateFrom: string, dateTo: string,
                         listing: Option<seq<string>>, meetings: seq<OneOnOne>)
      returns (r: Result<seq<Search.SearchResult>, JournalError>)
      ensures query.None? ==> r == Failure(Required("query"))
      ensures query.Some? && listing.None? ==> r == Failure(ListFailed)
      ensures r.Success? <==> query.Some? && listing.Some?
      ensures r.Success? ==>
        var q := ToLower(query.value);
        var w := Search.WindowOf(dateFrom, dateTo);
        multiset(r.value) == multiset(Search.TaskHits(Loaded(listing.value, tasks), q, taskType, w)
                                      + Search.MeetingHits(meetings, q, w))
        && forall i, j | 0 <= i < j < |r.value| :: r.value[i].entry.timestamp >= r.value[j].entry.timestamp
    {
      if query.None? {
        return Failure(Required("query"));
      }
      if listing.None? {
        return Failure(ListFailed);
      }
      var loaded := LoadAllTasks(tasks, listing.value);
      var results := Search.SearchEntries(query.value, taskType, dateFrom, dateTo, loaded, meetings);
      r := Success(results);
    }

    /**
     * get_daily_log: a valid date is required; an existing day file is
     * returned as it is, otherwise the day is built by scanning the loaded
     * tasks and saved as the day's file (`dailyOk` says whether that write
     * succeeds; a failed write is ignored).
     */
    method GetDailyLog(date: Option<string>, listing: Option<seq<string>>, dailyOk: bool)
      returns (r: Result<map<string, seq<Entry>>, JournalError>)
      requires Valid()
      modifies this
      ensures Valid()
      ensures date.None? ==> r == Failure(Required("date"))
      ensures date.Some? && ValidateDateFormat(date.value, "date").Some? ==>
        r == Failure(ValidateDateFormat(date.value, "date").value)
      ensures date.Some? && ParseDate(date.value).Some? && date.value in old(daily) ==>
        r == Success(old(daily)[date.value]) && daily == old(daily)
      ensures date.Some? && ParseDate(date.value).Some? && date.value !in old(daily) && listing.None? ==>
        r == Failure(ListFailed)
      ensures date.Some? && ParseDate(date.value).Some? && date.value !in old(daily) && listing.Some? ==>
        r == Success(DayScan(Loaded(listing.value, old(tasks)), date.value))
        && daily == (if dailyOk then old(daily)[date.value := r.value] else old(daily))
      ensures r.Failure? ==> daily == old(daily)
      ensures tasks == old(tasks) && config == old(config)
    {
      if date.None? {
        return Failure(Required("date"));
      }
      var d := date.value;
      var invalid := ValidateDateFormat(d, "date");
      if invalid.Some? {
        return Failure(invalid.value);
      }
      if d in daily {
        return Success(daily[d]);
      }
      if listing.None? {
        return Failure(ListFailed);
      }
      var loaded := LoadAllTasks(tasks, listing.value);
      var day := ScanDay(loaded, d);
      if dailyOk {
        daily := daily[d := day];
      }
      r := Success(day);
    }

    /** get_configuration: config.yaml when it parses, the defaults when there is none. */
    method GetConfiguration() returns (r: Result<Configuration, JournalError>)
      ensures r == ConfigView(config)
    {
      match config {
        case None =>
          r := Success(DefaultConfiguration());
        case Some(Unparseable) =>
          r := Failure(ConfigParseFailed);
        case Some(Parsed(c)) =>
          r := Success(c);
      }
    }

    /**
     * update_configuration: `decoded` is the JSON decoding of the non-empty
     * `text`. An empty text, a text that does not decode, or a configuration
     * that fails validation is refused before anything is written.
     */
    method UpdateConfiguration(text: string, decoded: Option<Configuration>, writeOk: bool)
      returns (r: Result<Configuration, JournalError>)
      modifies this
      ensures text == "" ==> r == Failure(Required("config"))
      ensures text != "" && decoded.None? ==> r == Failure(InvalidConfigJson)
      ensures text != "" && decoded.Some? && !ValidConfig(decoded.value) ==>
        r == Failure(InvalidConfig(FirstConfigError(decoded.value).value))
      ensures text != "" && decoded.Some? && ValidConfig(decoded.value) && !writeOk ==> r == Failure(ConfigWriteFailed)
      ensures r.Success? <==> text != "" && decoded.Some? && ValidConfig(decoded.value) && writeOk
      ensures r.Success? ==> r.value == decoded.value && config == Some(Parsed(r.value))
      ensures r.Failure? ==> config == old(config)
      ensures tasks == old(tasks) && daily == old(daily)
    {
      if text == "" {
        return Failure(Required("config"));
      }
      if decoded.None? {
        return Failure(InvalidConfigJson);
      }
      var c := decoded.value;
      var err := ValidateConfiguration(c);
      if err.Some? {
        return Failure(InvalidConfig(err.value));
      }
      if !writeOk {
        return Failure(ConfigWriteFailed);
      }
      config := Some(Parsed(c));
      r := Success(c);
    }
  }
}
