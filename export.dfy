/**
 * export_data: the tasks of one type (or all) with their entries cut to a
 * date window, the one-on-one meetings in that window, and the CSV form of
 * both, whose quoted fields double every embedded quote as section 2, item 7
 * of RFC 4180 requires.
 */
module Export {
  import opened Wrappers
  import opened Text
  import opened Dates
  import opened Records
  import opened Listing
  import opened Search

  const Formats: seq<string> := ["json", "markdown", "csv"]

  /** The window sets no bound at all. */
  predicate Open(w: Window) {
    w.from == ZeroTime && w.to == ZeroTime
  }

  /** The entries inside the window, in order. */
  function EntriesInWindow(entries: seq<Entry>, w: Window): (r: seq<Entry>)
    ensures |r| <= |entries|
  {
    if entries == [] then []
    else (if InWindow(entries[0].timestamp, w) then [entries[0]] else []) + EntriesInWindow(entries[1..], w)
  }

  /** An entry is kept exactly when it is one of the entries and lies in the window. */
  lemma {:induction false} EntriesInWindowMembers(entries: seq<Entry>, w: Window, e: Entry)
    ensures e in EntriesInWindow(entries, w) <==> e in entries && InWindow(e.timestamp, w)
  {
    if entries != [] {
      EntriesInWindowMembers(entries[1..], w, e);
      assert entries == [entries[0]] + entries[1..];
    }
  }

  /** Without bounds no entry is dropped. */
  lemma {:induction false} OpenWindowKeepsEntries(entries: seq<Entry>, w: Window)
    requires Open(w)
    ensures EntriesInWindow(entries, w) == entries
  {
    if entries != [] {
      OpenWindowKeepsEntries(entries[1..], w);
      assert entries == [entries[0]] + entries[1..];
    }
  }

  /** The entry loop of export_data for one task. */
  method FilterEntries(entries: seq<Entry>, w: Window) returns (kept: seq<Entry>)
    ensures kept == EntriesInWindow(entries, w)
  {
    kept := [];
    var i := 0;
    while i < |entries|
      invariant 0 <= i <= |entries|
      invariant kept + EntriesInWindow(entries[i..], w) == EntriesInWindow(entries, w)
    {
      var e := entries[i];
      assert entries[i..][1..] == entries[i + 1..];
      var piece := [];
      if w.from != ZeroTime && e.timestamp < w.from {
        // before the window
      } else if w.to != ZeroTime && e.timestamp > w.to {
        // after the window
      } else {
        piece := [e];
      }
      AppendPiece(kept, piece, EntriesInWindow(entries[i + 1..], w), EntriesInWindow(entries[i..], w),
                  EntriesInWindow(entries, w));
      kept := kept + piece;
      i := i + 1;
    }
  }

  /**
   * A task is exported when it has the requested type and either keeps an
   * entry in the window or no bound is set; it carries only those entries.
   */
  predicate Exports(t: Task, taskFilter: string, w: Window) {
    OfType(t, taskFilter) && (EntriesInWindow(t.entries, w) != [] || Open(w))
  }

  function ExportedTasks(tasks: seq<Task>, taskFilter: string, w: Window): seq<Task> {
    if tasks == [] then []
    else
      var t := tasks[0];
      (if Exports(t, taskFilter, w) then [t.(entries := EntriesInWindow(t.entries, w))] else [])
      + ExportedTasks(tasks[1..], taskFilter, w)
  }

  /** The task loop of export_data. */
  method ExportTasks(tasks: seq<Task>, taskFilter: string, w: Window) returns (out: seq<Task>)
    ensures out == ExportedTasks(tasks, taskFilter, w)
  {
    out := [];
    var i := 0;
    while i < |tasks|
      invariant 0 <= i <= |tasks|
      invariant out + ExportedTasks(tasks[i..], taskFilter, w) == ExportedTasks(tasks, taskFilter, w)
    {
      var task := tasks[i];
      assert tasks[i..][1..] == tasks[i + 1..];
      var piece := [];
      if taskFilter != "" && task.kind != taskFilter {
        // a task of another type
      } else {
        var filteredEntries := FilterEntries(task.entries, w);
        if |filteredEntries| > 0 || (w.from == ZeroTime && w.to == ZeroTime) {
          var filteredTask := task;
          if w.from != ZeroTime || w.to != ZeroTime {
            filteredTask := filteredTask.(entries := filteredEntries);
          } else {
            OpenWindowKeepsEntries(task.entries, w);
          }
          piece := [filteredTask];
        }
      }
      AppendPiece(out, piece, ExportedTasks(tasks[i + 1..], taskFilter, w), ExportedTasks(tasks[i..], taskFilter, w),
                  ExportedTasks(tasks, taskFilter, w));
      out := out + piece;
      i := i + 1;
    }
  }

  /**
   * An exported task is a task of the requested type with its entries cut to
   * the window, and it is left out only when the window is set and empties it.
   */
  lemma {:induction false} ExportedTasksMembers(tasks: seq<Task>, taskFilter: string, w: Window, x: Task)
    ensures x in ExportedTasks(tasks, taskFilter, w) <==>
      exists t | t in tasks :: Exports(t, taskFilter, w) && x == t.(entries := EntriesInWindow(t.entries, w))
  {
    if tasks != [] {
      ExportedTasksMembers(tasks[1..], taskFilter, w, x);
      if exists t | t in tasks :: Exports(t, taskFilter, w) && x == t.(entries := EntriesInWindow(t.entries, w)) {
        var t :| t in tasks && Exports(t, taskFilter, w) && x == t.(entries := EntriesInWindow(t.entries, w));
        if t != tasks[0] {
          assert t in tasks[1..];
        }
      }
    }
  }

  /** Without date bounds every task of the requested type is exported whole. */
  lemma {:induction false} OpenWindowExportsWhole(tasks: seq<Task>, taskFilter: string, w: Window)
    requires Open(w)
    ensures taskFilter == "" ==> ExportedTasks(tasks, taskFilter, w) == tasks
  {
    if tasks != [] {
      OpenWindowExportsWhole(tasks[1..], taskFilter, w);
      OpenWindowKeepsEntries(tasks[0].entries, w);
      assert tasks == [tasks[0]] + tasks[1..];
    }
  }

  /** The meetings whose date lies in the window, in order. */
  function MeetingsInWindow(meetings: seq<OneOnOne>, w: Window): (r: seq<OneOnOne>)
    ensures |r| <= |meetings|
  {
    if meetings == [] then []
    else (if InWindow(MeetingTime(meetings[0]), w) then [meetings[0]] else []) + MeetingsInWindow(meetings[1..], w)
  }

  /** A meeting is exported exactly when it is one of the meetings and its date lies in the window. */
  lemma {:induction false} MeetingsInWindowMembers(meetings: seq<OneOnOne>, w: Window, m: OneOnOne)
    ensures m in MeetingsInWindow(meetings, w) <==> m in meetings && InWindow(MeetingTime(m), w)
  {
    if meetings != [] {
      MeetingsInWindowMembers(meetings[1..], w, m);
      assert meetings == [meetings[0]] + meetings[1..];
    }
  }

  /** The meeting loop of export_data. */
  method ExportMeetings(meetings: seq<OneOnOne>, w: Window) returns (out: seq<OneOnOne>)
    ensures out == MeetingsInWindow(meetings, w)
  {
    out := [];
    var i := 0;
    while i < |meetings|
      invariant 0 <= i <= |meetings|
      invariant out + MeetingsInWindow(meetings[i..], w) == MeetingsInWindow(meetings, w)
    {
      var m := meetings[i];
      assert meetings[i..][1..] == meetings[i + 1..];
      var meetingDate := MeetingTime(m);
      var piece := [];
      if w.from != ZeroTime && meetingDate < w.from {
        // before the window
      } else if w.to != ZeroTime && meetingDate > w.to {
        // after the window
      } else {
        piece := [m];
      }
      AppendPiece(out, piece, MeetingsInWindow(meetings[i + 1..], w), MeetingsInWindow(meetings[i..], w),
                  MeetingsInWindow(meetings, w));
      out := out + piece;
      i := i + 1;
    }
  }

  /** Go's strings.ReplaceAll(s, `"`, `""`): every quote doubled. */
  function Escape(s: string): (r: string)
    ensures |r| == |s| + CountChar(s, '"')
  {
    if s == [] then []
    else (if s[0] == '"' then "\"\"" else [s[0]]) + Escape(s[1..])
  }

  /**
   * How an RFC 4180 reader takes the inside of a quoted field back: a pair of
   * quotes is one quote; a lone quote would end the field, so it fails here.
   */
  function Unescape(s: string): Option<string>
    decreases |s|
  {
    if s == [] then Some([])
    else if s[0] == '"' then
      if |s| >= 2 && s[1] == '"' then
        match Unescape(s[2..])
        case Some(r) => Some(['"'] + r)
        case None => None
      else None
    else
      match Unescape(s[1..])
      case Some(r) => Some([s[0]] + r)
      case None => None
  }

  /** A quoted CSV field of export_data reads back as exactly the text written into it. */
  lemma {:induction false} UnescapeEscape(s: string)
    ensures Unescape(Escape(s)) == Some(s)
  {
    if s != [] {
      UnescapeEscape(s[1..]);
      var e := Escape(s);
      if s[0] == '"' {
        assert e[2..] == Escape(s[1..]);
      } else {
        assert e[1..] == Escape(s[1..]);
      }
      assert s == [s[0]] + s[1..];
    }
  }

  /** Text with no quote is written unchanged. */
  lemma {:induction false} EscapeWithoutQuotes(s: string)
    requires Free(s, '"')
    ensures Escape(s) == s
  {
    if s != [] {
      EscapeWithoutQuotes(s[1..]);
      assert s == [s[0]] + s[1..];
    }
  }

  /** "15:04": hour and minute of an instant, in UTC. */
  function HourMinute(ts: nat): string {
    var secs := ts % SecondsPerDay;
    ClockSplit(secs);
    Two(secs / 3600) + ":" + Two(secs / 60 % 60)
  }

  const CsvHeader: string := "Type,Date,Time,Task_ID,Task_Title,Content,Entry_Type\n"

  /** The CSV line of one entry of an exported task. */
  function EntryLine(t: Task, e: Entry): string {
    "task," + DateKey(e.timestamp) + "," + HourMinute(e.timestamp) + "," + t.id
    + ",\"" + Escape(t.title) + "\",\"" + Escape(e.content) + "\"," + e.kind + "\n"
  }

  /** The content column of a meeting: its notes, then insights and todos when there are any. */
  function MeetingContent(m: OneOnOne): string {
    var c := m.notes;
    var c := if |m.insights| > 0 then c + " | Insights: " + Join(m.insights, "; ") else c;
    if |m.todos| > 0 then c + " | Todos: " + Join(m.todos, "; ") else c
  }

  /** The CSV line of one exported meeting. */
  function MeetingLine(m: OneOnOne): string {
    "one-on-one," + m.date + ",00:00,one-on-one,\"One-on-One Meeting\",\"" + Escape(MeetingContent(m)) + "\",meeting\n"
  }

  /** The lines of the task part: task by task, entry by entry. */
  function EntryLines(t: Task, entries: seq<Entry>): seq<string> {
    if entries == [] then [] else [EntryLine(t, entries[0])] + EntryLines(t, entries[1..])
  }

  function TaskLines(tasks: seq<Task>): seq<string> {
    if tasks == [] then [] else EntryLines(tasks[0], tasks[0].entries) + TaskLines(tasks[1..])
  }

  function MeetingLines(meetings: seq<OneOnOne>): seq<string> {
    if meetings == [] then [] else [MeetingLine(meetings[0])] + MeetingLines(meetings[1..])
  }

  /** Total number of entries of `tasks`. */
  function EntryCount(tasks: seq<Task>): nat {
    if tasks == [] then 0 else |tasks[0].entries| + EntryCount(tasks[1..])
  }

  lemma {:induction false} EntryLinesCount(t: Task, entries: seq<Entry>)
    ensures |EntryLines(t, entries)| == |entries|
  {
    if entries != [] {
      EntryLinesCount(t, entries[1..]);
    }
  }

  /** One CSV line per entry of every exported task. */
  lemma {:induction false} TaskLinesCount(tasks: seq<Task>)
    ensures |TaskLines(tasks)| == EntryCount(tasks)
  {
    if tasks != [] {
      EntryLinesCount(tasks[0], tasks[0].entries);
      TaskLinesCount(tasks[1..]);
    }
  }

  lemma {:induction false} MeetingLinesCount(meetings: seq<OneOnOne>)
    ensures |MeetingLines(meetings)| == |meetings|
  {
    if meetings != [] {
      MeetingLinesCount(meetings[1..]);
    }
  }

  /** The CSV lines of one exported task's entries. */
  method TaskCsvLines(t: Task) returns (lines: seq<string>)
    ensures lines == EntryLines(t, t.entries)
  {
    lines := [];
    var j := 0;
    while j < |t.entries|
      invariant 0 <= j <= |t.entries|
      invariant lines + EntryLines(t, t.entries[j..]) == EntryLines(t, t.entries)
    {
      assert t.entries[j..][1..] == t.entries[j + 1..];
      AppendPiece(lines, [EntryLine(t, t.entries[j])], EntryLines(t, t.entries[j + 1..]),
                  EntryLines(t, t.entries[j..]), EntryLines(t, t.entries));
      lines := lines + [EntryLine(t, t.entries[j])];
      j := j + 1;
    }
  }

  /** The CSV lines of the exported meetings. */
  method MeetingCsvLines(meetings: seq<OneOnOne>) returns (lines: seq<string>)
    ensures lines == MeetingLines(meetings)
  {
    lines := [];
    var k := 0;
    while k < |meetings|
      invariant 0 <= k <= |meetings|
      invariant lines + MeetingLines(meetings[k..]) == MeetingLines(meetings)
    {
      assert meetings[k..][1..] == meetings[k + 1..];
      AppendPiece(lines, [MeetingLine(meetings[k])], MeetingLines(meetings[k + 1..]),
                  MeetingLines(meetings[k..]), MeetingLines(meetings));
      lines := lines + [MeetingLine(meetings[k])];
      k := k + 1;
    }
  }

  /** The CSV body of export_data: after the header, one line per exported entry, then per meeting. */
  method CsvLines(tasks: seq<Task>, meetings: seq<OneOnOne>) returns (lines: seq<string>)
    ensures lines == [CsvHeader] + TaskLines(tasks) + MeetingLines(meetings)
    ensures |lines| == 1 + EntryCount(tasks) + |meetings|
  {
    var taskPart := [];
    var i := 0;
    while i < |tasks|
      invariant 0 <= i <= |tasks|
      invariant taskPart + TaskLines(tasks[i..]) == TaskLines(tasks)
    {
      assert tasks[i..][1..] == tasks[i + 1..];
      var taskLines := TaskCsvLines(tasks[i]);
      AppendPiece(taskPart, taskLines, TaskLines(tasks[i + 1..]), TaskLines(tasks[i..]), TaskLines(tasks));
      taskPart := taskPart + taskLines;
      i := i + 1;
    }
    assert tasks[i..] == [];
    var meetingPart := MeetingCsvLines(meetings);
    lines := [CsvHeader] + taskPart + meetingPart;
    TaskLinesCount(tasks);
    MeetingLinesCount(meetings);
  }
}
