/**
 * search_entries: a case-insensitive substring search over the entries of
 * every task (optionally of one type) and over the notes of the one-on-one
 * meetings, limited to a date window, newest result first, each result shown
 * with a short snippet around the first hit.
 */
module Search {
  import opened Wrappers
  import opened Text
  import opened Dates
  import opened Records
  import opened Listing
  import opened Sorting

  /** One hit: the task it came from, the entry itself and what matched. */
  datatype SearchResult = SearchResult(taskId: string, taskTitle: string, entry: Entry, context: string)

  /**
   * The date window shared by search_entries and export_data. Each bound is
   * a parseDateSafely value; the zero time means "no bound". A set upper
   * bound is moved on by one day to take in the whole end date.
   */
  datatype Window = Window(from: nat, to: nat)

  function WindowOf(dateFrom: string, dateTo: string): Window {
    var to := ParseDateSafely(dateTo);
    Window(ParseDateSafely(dateFrom), if to != ZeroTime then to + SecondsPerDay else to)
  }

  predicate InWindow(ts: nat, w: Window) {
    (w.from == ZeroTime || ts >= w.from) && (w.to == ZeroTime || ts <= w.to)
  }

  /**
   * With two valid dates the window runs from the start of the first day to
   * the midnight that ends the last day, both included. The dates excluded
   * are those that give no bound: 0001-01-01 (the zero time itself) and, as
   * an upper bound, 0000-12-31, whose following midnight is the zero time.
   */
  lemma WindowOfDays(ts: nat, dateFrom: string, dateTo: string, d: Date, e: Date)
    requires ParseDate(dateFrom) == Some(d) && ParseDate(dateTo) == Some(e)
    requires d != Date(1, 1, 1) && e != Date(1, 1, 1) && e != Date(0, 12, 31)
    ensures InWindow(ts, WindowOf(dateFrom, dateTo)) <==> StartOfDay(d) <= ts <= StartOfDay(e) + SecondsPerDay
  {
    SafeDateIsZero(dateFrom);
    SafeDateIsZero(dateTo);
    if StartOfDay(e) + SecondsPerDay == ZeroTime {
      assert DayNumber(e) == DayNumber(Date(0, 12, 31));
      DayNumberInjective(e, Date(0, 12, 31));
    }
  }

  /** Dates that do not parse set no bound at all. */
  lemma InvalidDatesOpenWindow(ts: nat, dateFrom: string, dateTo: string)
    requires ParseDate(dateFrom).None? && ParseDate(dateTo).None?
    ensures InWindow(ts, WindowOf(dateFrom, dateTo))
  {
  }

  /** The label of a hit: "both" when title and content match, else the one that does. */
  function ContextOf(taskMatches: bool, entryMatches: bool): (c: string)
    requires taskMatches || entryMatches
    ensures c == "both" <==> taskMatches && entryMatches
    ensures c == "entry" <==> !taskMatches && entryMatches
    ensures c == "task" <==> taskMatches && !entryMatches
  {
    if taskMatches && entryMatches then "both" else if entryMatches then "entry" else "task"
  }

  /** `e` of task `t` is a hit for `query` within `w`, reported as `r`. */
  predicate EntryHit(t: Task, e: Entry, query: string, w: Window, r: SearchResult) {
    var tm := Contains(ToLower(t.title), query);
    var em := Contains(ToLower(e.content), query);
    InWindow(e.timestamp, w) && (tm || em) && r == SearchResult(t.id, t.title, e, ContextOf(tm, em))
  }

  /** The hits among `entries` of task `t`, in entry order. */
  function EntryHits(t: Task, entries: seq<Entry>, query: string, w: Window): seq<SearchResult> {
    if entries == [] then []
    else
      var e := entries[0];
      var rest := EntryHits(t, entries[1..], query, w);
      var tm := Contains(ToLower(t.title), query);
      var em := Contains(ToLower(e.content), query);
      if InWindow(e.timestamp, w) && (tm || em) then [SearchResult(t.id, t.title, e, ContextOf(tm, em))] + rest
      else rest
  }

  /** The type filter: an empty type lets every task through. */
  predicate OfType(t: Task, taskType: string) {
    taskType == "" || t.kind == taskType
  }

  /** The hits among the entries of `tasks`, task by task. */
  function TaskHits(tasks: seq<Task>, query: string, taskType: string, w: Window): seq<SearchResult> {
    if tasks == [] then []
    else
      (if OfType(tasks[0], taskType) then EntryHits(tasks[0], tasks[0].entries, query, w) else [])
      + TaskHits(tasks[1..], query, taskType, w)
  }

  /** The text searched in a meeting: notes, insights, todos and feedback, lower-cased. */
  function MeetingText(m: OneOnOne): string {
    ToLower(m.notes + " " + Join(m.insights, " ") + " " + Join(m.todos, " ") + " " + Join(m.feedback, " "))
  }

  /**
   * A meeting's time: midnight UTC of its date, or the zero time when the
   * date does not parse (the parse error is dropped).
   */
  function MeetingTime(m: OneOnOne): nat {
    ParseDateSafely(m.date)
  }

  function MeetingResult(m: OneOnOne): SearchResult {
    SearchResult("one-on-one", "One-on-One: " + m.date, Entry("", MeetingTime(m), m.notes, "one-on-one"), "one-on-one")
  }

  predicate MeetingHit(m: OneOnOne, query: string, w: Window) {
    InWindow(MeetingTime(m), w) && Contains(MeetingText(m), query)
  }

  /** The meetings that are hits, in order. */
  function MeetingHits(meetings: seq<OneOnOne>, query: string, w: Window): seq<SearchResult> {
    if meetings == [] then []
    else
      var head := if MeetingHit(meetings[0], query, w) then [MeetingResult(meetings[0])] else [];
      head + MeetingHits(meetings[1..], query, w)
  }

  /** A result comes from the entries of a task exactly when it is a hit of one of them. */
  lemma {:induction false} EntryHitsMembers(t: Task, entries: seq<Entry>, query: string, w: Window, r: SearchResult)
    ensures r in EntryHits(t, entries, query, w) <==> exists e | e in entries :: EntryHit(t, e, query, w, r)
  {
    if entries != [] {
      EntryHitsMembers(t, entries[1..], query, w, r);
      var rest := EntryHits(t, entries[1..], query, w);
      if r in EntryHits(t, entries, query, w) && r !in rest {
        assert EntryHit(t, entries[0], query, w, r);
      }
      if exists e | e in entries :: EntryHit(t, e, query, w, r) {
        var e :| e in entries && EntryHit(t, e, query, w, r);
        if e != entries[0] {
          assert e in entries[1..];
        }
      }
    }
  }

  /**
   * The task part of a search finds exactly the hits among the entries of
   * the tasks of the requested type.
   */
  lemma {:induction false} TaskHitsMembers(tasks: seq<Task>, query: string, taskType: string, w: Window, r: SearchResult)
    ensures r in TaskHits(tasks, query, taskType, w) <==>
      exists t, e | t in tasks && e in t.entries :: OfType(t, taskType) && EntryHit(t, e, query, w, r)
  {
    if tasks != [] {
      var t0 := tasks[0];
      TaskHitsMembers(tasks[1..], query, taskType, w, r);
      EntryHitsMembers(t0, t0.entries, query, w, r);
      if exists t, e | t in tasks && e in t.entries :: OfType(t, taskType) && EntryHit(t, e, query, w, r) {
        var t, e :| t in tasks && e in t.entries && OfType(t, taskType) && EntryHit(t, e, query, w, r);
        if t != t0 {
          assert t in tasks[1..];
        }
      }
    }
  }

  /** The meeting part of a search finds exactly the meetings that are hits. */
  lemma {:induction false} MeetingHitsMembers(meetings: seq<OneOnOne>, query: string, w: Window, r: SearchResult)
    ensures r in MeetingHits(meetings, query, w) <==>
      exists m | m in meetings :: MeetingHit(m, query, w) && r == MeetingResult(m)
  {
    if meetings != [] {
      MeetingHitsMembers(meetings[1..], query, w, r);
      if exists m | m in meetings :: MeetingHit(m, query, w) && r == MeetingResult(m) {
        var m :| m in meetings && MeetingHit(m, query, w) && r == MeetingResult(m);
        if m != meetings[0] {
          assert m in meetings[1..];
        }
      }
    }
  }

  /** One entry's share of the hits, for the entry loop. */
  lemma EntryHitsStep(t: Task, entries: seq<Entry>, j: nat, query: string, w: Window)
    requires j < |entries|
    ensures var e := entries[j];
      var tm := Contains(ToLower(t.title), query);
      var em := Contains(ToLower(e.content), query);
      EntryHits(t, entries[j..], query, w)
        == (if InWindow(e.timestamp, w) && (tm || em) then [SearchResult(t.id, t.title, e, ContextOf(tm, em))] else [])
           + EntryHits(t, entries[j + 1..], query, w)
  {
    assert entries[j..][1..] == entries[j + 1..];
  }

  /** The entry loop of search_entries for one task of the requested type. */
  method CollectEntryHits(t: Task, query: string, w: Window) returns (hits: seq<SearchResult>)
    ensures hits == EntryHits(t, t.entries, query, w)
  {
    hits := [];
    var taskMatches := Contains(ToLower(t.title), query);
    var j := 0;
    while j < |t.entries|
      invariant 0 <= j <= |t.entries|
      invariant hits + EntryHits(t, t.entries[j..], query, w) == EntryHits(t, t.entries, query, w)
    {
      var e := t.entries[j];
      EntryHitsStep(t, t.entries, j, query, w);
      ghost var rest := EntryHits(t, t.entries[j + 1..], query, w);
      ghost var remaining := EntryHits(t, t.entries[j..], query, w);
      ghost var total := EntryHits(t, t.entries, query, w);
      var piece := [];
      if (w.from != ZeroTime && e.timestamp < w.from) || (w.to != ZeroTime && e.timestamp > w.to) {
        // outside the date window
      } else {
        var entryMatches := Contains(ToLower(e.content), query);
        if taskMatches || entryMatches {
          var context := "task";
          if entryMatches {
            context := "entry";
          }
          if taskMatches && entryMatches {
            context := "both";
          }
          piece := [SearchResult(t.id, t.title, e, context)];
        }
      }
      AppendPiece(hits, piece, rest, remaining, total);
      hits := hits + piece;
      j := j + 1;
    }
  }

  /** One task's share of the hits, for the task loop. */
  lemma TaskHitsStep(tasks: seq<Task>, i: nat, query: string, taskType: string, w: Window)
    requires i < |tasks|
    ensures TaskHits(tasks[i..], query, taskType, w)
      == (if OfType(tasks[i], taskType) then EntryHits(tasks[i], tasks[i].entries, query, w) else [])
         + TaskHits(tasks[i + 1..], query, taskType, w)
  {
    assert tasks[i..][1..] == tasks[i + 1..];
  }

  /** The task loop of search_entries. */
  method CollectTaskHits(tasks: seq<Task>, query: string, taskType: string, w: Window)
    returns (results: seq<SearchResult>)
    ensures results == TaskHits(tasks, query, taskType, w)
  {
    results := [];
    var i := 0;
    while i < |tasks|
      invariant 0 <= i <= |tasks|
      invariant results + TaskHits(tasks[i..], query, taskType, w) == TaskHits(tasks, query, taskType, w)
    {
      var t := tasks[i];
      TaskHitsStep(tasks, i, query, taskType, w);
      ghost var rest := TaskHits(tasks[i + 1..], query, taskType, w);
      ghost var remaining := TaskHits(tasks[i..], query, taskType, w);
      ghost var total := TaskHits(tasks, query, taskType, w);
      var piece := [];
      if taskType != "" && t.kind != taskType {
        // a task of another type
      } else {
        piece := CollectEntryHits(t, query, w);
      }
      AppendPiece(results, piece, rest, remaining, total);
      results := results + piece;
      i := i + 1;
    }
  }

  /** One meeting's share of the hits, for the meeting loop. */
  lemma MeetingHitsStep(meetings: seq<OneOnOne>, k: nat, query: string, w: Window)
    requires k < |meetings|
    ensures MeetingHits(meetings[k..], query, w)
      == (if MeetingHit(meetings[k], query, w) then [MeetingResult(meetings[k])] else [])
         + MeetingHits(meetings[k + 1..], query, w)
  {
    assert meetings[k..][1..] == meetings[k + 1..];
  }

  /** The meeting loop of search_entries. */
  method CollectMeetingHits(meetings: seq<OneOnOne>, query: string, w: Window)
    returns (results: seq<SearchResult>)
    ensures results == MeetingHits(meetings, query, w)
  {
    results := [];
    var k := 0;
    while k < |meetings|
      invariant 0 <= k <= |meetings|
      invariant results + MeetingHits(meetings[k..], query, w) == MeetingHits(meetings, query, w)
    {
      var m := meetings[k];
      MeetingHitsStep(meetings, k, query, w);
      ghost var rest := MeetingHits(meetings[k + 1..], query, w);
      ghost var remaining := MeetingHits(meetings[k..], query, w);
      ghost var total := MeetingHits(meetings, query, w);
      var piece := [];
      var meetingTime := ParseDateSafely(m.date);
      if (w.from != ZeroTime && meetingTime < w.from) || (w.to != ZeroTime && meetingTime > w.to) {
        // outside the date window
      } else if Contains(MeetingText(m), query) {
        piece := [MeetingResult(m)];
      }
      AppendPiece(results, piece, rest, remaining, total);
      results := results + piece;
      k := k + 1;
    }
  }

  /** The sort order of the results: later entry time first. */
  function LaterHit(a: SearchResult, b: SearchResult): bool {
    a.entry.timestamp > b.entry.timestamp
  }

  lemma LaterHitOrder(results: seq<SearchResult>)
    ensures Asymmetric(LaterHit) && NotLessTransitive(LaterHit)
    ensures Sorted(results, LaterHit) ==> forall i, j | 0 <= i < j < |results| ::
      results[i].entry.timestamp >= results[j].entry.timestamp
  {
    if Sorted(results, LaterHit) {
      forall i, j | 0 <= i < j < |results|
        ensures results[i].entry.timestamp >= results[j].entry.timestamp
      {
        assert !LaterHit(results[j], results[i]);
      }
    }
  }

  /**
   * search_entries after the tasks and meetings are loaded: the query is
   * lower-cased, every hit is collected and the hits are ordered newest first.
   */
  method SearchEntries(query: string, taskType: string, dateFrom: string, dateTo: string,
                       tasks: seq<Task>, meetings: seq<OneOnOne>) returns (results: seq<SearchResult>)
    ensures var q := ToLower(query); var w := WindowOf(dateFrom, dateTo);
      multiset(results) == multiset(TaskHits(tasks, q, taskType, w) + MeetingHits(meetings, q, w))
    ensures forall i, j | 0 <= i < j < |results| :: results[i].entry.timestamp >= results[j].entry.timestamp
  {
    var q := ToLower(query);
    var w := WindowOf(dateFrom, dateTo);
    var taskHits := CollectTaskHits(tasks, q, taskType, w);
    var meetingHits := CollectMeetingHits(meetings, q, w);
    var hits := taskHits + meetingHits;
    LaterHitOrder([]);
    results := SortedCopy(hits, LaterHit);
    LaterHitOrder(results);
  }

  /** The window of `content` shown around a hit at `pos`: 50 characters before, 100 after. */
  function HitWindow(content: string, query: string, pos: nat): (ab: (nat, nat))
    requires pos + |query| <= |content|
    ensures ab.0 <= pos && pos + |query| <= ab.1 <= |content|
    ensures ab.1 - ab.0 <= |query| + 150
  {
    (Max(0, pos - 50), Min(|content|, pos + |query| + 100))
  }

  /**
   * The text shown for a result: short content as it is; long content cut to
   * the window around the first (case-insensitive) hit, or to its first 200
   * characters when the query occurs only in the title.
   */
  function Snippet(content: string, query: string): (s: string)
    ensures |content| <= 200 ==> s == content
    ensures |content| > 200 ==> HasSuffix(s, "...") && |s| <= |query| + 206
  {
    if |content| <= 200 then content
    else
      var pos := IndexOf(ToLower(content), query);
      if pos >= 0 then
        var ab := HitWindow(content, query, pos);
        "..." + content[ab.0..ab.1] + "..."
      else
        var cut := content[..200] + "...";
        assert cut[|cut| - 3..] == "...";
        cut
  }

  lemma ToLowerSlice(s: string, a: nat, b: nat)
    requires a <= b <= |s|
    ensures ToLower(s[a..b]) == ToLower(s)[a..b]
  {
  }

  /** The snippet of long content holds the first hit of the query. */
  lemma SnippetShowsFirstHit(content: string, query: string)
    requires |content| > 200 && Contains(ToLower(content), query)
    ensures var pos := IndexOf(ToLower(content), query);
      var ab := HitWindow(content, query, pos);
      Snippet(content, query) == "..." + content[ab.0..ab.1] + "..."
      && OccursAt(ToLower(content[ab.0..ab.1]), query, pos - ab.0)
  {
    var pos := IndexOf(ToLower(content), query);
    var ab := HitWindow(content, query, pos);
    WindowHoldsHit(content, query, pos, ab.0, ab.1);
  }

  /** A window of the content around a hit still holds that hit, shifted by the window's start. */
  lemma WindowHoldsHit(content: string, query: string, pos: nat, a: nat, b: nat)
    requires OccursAt(ToLower(content), query, pos)
    requires a <= pos && pos + |query| <= b <= |content|
    ensures OccursAt(ToLower(content[a..b]), query, pos - a)
  {
    ToLowerSlice(content, a, b);
    SliceOfSlice(ToLower(content), a, b, pos, pos + |query|);
  }

  lemma SliceOfSlice(s: string, a: nat, b: nat, c: nat, d: nat)
    requires a <= c <= d <= b <= |s|
    ensures s[a..b][c - a..d - a] == s[c..d]
  {
    var inner := s[a..b][c - a..d - a];
    assert forall k | 0 <= k < d - c :: inner[k] == s[c..d][k];
  }

  /** Long content with no hit is cut to its first 200 characters. */
  lemma SnippetWithoutHit(content: string, query: string)
    requires |content| > 200 && !Contains(ToLower(content), query)
    ensures Snippet(content, query) == content[..200] + "..."
  {
  }
}
