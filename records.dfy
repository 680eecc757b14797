/**
 * The journal's records (tasks, their timestamped entries, one-on-one meeting
 * notes) and the small rules every handler shares: the allowed statuses and
 * types, the issue id taken from an issue URL, and a freshly created task.
 */
module Records {
  import opened Wrappers
  import opened Text
  import opened Dates

  /** One timestamped line of a task's log; `kind` is Go's `Type` field. */
  datatype Entry = Entry(id: string, timestamp: nat, content: string, kind: string)

  datatype Task = Task(
    id: string,
    title: string,
    kind: string,
    tags: seq<string>,
    status: string,
    priority: string,
    issueUrl: string,
    issueId: string,
    created: nat,
    updated: nat,
    entries: seq<Entry>)

  /** Notes of one meeting; `date` is free text, meant to be "2006-01-02". */
  datatype OneOnOne = OneOnOne(
    date: string,
    insights: seq<string>,
    todos: seq<string>,
    feedback: seq<string>,
    notes: string,
    created: nat)

  const Statuses: seq<string> := ["active", "completed", "paused", "blocked"]

  const TaskTypes: seq<string> := ["work", "learning", "personal", "investigation"]

  /** The membership loop the handlers run over a fixed list of allowed values. */
  method IsOneOf(x: string, options: seq<string>) returns (found: bool)
    ensures found <==> x in options
  {
    found := false;
    var i := 0;
    while i < |options|
      invariant 0 <= i <= |options|
      invariant !found && x !in options[..i]
    {
      if options[i] == x {
        found := true;
        return;
      }
      assert options[..i + 1] == options[..i] + [options[i]];
      i := i + 1;
    }
    assert options[..i] == options;
  }

  /** A `/`-separated piece of a Jira URL that looks like a ticket key. */
  predicate IsIssueKey(part: string) {
    Contains(part, "-") && |part| > 3
  }

  /** The first piece that looks like a ticket key, if any. */
  function FirstIssueKey(parts: seq<string>): (key: Option<string>)
    ensures key.None? <==> forall i | 0 <= i < |parts| :: !IsIssueKey(parts[i])
    ensures key.Some? ==> exists i | 0 <= i < |parts| ::
      parts[i] == key.value && IsIssueKey(parts[i]) && forall j | 0 <= j < i :: !IsIssueKey(parts[j])
  {
    if parts == [] then None
    else if IsIssueKey(parts[0]) then Some(parts[0])
    else
      var rest := FirstIssueKey(parts[1..]);
      assert forall i | 1 <= i < |parts| :: parts[i] == parts[1..][i - 1];
      if rest.Some? then
        var k :| 0 <= k < |parts[1..]| && parts[1..][k] == rest.value && IsIssueKey(parts[1..][k])
          && forall j | 0 <= j < k :: !IsIssueKey(parts[1..][j]);
        assert parts[k + 1] == rest.value && forall j | 0 <= j < k + 1 :: !IsIssueKey(parts[j]);
        rest
      else rest
  }

  /** The search loop for a ticket key, stopping at the first one. */
  method FindIssueKey(parts: seq<string>) returns (key: Option<string>)
    ensures key == FirstIssueKey(parts)
  {
    key := None;
    var i := 0;
    while i < |parts|
      invariant 0 <= i <= |parts|
      invariant FirstIssueKey(parts) == FirstIssueKey(parts[i..])
    {
      if IsIssueKey(parts[i]) {
        key := Some(parts[i]);
        return;
      }
      assert parts[i..][1..] == parts[i + 1..];
      i := i + 1;
    }
  }

  /**
   * The issue id recorded for an issue URL: after the last `/` of a GitHub
   * URL, the first ticket-like piece of a Jira URL, otherwise none.
   */
  function IssueIdOf(url: string): string {
    if Contains(url, "github.com") then
      var parts := Split(url, '/');
      if |parts| >= 2 then parts[|parts| - 1] else ""
    else if Contains(url, "jira") || Contains(url, "atlassian") then
      FirstIssueKey(Split(url, '/')).GetOr("")
    else ""
  }

  lemma {:induction false} CountCharPositive(s: string, c: char)
    ensures CountChar(s, c) > 0 <==> !Free(s, c)
  {
    if s != [] {
      CountCharPositive(s[1..], c);
      if s[0] != c && !Free(s[1..], c) {
        var i :| 0 <= i < |s[1..]| && s[1..][i] == c;
        assert s[i + 1] == c;
      }
    }
  }

  /**
   * A GitHub URL with a `/` gets the text after its last `/` as issue id;
   * one without gets none.
   */
  lemma GitHubIssueId(url: string)
    requires Contains(url, "github.com")
    ensures Free(url, '/') ==> IssueIdOf(url) == ""
    ensures !Free(url, '/') ==> exists k | 0 <= k < |url| ::
      url[k] == '/' && Free(url[k + 1..], '/') && IssueIdOf(url) == url[k + 1..]
  {
    CountCharPositive(url, '/');
    var k := SplitLastPiece(url, '/');
    if !Free(url, '/') {
      assert url[k - 1] == '/' && url[k..] == url[k - 1 + 1..];
    }
  }

  /** The entry every new task starts with. */
  function CreationEntry(entryId: string, now: nat, title: string): Entry {
    Entry(entryId, now, "Task created: " + title, "creation")
  }

  /**
   * The task that create_task saves: active, optional fields only when given,
   * the issue id taken from the issue URL, and one creation entry.
   */
  method NewTask(id: string, title: string, kind: string, tags: seq<string>, priority: string,
                 issueUrl: string, now: nat, entryId: string) returns (task: Task)
    ensures task.id == id && task.title == title && task.kind == kind && task.tags == tags
    ensures task.status == "active" && task.priority == priority
    ensures task.issueUrl == issueUrl && task.issueId == IssueIdOf(issueUrl)
    ensures task.created == now && task.updated == now
    ensures task.entries == [CreationEntry(entryId, now, title)]
  {
    task := Task(id, title, kind, tags, "active", "", "", "", now, now, []);
    if priority != "" {
      task := task.(priority := priority);
    }
    if issueUrl != "" {
      task := task.(issueUrl := issueUrl);
      if Contains(issueUrl, "github.com") {
        var parts := Split(issueUrl, '/');
        if |parts| >= 2 {
          task := task.(issueId := parts[|parts| - 1]);
        }
      } else if Contains(issueUrl, "jira") || Contains(issueUrl, "atlassian") {
        var key := FindIssueKey(Split(issueUrl, '/'));
        if key.Some? {
          task := task.(issueId := key.value);
        }
      }
    } else {
      assert !Contains(issueUrl, "github.com") && !Contains(issueUrl, "jira") && !Contains(issueUrl, "atlassian");
    }
    task := task.(entries := task.entries + [CreationEntry(entryId, now, title)]);
  }

  /** The entries of `entries` whose UTC calendar day prints as `date`, in order. */
  function EntriesOn(entries: seq<Entry>, date: string): (r: seq<Entry>)
    ensures |r| <= |entries|
  {
    if entries == [] then [] else DayPiece(entries[0], date) + EntriesOn(entries[1..], date)
  }

  /** The entry itself when it falls on the day printed as `date`, else nothing. */
  function DayPiece(e: Entry, date: string): seq<Entry> {
    if DateKey(e.timestamp) == date then [e] else []
  }

  /** An entry is listed for a day exactly when it is one of the entries and falls on that day. */
  lemma {:induction false} EntriesOnMembers(entries: seq<Entry>, date: string, e: Entry)
    ensures e in EntriesOn(entries, date) <==> e in entries && DateKey(e.timestamp) == date
  {
    if entries != [] {
      EntriesOnMembers(entries[1..], date, e);
      assert entries == [entries[0]] + entries[1..];
    }
  }
}
