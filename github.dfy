/**
 * The GitHub side of the journal: reading an issue URL, turning an issue
 * into a task, reconciling an existing task with its issue, and appending
 * the issue's comments and events to the task's log. The issues, comments
 * and events are inputs here; fetching them is outside the model.
 */
module GitHub {
  import opened Wrappers
  import opened Text
  import opened Dates
  import opened Records
  import opened Sorting

  /** The fields of a GitHub issue the journal reads; `repo` is None when the issue carries no repository. */
  datatype Issue = Issue(
    number: int,
    title: string,
    state: string,
    body: string,
    htmlUrl: string,
    labels: seq<string>,
    repo: Option<string>)

  datatype Comment = Comment(author: string, body: string, createdAt: nat)

  datatype Event = Event(event: string, actor: string, createdAt: nat)

  /** What parseGitHubURL returns: owner, repository and issue number. */
  datatype IssueRef = IssueRef(owner: string, repo: string, number: int)

  datatype UrlError = InvalidFormat | InvalidNumber

  /**
   * parseGitHubURL: a URL of at least seven `/`-separated pieces containing
   * "github.com"; owner and repository are pieces 3 and 4, the number is
   * piece 6 read by Atoi.
   */
  function ParseGitHubUrl(url: string): (r: Result<IssueRef, UrlError>)
    ensures r == Failure(InvalidFormat) <==> |Split(url, '/')| < 7 || !Contains(url, "github.com")
    ensures r == Failure(InvalidNumber) <==>
      |Split(url, '/')| >= 7 && Contains(url, "github.com") && Atoi(Split(url, '/')[6]).None?
    ensures r.Success? ==> Atoi(Split(url, '/')[6]) == Some(r.value.number)
  {
    var parts := Split(url, '/');
    if |parts| < 7 || !Contains(url, "github.com") then Failure(InvalidFormat)
    else match Atoi(parts[6])
      case None => Failure(InvalidNumber)
      case Some(n) => Success(IssueRef(parts[3], parts[4], n))
  }

  /** The address of issue `n` of `owner/repo`: https://github.com/owner/repo/issues/n. */
  function IssueUrl(owner: string, repo: string, n: nat): string {
    Join(["https:", "", "github.com", owner, repo, "issues", Itoa(n)], "/")
  }

  lemma DigitsFree(s: string, c: char)
    requires AllDigits(s) && !IsDigit(c)
    ensures Free(s, c)
  {
  }

  lemma IssueUrlHost(owner: string, repo: string, n: nat)
    ensures Contains(IssueUrl(owner, repo, n), "github.com")
  {
    var p0 := ["https:", "", "github.com", owner, repo, "issues", Itoa(n)];
    var p2 := ["github.com", owner, repo, "issues", Itoa(n)];
    assert p0[1..][1..] == p2;
    var rest := Join(p2, "/");
    assert Join(p0[1..], "/") == "" + "/" + rest;
    var url := IssueUrl(owner, repo, n);
    assert url == "https:" + "/" + ("" + "/" + rest);
    assert p2[1..] == [owner, repo, "issues", Itoa(n)];
    assert rest == "github.com" + "/" + Join(p2[1..], "/");
    assert url[8..18] == rest[..10] == "github.com";
    assert OccursAt(url, "github.com", 8);
  }

  /** Every issue address reads back as its owner, repository and number. */
  lemma IssueUrlRoundTrip(owner: string, repo: string, n: nat)
    requires Free(owner, '/') && Free(repo, '/') && n <= MaxInt64
    ensures ParseGitHubUrl(IssueUrl(owner, repo, n)) == Success(IssueRef(owner, repo, n))
  {
    var parts := ["https:", "", "github.com", owner, repo, "issues", Itoa(n)];
    DigitsFree(Itoa(n), '/');
    assert Free("https:", '/') && Free("github.com", '/') && Free("issues", '/');
    JoinSplit(parts, '/');
    IssueUrlHost(owner, repo, n);
    AtoiItoa(n);
    ParsedPieces(IssueUrl(owner, repo, n), n);
  }

  lemma ParsedPieces(url: string, n: int)
    requires |Split(url, '/')| >= 7 && Contains(url, "github.com") && Atoi(Split(url, '/')[6]) == Some(n)
    ensures ParseGitHubUrl(url) == Success(IssueRef(Split(url, '/')[3], Split(url, '/')[4], n))
  {
  }

  /** mapGitHubStateToTaskStatus: closed issues are completed tasks, every other state is active. */
  function MapState(state: string): (status: string)
    ensures status in Statuses
    ensures status == "completed" <==> state == "closed"
    ensures status == "active" <==> state != "closed"
  {
    if state == "open" then "active"
    else if state == "closed" then "completed"
    else "active"
  }

  /** The priority a label asks for, compared case-insensitively, if any. */
  function LabelPriority(name: string): Option<string> {
    var l := ToLower(name);
    if l == "priority/high" || l == "high" || l == "critical" then Some("high")
    else if l == "priority/low" || l == "low" then Some("low")
    else if l == "priority/urgent" || l == "urgent" then Some("urgent")
    else None
  }

  /** The priority of a label list: that of its last priority label, "medium" without one. */
  function PriorityOf(labels: seq<string>): string {
    if labels == [] then "medium"
    else match LabelPriority(labels[|labels| - 1])
      case Some(p) => p
      case None => PriorityOf(labels[..|labels| - 1])
  }

  /** The label loop of createTaskFromGitHubIssue, each matching label overwriting the priority. */
  method PriorityFromLabels(labels: seq<string>) returns (priority: string)
    ensures priority == PriorityOf(labels)
  {
    priority := "medium";
    var i := 0;
    while i < |labels|
      invariant 0 <= i <= |labels|
      invariant priority == PriorityOf(labels[..i])
    {
      assert labels[..i + 1][..i] == labels[..i];
      var l := ToLower(labels[i]);
      if l == "priority/high" || l == "high" || l == "critical" {
        priority := "high";
      } else if l == "priority/low" || l == "low" {
        priority := "low";
      } else if l == "priority/urgent" || l == "urgent" {
        priority := "urgent";
      }
      i := i + 1;
    }
    assert labels[..i] == labels;
  }

  /**
   * The last priority label wins: the priority is that of the label at `i`
   * when no later label asks for one, and "medium" when no label does.
   */
  lemma {:induction false} LastPriorityLabelWins(labels: seq<string>, i: nat)
    requires i < |labels| && LabelPriority(labels[i]).Some?
    requires forall j | i < j < |labels| :: LabelPriority(labels[j]).None?
    ensures PriorityOf(labels) == LabelPriority(labels[i]).value
  {
    if i < |labels| - 1 {
      var init := labels[..|labels| - 1];
      assert init[i] == labels[i];
      LastPriorityLabelWins(init, i);
    }
  }

  lemma {:induction false} NoPriorityLabel(labels: seq<string>)
    requires forall j | 0 <= j < |labels| :: LabelPriority(labels[j]).None?
    ensures PriorityOf(labels) == "medium"
  {
    if labels != [] {
      var init := labels[..|labels| - 1];
      assert forall j | 0 <= j < |init| :: init[j] == labels[j];
      NoPriorityLabel(init);
    }
  }

  /** The priority is always one of the four levels. */
  lemma {:induction false} PriorityLevels(labels: seq<string>)
    ensures PriorityOf(labels) in ["medium", "high", "low", "urgent"]
  {
    if labels != [] {
      PriorityLevels(labels[..|labels| - 1]);
    }
  }

  /** generateTaskIDFromIssue */
  function TaskIdOf(issue: Issue): string {
    match issue.repo
    case Some(name) => "GH-" + name + "-" + Itoa(issue.number)
    case None => "GH-issue-" + Itoa(issue.number)
  }

  lemma ItoaInjective(m: int, n: int)
    requires MinInt64 <= m <= MaxInt64 && MinInt64 <= n <= MaxInt64
    requires Itoa(m) == Itoa(n)
    ensures m == n
  {
    AtoiItoa(m);
    AtoiItoa(n);
  }

  /** Two issues of one repository (or both without one) get the same task id only if they have the same number. */
  lemma TaskIdDistinguishesNumbers(a: Issue, b: Issue)
    requires a.repo == b.repo && a.number != b.number
    requires MinInt64 <= a.number <= MaxInt64 && MinInt64 <= b.number <= MaxInt64
    ensures TaskIdOf(a) != TaskIdOf(b)
  {
    var prefix := match a.repo case Some(name) => "GH-" + name + "-" case None => "GH-issue-";
    assert TaskIdOf(a) == prefix + Itoa(a.number) && TaskIdOf(b) == prefix + Itoa(b.number);
    if TaskIdOf(a) == TaskIdOf(b) {
      assert Itoa(a.number) == TaskIdOf(a)[|prefix|..] == TaskIdOf(b)[|prefix|..] == Itoa(b.number);
      ItoaInjective(a.number, b.number);
    }
  }

  /** The entry recording the issue description. */
  function DescriptionEntry(entryId: string, now: nat, body: string): Entry {
    Entry(entryId, now, "GitHub Issue Description: " + body, "github_description")
  }

  /** The task createTaskFromGitHubIssue builds from an issue. */
  function IssueTask(issue: Issue, now: nat, entryId: string): Task {
    Task(TaskIdOf(issue), issue.title, "work", issue.labels, MapState(issue.state), PriorityOf(issue.labels),
         issue.htmlUrl, Itoa(issue.number), now, now,
         if issue.body != "" then [DescriptionEntry(entryId, now, issue.body)] else [])
  }

  /** A task built from an issue already agrees with it, and its issue id reads back as the number. */
  lemma IssueTaskAgrees(issue: Issue, now: nat, entryId: string)
    ensures !Differs(IssueTask(issue, now, entryId), issue)
    ensures MinInt64 <= issue.number <= MaxInt64 ==> Atoi(IssueTask(issue, now, entryId).issueId) == Some(issue.number)
  {
    if MinInt64 <= issue.number <= MaxInt64 {
      AtoiItoa(issue.number);
    }
  }

  /**
   * createTaskFromGitHubIssue: a "work" task named after the issue, tagged
   * with its labels, with the mapped status, the label priority, the issue
   * number as issue id, and one description entry when the issue has a body.
   */
  method TaskFromIssue(issue: Issue, now: nat, entryId: string) returns (task: Task)
    ensures task.id == TaskIdOf(issue) && task.title == issue.title && task.kind == "work"
    ensures task.tags == issue.labels && task.status == MapState(issue.state) && task.status in Statuses
    ensures task.priority == PriorityOf(issue.labels) && task.issueUrl == issue.htmlUrl
    ensures task.issueId == Itoa(issue.number)
    ensures MinInt64 <= issue.number <= MaxInt64 ==> Atoi(task.issueId) == Some(issue.number)
    ensures task.created == now && task.updated == now
    ensures task.entries == if issue.body != "" then [DescriptionEntry(entryId, now, issue.body)] else []
    ensures task == IssueTask(issue, now, entryId)
  {
    var labels := [];
    var i := 0;
    while i < |issue.labels|
      invariant 0 <= i <= |issue.labels|
      invariant labels == issue.labels[..i]
    {
      labels := labels + [issue.labels[i]];
      i := i + 1;
    }
    assert issue.labels[..i] == issue.labels;
    var priority := PriorityFromLabels(labels);
    task := Task(TaskIdOf(issue), issue.title, "work", labels, MapState(issue.state), priority,
                 issue.htmlUrl, Itoa(issue.number), now, now, []);
    if issue.body != "" {
      task := task.(entries := task.entries + [DescriptionEntry(entryId, now, issue.body)]);
    }
    if MinInt64 <= issue.number <= MaxInt64 {
      AtoiItoa(issue.number);
    }
  }

  /** equalStringSlices: sort copies of both and compare them; true exactly for equal multisets. */
  method EqualStringSlices(a: seq<string>, b: seq<string>) returns (eq: bool)
    ensures eq <==> multiset(a) == multiset(b)
  {
    if |a| != |b| {
      assert |multiset(a)| != |multiset(b)|;
      return false;
    }
    StrLessOrder();
    var sortedA := SortedCopy(a, StrLess);
    var sortedB := SortedCopy(b, StrLess);
    var i := 0;
    assert |sortedA| == |multiset(a)| == |a| && |sortedB| == |multiset(b)| == |b|;
    while i < |sortedA|
      invariant 0 <= i <= |sortedA|
      invariant sortedA[..i] == sortedB[..i]
    {
      if sortedA[i] != sortedB[i] {
        if multiset(a) == multiset(b) {
          SortedUnique(sortedA, sortedB, StrLess);
        }
        return false;
      }
      assert sortedA[..i + 1] == sortedA[..i] + [sortedA[i]];
      assert sortedB[..i + 1] == sortedB[..i] + [sortedB[i]];
      i := i + 1;
    }
    assert sortedA == sortedA[..i] && sortedB == sortedB[..i];
    return true;
  }

  /** The issue differs from the task in status, title or tag multiset. */
  predicate Differs(task: Task, issue: Issue) {
    task.status != MapState(issue.state) || task.title != issue.title
    || multiset(task.tags) != multiset(issue.labels)
  }

  function StatusEntry(entryId: string, now: nat, status: string): Entry {
    Entry(entryId, now, "Status updated from GitHub: " + status, "status_change")
  }

  /** The task updateTaskFromGitHubIssue leaves behind. */
  function Reconciled(task: Task, issue: Issue, now: nat, entryId: string): Task {
    var status := MapState(issue.state);
    task.(status := status, title := issue.title,
          tags := if multiset(task.tags) == multiset(issue.labels) then task.tags else issue.labels,
          entries := task.entries + (if task.status != status then [StatusEntry(entryId, now, status)] else []),
          updated := if Differs(task, issue) then now else task.updated)
  }

  /**
   * A reconciled task agrees with its issue, keeps its id and its log, and is
   * the task itself when nothing differed.
   */
  lemma ReconciledAgrees(task: Task, issue: Issue, now: nat, entryId: string)
    ensures !Differs(Reconciled(task, issue, now, entryId), issue)
    ensures Reconciled(task, issue, now, entryId).id == task.id
    ensures task.entries <= Reconciled(task, issue, now, entryId).entries
    ensures !Differs(task, issue) ==> Reconciled(task, issue, now, entryId) == task
  {
  }

  /**
   * updateTaskFromGitHubIssue: copy the issue's status, title and labels onto
   * the task. The task is touched exactly when something differed, the log
   * gets one entry exactly when the status changed, tags are replaced only
   * when they differ as a multiset, and afterwards the task agrees with the
   * issue.
   */
  method ReconcileTask(task: Task, issue: Issue, now: nat, entryId: string) returns (updated: bool, result: Task)
    ensures updated <==> Differs(task, issue)
    ensures !Differs(result, issue)
    ensures result.status == MapState(issue.state) && result.title == issue.title
    ensures result.tags == if multiset(task.tags) == multiset(issue.labels) then task.tags else issue.labels
    ensures result.entries == task.entries
      + (if task.status != MapState(issue.state) then [StatusEntry(entryId, now, MapState(issue.state))] else [])
    ensures result.updated == if updated then now else task.updated
    ensures result == task.(status := result.status, title := result.title, tags := result.tags,
                            entries := result.entries, updated := result.updated)
    ensures result == Reconciled(task, issue, now, entryId)
  {
    updated := false;
    result := task;
    var newStatus := MapState(issue.state);
    if result.status != newStatus {
      result := result.(status := newStatus, updated := now,
                        entries := result.entries + [StatusEntry(entryId, now, newStatus)]);
      updated := true;
    }
    if result.title != issue.title {
      result := result.(title := issue.title, updated := now);
      updated := true;
    }
    var same := EqualStringSlices(result.tags, issue.labels);
    if !same {
      result := result.(tags := issue.labels, updated := now);
      updated := true;
    }
  }

  function CommentEntry(entryId: string, c: Comment): Entry {
    Entry(entryId, c.createdAt, "GitHub comment by " + c.author + ": " + c.body, "github_comment")
  }

  function EventEntry(entryId: string, e: Event): Entry {
    Entry(entryId, e.createdAt, "GitHub event: " + e.event + " by " + e.actor, "github_event")
  }

  /** The entries the comments become; `entryId(k)` names the k-th. */
  function CommentEntries(comments: seq<Comment>, entryId: nat -> string): seq<Entry> {
    seq(|comments|, k requires 0 <= k < |comments| => CommentEntry(entryId(k), comments[k]))
  }

  /** The entries the events become, numbered after `offset` comment entries. */
  function EventEntries(events: seq<Event>, offset: nat, entryId: nat -> string): seq<Entry> {
    seq(|events|, k requires 0 <= k < |events| => EventEntry(entryId(offset + k), events[k]))
  }

  /** The task with the comments' and then the events' entries appended, updated when any were. */
  function WithActivity(task: Task, comments: seq<Comment>, events: seq<Event>, now: nat, entryId: nat -> string): Task {
    task.(entries := task.entries + CommentEntries(comments, entryId) + EventEntries(events, |comments|, entryId),
          updated := if |comments| + |events| > 0 then now else task.updated)
  }

  /**
   * Appending activity only adds entries: the old log is a prefix, one entry
   * is added per comment and per event, the i-th comment's entry carries its
   * author, body and time, and nothing but the log and the updated time changes.
   */
  lemma WithActivityExtends(task: Task, comments: seq<Comment>, events: seq<Event>, now: nat,
                            entryId: nat -> string, i: nat)
    ensures var after := WithActivity(task, comments, events, now, entryId);
      |after.entries| == |task.entries| + |comments| + |events|
      && after.entries[..|task.entries|] == task.entries
      && after == task.(entries := after.entries, updated := after.updated)
      && (i < |comments| ==> after.entries[|task.entries| + i] == CommentEntry(entryId(i), comments[i]))
  {
    var after := WithActivity(task, comments, events, now, entryId);
    assert after.entries[..|task.entries|] == task.entries;
    if i < |comments| {
      assert after.entries[|task.entries| + i] == CommentEntries(comments, entryId)[i];
    }
  }

  /**
   * The append step of PullIssueUpdates for one task: one entry per comment,
   * then one per event, in order; `entryId(k)` is the k-th generated id.
   * The task is marked updated only when something was added.
   */
  method AppendActivity(task: Task, comments: seq<Comment>, events: seq<Event>, now: nat, entryId: nat -> string)
    returns (result: Task, added: nat)
    ensures added == |comments| + |events|
    ensures result.entries == task.entries
      + seq(|comments|, k requires 0 <= k < |comments| => CommentEntry(entryId(k), comments[k]))
      + seq(|events|, k requires 0 <= k < |events| => EventEntry(entryId(|comments| + k), events[k]))
    ensures result.updated == if added > 0 then now else task.updated
    ensures result == task.(entries := result.entries, updated := result.updated)
    ensures result == WithActivity(task, comments, events, now, entryId)
  {
    result := task;
    added := 0;
    var i := 0;
    while i < |comments|
      invariant 0 <= i <= |comments| && added == i
      invariant result == task.(entries := result.entries)
      invariant result.entries == task.entries
        + seq(i, k requires 0 <= k < i => CommentEntry(entryId(k), comments[k]))
    {
      result := result.(entries := result.entries + [CommentEntry(entryId(added), comments[i])]);
      added := added + 1;
      i := i + 1;
    }
    var before := result.entries;
    var j := 0;
    while j < |events|
      invariant 0 <= j <= |events| && added == |comments| + j
      invariant result == task.(entries := result.entries)
      invariant result.entries == before
        + seq(j, k requires 0 <= k < j => EventEntry(entryId(|comments| + k), events[k]))
    {
      result := result.(entries := result.entries + [EventEntry(entryId(added), events[j])]);
      added := added + 1;
      j := j + 1;
    }
    if added > 0 {
      result := result.(updated := now);
    }
  }
}
