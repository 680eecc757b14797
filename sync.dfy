/**
 * The GitHub handlers that write tasks: sync_with_github creates a task per
 * new assigned issue and reconciles existing ones, and pull_issue_updates
 * appends an issue's comments and events to its task. The fetched issues
 * and activity are parameters: what the network returned, or None when the
 * request failed.
 */
module Sync {
  import opened Wrappers
  import opened Text
  import opened Dates
  import opened Records
  import opened Store
  import opened GitHub

  datatype SyncError =
    | TokenRequired
    | UsernameRequired
    | FetchFailed
    | InvalidSince
    | TaskNotFound(id: string)
    | NoIssue
    | ListFailed
    | IssueUrlRequired
    | InvalidUrl(reason: UrlError)
    | SaveFailed(id: string)

  /** The counters sync_with_github reports; every error message counts once. */
  datatype SyncResult = SyncResult(processed: nat, created: nat, updated: nat, errors: nat)

  /** The counters pull_issue_updates reports. */
  datatype PullResult = PullResult(updated: nat, total: nat, errors: nat)

  /** The comments and events fetched for one issue. */
  datatype Activity = Activity(comments: seq<Comment>, events: seq<Event>)

  /** What one issue of a sync did to the store. */
  datatype SyncOutcome = Created | Updated | Unchanged | Failed

  /** What pulling one task's activity did to the store. */
  datatype PullOutcome = Saved | NoActivity | PullFailed

  /** A yes/no argument that defaults to "true": only the text "true" means yes. */
  function Flag(arg: Option<string>): bool {
    arg.GetOr("true") == "true"
  }

  /** One of the first `n` issues maps to task id `id` (IssuedBeforeIff). */
  predicate IssuedBefore(issues: seq<Issue>, n: nat, id: string)
    requires n <= |issues|
  {
    n > 0 && (TaskIdOf(issues[n - 1]) == id || IssuedBefore(issues, n - 1, id))
  }

  /** IssuedBefore holds exactly when some issue among the first `n` maps to `id`. */
  lemma IssuedBeforeIff(issues: seq<Issue>, n: nat, id: string)
    requires n <= |issues|
    ensures IssuedBefore(issues, n, id) <==> exists j | 0 <= j < n :: TaskIdOf(issues[j]) == id
  {
    if IssuedBefore(issues, n, id) {
      var j := IssuedAt(issues, n, id);
    }
    if exists j | 0 <= j < n :: TaskIdOf(issues[j]) == id {
      var j :| 0 <= j < n && TaskIdOf(issues[j]) == id;
      IssuedBeforeOf(issues, n, id, j);
    }
  }

  /** The position of the last issue among the first `n` that maps to `id`. */
  lemma {:induction false} IssuedAt(issues: seq<Issue>, n: nat, id: string) returns (j: nat)
    requires n <= |issues| && IssuedBefore(issues, n, id)
    ensures j < n && TaskIdOf(issues[j]) == id
  {
    if TaskIdOf(issues[n - 1]) == id {
      j := n - 1;
    } else {
      j := IssuedAt(issues, n - 1, id);
    }
  }

  /** An issue among the first `n` that maps to `id` makes `id` issued. */
  lemma {:induction false} IssuedBeforeOf(issues: seq<Issue>, n: nat, id: string, j: nat)
    requires j < n <= |issues| && TaskIdOf(issues[j]) == id
    ensures IssuedBefore(issues, n, id)
  {
    if j < n - 1 {
      IssuedBeforeOf(issues, n - 1, id, j);
    }
  }

  /**
   * The layout "2006-01-02T15:04:05Z" with a literal `Z`: a date, `T`, a
   * time of day, optional fraction digits (dropped), then `Z`.
   */
  function ParseSince(s: string): (r: Option<nat>)
    ensures r.Some? ==> |s| >= 20 && ParseDate(s[..10]).Some? && s[|s| - 1] == 'Z'
  {
    if |s| < 20 then None
    else
      var local := ParseLocal(s[..19]);
      var rest := s[19 + FractionLength(s[19..])..];
      assert local.Some? ==> s[..19][..10] == s[..10];
      if local.None? || rest != "Z" then None else local
  }

  /** A since time is an RFC 3339 time in UTC, read as the same instant. */
  lemma SinceIsRfc3339(s: string)
    requires ParseSince(s).Some?
    ensures ParseRFC3339(s) == ParseSince(s)
  {
  }

  /** The UTC text of every instant of a four-digit year is a valid since time for it. */
  lemma SinceOfFormat(ts: nat)
    requires DateOf(ts).year < 10000
    ensures ParseSince(FormatRFC3339(ts)) == Some(ts)
  {
    var s := FormatRFC3339(ts);
    var d, secs := DateOf(ts), ts % SecondsPerDay;
    InstantParts(ts);
    UtcTextShape(d, secs);
    ParseLocalText(d, secs / 3600, secs / 60 % 60, secs % 60, ts);
    assert s[19..] == "Z";
    assert FractionLength(s[19..]) == 0;
  }

  /** A task pull_issue_updates visits when no task is named: one with a GitHub issue URL. */
  predicate TracksGitHub(t: Task) {
    t.issueUrl != "" && Contains(t.issueUrl, "github.com")
  }

  function GitHubTasks(tasks: seq<Task>): seq<Task> {
    if tasks == [] then []
    else
      var first := if TracksGitHub(tasks[0]) then [tasks[0]] else [];
      first + GitHubTasks(tasks[1..])
  }

  lemma {:induction false} GitHubTasksSnoc(tasks: seq<Task>, t: Task)
    ensures GitHubTasks(tasks + [t]) == GitHubTasks(tasks) + (if TracksGitHub(t) then [t] else [])
  {
    if tasks != [] {
      GitHubTasksSnoc(tasks[1..], t);
      assert (tasks + [t])[1..] == tasks[1..] + [t];
    }
  }

  /** Exactly the loaded tasks with a GitHub issue URL are visited. */
  lemma {:induction false} GitHubTasksMembers(tasks: seq<Task>, t: Task)
    ensures t in GitHubTasks(tasks) <==> t in tasks && TracksGitHub(t)
  {
    if tasks != [] {
      GitHubTasksMembers(tasks[1..], t);
      assert tasks == [tasks[0]] + tasks[1..];
    }
  }

  /** The filtering loop over the loaded tasks. */
  method SelectGitHubTasks(tasks: seq<Task>) returns (selected: seq<Task>)
    ensures selected == GitHubTasks(tasks)
  {
    selected := [];
    var i := 0;
    while i < |tasks|
      invariant 0 <= i <= |tasks|
      invariant selected == GitHubTasks(tasks[..i])
    {
      assert tasks[..i + 1] == tasks[..i] + [tasks[i]];
      GitHubTasksSnoc(tasks[..i], tasks[i]);
      if tasks[i].issueUrl != "" && Contains(tasks[i].issueUrl, "github.com") {
        selected := selected + [tasks[i]];
      }
      i := i + 1;
    }
    assert tasks[..i] == tasks;
  }

  /** A task whose saved version only gained entries (and a new updated time). */
  predicate Extends(before: Task, after: Task) {
    |before.entries| <= |after.entries| && after.entries[..|before.entries|] == before.entries
    && after == before.(entries := after.entries, updated := after.updated)
  }

  /**
   * One sync_with_github run: the fetched issues, the create_tasks and
   * update_existing switches, the clock, the id of the entry written for
   * the i-th issue, and which task files can be written.
   */
  datatype SyncRun = SyncRun(issues: seq<Issue>, createTasks: bool, updateExisting: bool, now: nat,
                             entryId: nat -> string, writable: string -> bool)

  /** The store and the counters after the first issues of a run. */
  datatype SyncState = SyncState(tasks: TaskStore, created: nat, updated: nat, errors: nat)

  /** What syncing `issue` against `store` does. */
  function SyncOutcomeOf(store: TaskStore, issue: Issue, createTasks: bool, updateExisting: bool,
                         writable: string -> bool): SyncOutcome
  {
    var id := TaskIdOf(issue);
    if id !in store then
      (if !createTasks then Unchanged else if writable(id) then Created else Failed)
    else if !updateExisting || !Differs(store[id], issue) then Unchanged
    else if writable(id) then Updated
    else Failed
  }

  /** The store after syncing `issue`: a created task, a reconciled task, or no change. */
  function SyncedOne(store: TaskStore, issue: Issue, createTasks: bool, updateExisting: bool, now: nat,
                     entryId: string, writable: string -> bool): TaskStore
  {
    var id := TaskIdOf(issue);
    if id !in store then
      (if createTasks && writable(id) then store[id := IssueTask(issue, now, entryId)] else store)
    else if updateExisting && Differs(store[id], issue) && writable(id) then
      store[id := Reconciled(store[id], issue, now, entryId)]
    else store
  }

  /** The store after the first `n` issues, taken in order. */
  function SyncTasks(store: TaskStore, run: SyncRun, n: nat): TaskStore
    requires n <= |run.issues|
  {
    if n == 0 then store
    else SyncedOne(SyncTasks(store, run, n - 1), run.issues[n - 1], run.createTasks, run.updateExisting, run.now,
                   run.entryId(n - 1), run.writable)
  }

  /** The store and the counters after the first `n` issues: each outcome counts once. */
  function SyncUpTo(store: TaskStore, run: SyncRun, n: nat): SyncState
    requires n <= |run.issues|
  {
    if n == 0 then SyncState(store, 0, 0, 0)
    else
      var s := SyncUpTo(store, run, n - 1);
      var outcome := SyncOutcomeOf(SyncTasks(store, run, n - 1), run.issues[n - 1], run.createTasks,
                                   run.updateExisting, run.writable);
      SyncState(SyncTasks(store, run, n),
                s.created + (if outcome == Created then 1 else 0),
                s.updated + (if outcome == Updated then 1 else 0),
                s.errors + (if outcome == Failed then 1 else 0))
  }

  /**
   * One pull_issue_updates run: what visiting a task fetches (None when its
   * issue URL does not parse or the request failed), the clock, entry ids
   * and which task files can be written.
   */
  datatype PullRun = PullRun(visit: Task -> Option<Activity>, now: nat, entryId: nat -> string,
                             writable: string -> bool)

  /** The comments and events fetched for the task's issue, if its URL parses and the fetch succeeded. */
  function IssueActivity(task: Task, since: Option<nat>, fetch: (IssueRef, Option<nat>) -> Option<Activity>):
    Option<Activity>
  {
    match ParseGitHubUrl(task.issueUrl)
    case Failure(_) => None
    case Success(ref) => fetch(ref, since)
  }

  /** The visit of a pull with the given since time and fetch. */
  function Visit(since: Option<nat>, fetch: (IssueRef, Option<nat>) -> Option<Activity>): Task -> Option<Activity> {
    t => IssueActivity(t, since, fetch)
  }

  /** The task's activity was fetched. */
  predicate Fetched(task: Task, run: PullRun) {
    run.visit(task).Some?
  }

  function FetchedActivity(task: Task, run: PullRun): Activity
    requires Fetched(task, run)
  {
    run.visit(task).value
  }

  /** The activity was fetched and is empty: nothing to add. */
  predicate Idle(task: Task, run: PullRun) {
    Fetched(task, run) && |FetchedActivity(task, run).comments| + |FetchedActivity(task, run).events| == 0
  }

  /** Pulling saves the task: activity was fetched, there is some, and the file is writable. */
  predicate Saves(task: Task, run: PullRun) {
    Fetched(task, run) && !Idle(task, run) && run.writable(task.id)
  }

  /** The task with its fetched comments and events appended. */
  function Pulled(task: Task, run: PullRun): Task
    requires Fetched(task, run)
  {
    var activity := FetchedActivity(task, run);
    WithActivity(task, activity.comments, activity.events, run.now, run.entryId)
  }

  /** The store and the counters after pulling the first visited tasks. */
  datatype PullState = PullState(tasks: TaskStore, updated: nat, errors: nat)

  /** The store after the first `n` visited tasks, taken in order. */
  function PullTasks(store: TaskStore, selected: seq<Task>, run: PullRun, n: nat): TaskStore
    requires n <= |selected|
  {
    if n == 0 then store
    else
      var before := PullTasks(store, selected, run, n - 1);
      var t := selected[n - 1];
      if Saves(t, run) then before[t.id := Pulled(t, run)] else before
  }

  /** The store and the counters after the first `n` visited tasks: saves and failures count once each. */
  function PullUpTo(store: TaskStore, selected: seq<Task>, run: PullRun, n: nat): PullState
    requires n <= |selected|
  {
    if n == 0 then PullState(store, 0, 0)
    else
      var s := PullUpTo(store, selected, run, n - 1);
      var t := selected[n - 1];
      PullState(PullTasks(store, selected, run, n),
                s.updated + (if Saves(t, run) then 1 else 0),
                s.errors + (if !Saves(t, run) && !Idle(t, run) then 1 else 0))
  }

  class JournalService {
    var tasks: TaskStore

    ghost predicate Valid()
      reads this
    {
      Keyed(tasks)
    }

    constructor ()
      ensures Valid() && tasks == map[]
    {
      tasks := map[];
    }

    /**
     * One issue of a sync: a task that does not exist is created (when
     * creating is on), one that exists is reconciled and saved only when it
     * changed (when updating is on); a failed write leaves the store alone.
     */
    method SyncIssue(issue: Issue, createTasks: bool, updateExisting: bool, now: nat, entryId: string,
                     writable: string -> bool)
      returns (outcome: SyncOutcome)
      requires Valid()
      modifies this
      ensures Valid()
      ensures outcome == SyncOutcomeOf(old(tasks), issue, createTasks, updateExisting, writable)
      ensures tasks == SyncedOne(old(tasks), issue, createTasks, updateExisting, now, entryId, writable)
    {
      var taskId := TaskIdOf(issue);
      if taskId !in tasks {
        if createTasks {
          var task := TaskFromIssue(issue, now, entryId);
          if !writable(taskId) {
            return Failed;
          }
          tasks := tasks[taskId := task];
          return Created;
        }
        return Unchanged;
      }
      if updateExisting {
        var existing := tasks[taskId];
        var updated, result := ReconcileTask(existing, issue, now, entryId);
        if updated {
          if !writable(taskId) {
            return Failed;
          }
          tasks := tasks[taskId := result];
          return Updated;
        }
      }
      return Unchanged;
    }

    /**
     * sync_with_github: token and username are required and the issues must
     * have been fetched; then every issue in turn goes through SyncIssue,
     * and the counters count the outcomes.
     */
    method SyncWithGitHub(token: string, username: string, createArg: Option<string>, updateArg: Option<string>,
                          fetched: Option<seq<Issue>>, now: nat, entryId: nat -> string, writable: string -> bool)
      returns (r: Result<SyncResult, SyncError>)
      requires Valid()
      modifies this
      ensures Valid()
      ensures token == "" ==> r == Failure(TokenRequired)
      ensures token != "" && username == "" ==> r == Failure(UsernameRequired)
      ensures token != "" && username != "" && fetched.None? ==> r == Failure(FetchFailed)
      ensures r.Success? <==> token != "" && username != "" && fetched.Some?
      ensures r.Failure? ==> tasks == old(tasks)
      ensures r.Success? ==>
        var run := SyncRun(fetched.value, Flag(createArg), Flag(updateArg), now, entryId, writable);
        var s := SyncUpTo(old(tasks), run, |fetched.value|);
        tasks == s.tasks && r.value == SyncResult(|fetched.value|, s.created, s.updated, s.errors)
    {
      if token == "" {
        return Failure(TokenRequired);
      }
      if username == "" {
        return Failure(UsernameRequired);
      }
      if fetched.None? {
        return Failure(FetchFailed);
      }
      var createTasks := createArg.GetOr("true") == "true";
      var updateExisting := updateArg.GetOr("true") == "true";
      var run := SyncRun(fetched.value, createTasks, updateExisting, now, entryId, writable);
      var created, updated, errors := SyncAll(run);
      r := Success(SyncResult(|fetched.value|, created, updated, errors));
    }

    /** The loop over the fetched issues, counting the outcomes. */
    method SyncAll(run: SyncRun) returns (created: nat, updated: nat, errors: nat)
      requires Valid()
      modifies this
      ensures Valid()
      ensures SyncUpTo(old(tasks), run, |run.issues|) == SyncState(tasks, created, updated, errors)
    {
      created, updated, errors := 0, 0, 0;
      var i := 0;
      while i < |run.issues|
        invariant 0 <= i <= |run.issues|
        invariant Valid()
        invariant SyncUpTo(old(tasks), run, i) == SyncState(tasks, created, updated, errors)
      {
        created, updated, errors := SyncNext(old(tasks), run, i, created, updated, errors);
        i := i + 1;
      }
    }

    /** The i-th issue of a run, counted by its outcome. */
    method SyncNext(ghost start: TaskStore, run: SyncRun, i: nat, created: nat, updated: nat, errors: nat)
      returns (created': nat, updated': nat, errors': nat)
      requires Valid() && i < |run.issues|
      requires SyncUpTo(start, run, i) == SyncState(tasks, created, updated, errors)
      modifies this
      ensures Valid()
      ensures SyncUpTo(start, run, i + 1) == SyncState(tasks, created', updated', errors')
    {
      ghost var before := tasks;
      var outcome := SyncIssue(run.issues[i], run.createTasks, run.updateExisting, run.now, run.entryId(i),
                               run.writable);
      SyncUpToStep(start, run, i, before, created, updated, errors, tasks, outcome);
      created' := created + if outcome == Created then 1 else 0;
      updated' := updated + if outcome == Updated then 1 else 0;
      errors' := errors + if outcome == Failed then 1 else 0;
    }

    /**
     * pull_issue_updates: a named task must exist and carry an issue URL;
     * otherwise every loaded task with a GitHub issue URL is visited. The
     * visited tasks go through PullTask in turn. Tasks only ever gain entries.
     */
    method PullIssueUpdates(token: string, taskIdArg: string, sinceArg: string, listing: Option<seq<string>>,
                            fetch: (IssueRef, Option<nat>) -> Option<Activity>, now: nat,
                            entryId: nat -> string, writable: string -> bool)
      returns (r: Result<PullResult, SyncError>)
      requires Valid()
      modifies this
      ensures Valid()
      ensures token == "" ==> r == Failure(TokenRequired)
      ensures token != "" && sinceArg != "" && ParseSince(sinceArg).None? ==> r == Failure(InvalidSince)
      ensures (token != "" && (sinceArg == "" || ParseSince(sinceArg).Some?) && taskIdArg != ""
               && taskIdArg !in old(tasks)) ==> r == Failure(TaskNotFound(taskIdArg))
      ensures (token != "" && (sinceArg == "" || ParseSince(sinceArg).Some?) && taskIdArg != ""
               && taskIdArg in old(tasks) && old(tasks)[taskIdArg].issueUrl == "") ==> r == Failure(NoIssue)
      ensures (token != "" && (sinceArg == "" || ParseSince(sinceArg).Some?) && taskIdArg == ""
               && listing.None?) ==> r == Failure(ListFailed)
      ensures r.Success? <==>
        token != "" && (sinceArg == "" || ParseSince(sinceArg).Some?)
        && (if taskIdArg != "" then taskIdArg in old(tasks) && old(tasks)[taskIdArg].issueUrl != ""
            else listing.Some?)
      ensures r.Success? ==>
        var selected := if taskIdArg != "" then [old(tasks)[taskIdArg]]
                        else GitHubTasks(Loaded(listing.value, old(tasks)));
        var run := PullRun(Visit(if sinceArg == "" then None else ParseSince(sinceArg), fetch), now, entryId, writable);
        var s := PullUpTo(old(tasks), selected, run, |selected|);
        tasks == s.tasks && r.value == PullResult(s.updated, |selected|, s.errors)
      ensures r.Failure? ==> tasks == old(tasks)
      ensures tasks.Keys == old(tasks).Keys
      ensures forall k | k in tasks :: Extends(old(tasks)[k], tasks[k])
    {
      if token == "" {
        return Failure(TokenRequired);
      }
      var since: Option<nat> := None;
      if sinceArg != "" {
        since := ParseSince(sinceArg);
        if since.None? {
          return Failure(InvalidSince);
        }
      }
      var selected: seq<Task>;
      if taskIdArg != "" {
        if taskIdArg !in tasks {
          return Failure(TaskNotFound(taskIdArg));
        }
        var task := tasks[taskIdArg];
        if task.issueUrl == "" {
          return Failure(NoIssue);
        }
        selected := [task];
      } else {
        if listing.None? {
          return Failure(ListFailed);
        }
        var all := LoadAllTasks(tasks, listing.value);
        selected := SelectGitHubTasks(all);
        forall t | t in selected
          ensures t.id in tasks && tasks[t.id] == t
        {
          GitHubTasksMembers(all, t);
          LoadedFromStore(listing.value, tasks, t);
        }
      }
      var run := PullRun(Visit(since, fetch), now, entryId, writable);
      PullTasksExtends(tasks, selected, run, |selected|);
      var updateCount, errors := PullAll(selected, since, fetch, run);
      r := Success(PullResult(updateCount, |selected|, errors));
    }

    /** The loop over the visited tasks, counting saves and errors. */
    method PullAll(selected: seq<Task>, since: Option<nat>, fetch: (IssueRef, Option<nat>) -> Option<Activity>,
                   run: PullRun)
      returns (updateCount: nat, errors: nat)
      requires Valid()
      requires run.visit == Visit(since, fetch)
      modifies this
      ensures Valid()
      ensures PullUpTo(old(tasks), selected, run, |selected|) == PullState(tasks, updateCount, errors)
    {
      updateCount, errors := 0, 0;
      var i := 0;
      while i < |selected|
        invariant 0 <= i <= |selected|
        invariant Valid()
        invariant PullUpTo(old(tasks), selected, run, i) == PullState(tasks, updateCount, errors)
      {
        ghost var before := tasks;
        var outcome := PullTask(selected[i], since, fetch, run);
        updateCount := updateCount + if outcome == Saved then 1 else 0;
        errors := errors + if outcome == PullFailed then 1 else 0;
        PullUpToStep(old(tasks), selected, run, i, before, tasks, outcome);
        i := i + 1;
      }
    }

    /**
     * One visited task: an issue URL that does not parse or a failed fetch
     * is an error; otherwise the activity is appended and the task saved
     * when it gained entries.
     */
    method PullTask(task: Task, since: Option<nat>, fetch: (IssueRef, Option<nat>) -> Option<Activity>, run: PullRun)
      returns (outcome: PullOutcome)
      requires Valid()
      requires run.visit == Visit(since, fetch)
      modifies this
      ensures Valid()
      ensures outcome == Saved <==> Saves(task, run)
      ensures outcome == NoActivity <==> Idle(task, run)
      ensures outcome == Saved ==> tasks == old(tasks)[task.id := Pulled(task, run)]
      ensures outcome != Saved ==> tasks == old(tasks)
    {
      var parsed := ParseGitHubUrl(task.issueUrl);
      if parsed.Failure? {
        return PullFailed;
      }
      var activity := fetch(parsed.value, since);
      assert activity == run.visit(task);
      if activity.None? {
        return PullFailed;
      }
      var result, added := AppendActivity(task, activity.value.comments, activity.value.events, run.now, run.entryId);
      if added > 0 {
        if !run.writable(task.id) {
          return PullFailed;
        }
        tasks := Save(tasks, result);
        return Saved;
      }
      return NoActivity;
    }

    /**
     * create_task_from_github_issue: token and issue URL are required, the
     * URL must parse and the issue must have been fetched; the task built
     * from the issue takes the requested type (default "work") and priority
     * (default "medium") and is written under its id, replacing any task
     * already stored there.
     */
    method CreateTaskFromGitHubIssue(token: string, issueUrl: string, kindArg: Option<string>,
                                     priorityArg: Option<string>, fetchIssue: IssueRef -> Option<Issue>,
                                     now: nat, entryId: string, writable: string -> bool)
      returns (r: Result<Task, SyncError>)
      requires Valid()
      modifies this
      ensures Valid()
      ensures token == "" ==> r == Failure(TokenRequired)
      ensures token != "" && issueUrl == "" ==> r == Failure(IssueUrlRequired)
      ensures token != "" && issueUrl != "" && ParseGitHubUrl(issueUrl).Failure? ==>
        r == Failure(InvalidUrl(ParseGitHubUrl(issueUrl).error))
      ensures (token != "" && issueUrl != "" && ParseGitHubUrl(issueUrl).Success?
        && fetchIssue(ParseGitHubUrl(issueUrl).value).None?) ==> r == Failure(FetchFailed)
      ensures r.Success? <==>
        token != "" && issueUrl != "" && ParseGitHubUrl(issueUrl).Success?
        && fetchIssue(ParseGitHubUrl(issueUrl).value).Some?
        && writable(TaskIdOf(fetchIssue(ParseGitHubUrl(issueUrl).value).value))
      ensures r.Success? ==>
        var issue := fetchIssue(ParseGitHubUrl(issueUrl).value).value;
        var t := r.value;
        t.id == TaskIdOf(issue) && t.title == issue.title && t.tags == issue.labels
        && t.kind == kindArg.GetOr("work") && t.priority == priorityArg.GetOr("medium")
        && t.status == MapState(issue.state) && t.issueUrl == issue.htmlUrl && t.issueId == Itoa(issue.number)
        && t.created == now && t.updated == now
        && t.entries == (if issue.body != "" then [DescriptionEntry(entryId, now, issue.body)] else [])
        && tasks == old(tasks)[t.id := t]
      ensures r.Failure? ==> tasks == old(tasks)
    {
      if token == "" {
        return Failure(TokenRequired);
      }
      if issueUrl == "" {
        return Failure(IssueUrlRequired);
      }
      var parsed := ParseGitHubUrl(issueUrl);
      if parsed.Failure? {
        return Failure(InvalidUrl(parsed.error));
      }
      var fetched := fetchIssue(parsed.value);
      if fetched.None? {
        return Failure(FetchFailed);
      }
      var task := TaskFromIssue(fetched.value, now, entryId);
      task := task.(kind := kindArg.GetOr("work"), priority := priorityArg.GetOr("medium"));
      if !writable(task.id) {
        return Failure(SaveFailed(task.id));
      }
      tasks := Save(tasks, task);
      return Success(task);
    }
  }

  /** Every issue counts at most once: created + updated + errors never exceeds the issues processed. */
  lemma {:induction false} SyncUpToCounts(store: TaskStore, run: SyncRun, n: nat)
    requires n <= |run.issues|
    ensures var s := SyncUpTo(store, run, n); s.created + s.updated + s.errors <= n
  {
    if n > 0 {
      SyncUpToCounts(store, run, n - 1);
    }
  }

  /** A task a sync created belongs to an issued id, and creating was on. */
  lemma {:induction false} SyncTasksNew(store: TaskStore, run: SyncRun, n: nat, k: string)
    requires n <= |run.issues|
    requires k in SyncTasks(store, run, n) && k !in store
    ensures run.createTasks && IssuedBefore(run.issues, n, k)
  {
    var before := SyncTasks(store, run, n - 1);
    if k in before {
      SyncTasksNew(store, run, n - 1, k);
    } else {
      var issue := run.issues[n - 1];
      SyncedOneShape(before, issue, run.createTasks, run.updateExisting, run.now, run.entryId(n - 1), run.writable);
      assert TaskIdOf(run.issues[n - 1]) == k;
    }
  }

  /** A stored task no issue maps to, or any stored task when updating is off, is left as it was. */
  lemma {:induction false} SyncTasksUntouched(store: TaskStore, run: SyncRun, n: nat, k: string)
    requires n <= |run.issues|
    requires k in store && (!run.updateExisting || !IssuedBefore(run.issues, n, k))
    ensures k in SyncTasks(store, run, n) && SyncTasks(store, run, n)[k] == store[k]
  {
    if n > 0 {
      SyncTasksUntouched(store, run, n - 1, k);
      SyncTasksLastKeeps(store, run, n, k);
    }
  }

  /**
   * The n-th issue leaves task `k` as it was when it maps to another task,
   * or when updating is off and `k` is stored.
   */
  lemma SyncTasksLastKeeps(store: TaskStore, run: SyncRun, n: nat, k: string)
    requires 0 < n <= |run.issues|
    requires TaskIdOf(run.issues[n - 1]) != k || (!run.updateExisting && k in SyncTasks(store, run, n - 1))
    ensures var before := SyncTasks(store, run, n - 1);
      var after := SyncTasks(store, run, n);
      (k in after <==> k in before) && (k in before ==> after[k] == before[k])
  {
    var before := SyncTasks(store, run, n - 1);
    var issue := run.issues[n - 1];
    if TaskIdOf(issue) != k {
      SyncedOneOther(before, issue, run.createTasks, run.updateExisting, run.now, run.entryId(n - 1),
                     run.writable, k);
    } else {
      SyncedOneKept(before, issue, run.createTasks, run.now, run.entryId(n - 1), run.writable);
    }
  }

  /** With updating off, an issue whose task is stored changes nothing. */
  lemma SyncedOneKept(store: TaskStore, issue: Issue, createTasks: bool, now: nat, entryId: string,
                      writable: string -> bool)
    requires TaskIdOf(issue) in store
    ensures SyncedOne(store, issue, createTasks, false, now, entryId, writable) == store
  {
  }

  /** Every task a sync created or changed agrees with an issue that maps to it. */
  lemma {:induction false} SyncTasksAgrees(store: TaskStore, run: SyncRun, n: nat, k: string)
    requires n <= |run.issues|
    requires var after := SyncTasks(store, run, n); k in after && (k !in store || after[k] != store[k])
    ensures var after := SyncTasks(store, run, n);
      exists j | 0 <= j < n :: TaskIdOf(run.issues[j]) == k && !Differs(after[k], run.issues[j])
  {
    var after := SyncTasks(store, run, n);
    var before := SyncTasks(store, run, n - 1);
    var issue := run.issues[n - 1];
    SyncedOneShape(before, issue, run.createTasks, run.updateExisting, run.now, run.entryId(n - 1), run.writable);
    if after == before || TaskIdOf(issue) != k {
      assert k in before && after[k] == before[k];
      SyncTasksAgrees(store, run, n - 1, k);
      var j :| 0 <= j < n - 1 && TaskIdOf(run.issues[j]) == k && !Differs(before[k], run.issues[j]);
      assert 0 <= j < n;
    } else {
      assert TaskIdOf(run.issues[n - 1]) == k && !Differs(after[k], run.issues[n - 1]);
    }
  }

  /**
   * A sync does its work: for an issue whose task file is writable, with
   * creating on its task exists afterwards, and with updating on (and the
   * task stored or created) the task agrees with the last issue of its id.
   */
  lemma {:induction false} SyncTasksComplete(store: TaskStore, run: SyncRun, n: nat, j: nat)
    requires j < n <= |run.issues|
    requires run.writable(TaskIdOf(run.issues[j]))
    requires forall i | j < i < n :: TaskIdOf(run.issues[i]) != TaskIdOf(run.issues[j])
    ensures var after := SyncTasks(store, run, n);
      var id := TaskIdOf(run.issues[j]);
      (run.createTasks || id in store ==> id in after)
      && (run.updateExisting && (run.createTasks || id in store) ==> id in after && !Differs(after[id], run.issues[j]))
  {
    var before := SyncTasks(store, run, n - 1);
    var issue := run.issues[n - 1];
    if n - 1 == j {
      SyncTasksKeys(store, run, n - 1);
      SyncedOneOwn(before, issue, run.createTasks, run.updateExisting, run.now, run.entryId(n - 1), run.writable);
    } else {
      SyncTasksComplete(store, run, n - 1, j);
      SyncedOneOther(before, issue, run.createTasks, run.updateExisting, run.now, run.entryId(n - 1), run.writable,
                     TaskIdOf(run.issues[j]));
    }
  }

  /** The fold takes one more issue the way SyncIssue handles it. */
  lemma SyncUpToStep(store: TaskStore, run: SyncRun, i: nat, before: TaskStore, created: nat, updated: nat,
                     errors: nat, after: TaskStore, outcome: SyncOutcome)
    requires i < |run.issues| && SyncUpTo(store, run, i) == SyncState(before, created, updated, errors)
    requires outcome == SyncOutcomeOf(before, run.issues[i], run.createTasks, run.updateExisting, run.writable)
    requires after == SyncedOne(before, run.issues[i], run.createTasks, run.updateExisting, run.now,
                                run.entryId(i), run.writable)
    ensures SyncUpTo(store, run, i + 1) == SyncState(after,
      created + (if outcome == Created then 1 else 0),
      updated + (if outcome == Updated then 1 else 0),
      errors + (if outcome == Failed then 1 else 0))
  {
  }

  /** A sync loses no task. */
  lemma {:induction false} SyncTasksKeys(store: TaskStore, run: SyncRun, n: nat)
    requires n <= |run.issues|
    ensures store.Keys <= SyncTasks(store, run, n).Keys
  {
    if n > 0 {
      SyncTasksKeys(store, run, n - 1);
    }
  }

  /**
   * What one issue does: a missing task is created from the issue when
   * creating is on, an existing one that differs is reconciled when updating
   * is on, either only when its file is writable (otherwise the issue counts
   * as an error), and nothing else changes.
   */
  lemma SyncedOneMeaning(store: TaskStore, issue: Issue, createTasks: bool, updateExisting: bool, now: nat,
                         entryId: string, writable: string -> bool)
    ensures var outcome := SyncOutcomeOf(store, issue, createTasks, updateExisting, writable);
      var id := TaskIdOf(issue);
      (outcome == Created <==> id !in store && createTasks && writable(id))
      && (outcome == Updated <==> id in store && updateExisting && Differs(store[id], issue) && writable(id))
      && (outcome == Failed <==>
            !writable(id) && (if id in store then updateExisting && Differs(store[id], issue) else createTasks))
    ensures var after := SyncedOne(store, issue, createTasks, updateExisting, now, entryId, writable);
      var outcome := SyncOutcomeOf(store, issue, createTasks, updateExisting, writable);
      var id := TaskIdOf(issue);
      (outcome == Created ==> after == store[id := IssueTask(issue, now, entryId)])
      && (outcome == Updated ==> after == store[id := Reconciled(store[id], issue, now, entryId)])
      && (outcome == Unchanged || outcome == Failed ==> after == store)
  {
  }

  /**
   * Syncing one issue either leaves the store as it was or writes the task
   * of that issue's id, which then agrees with the issue.
   */
  lemma SyncedOneShape(store: TaskStore, issue: Issue, createTasks: bool, updateExisting: bool, now: nat,
                       entryId: string, writable: string -> bool)
    ensures var after := SyncedOne(store, issue, createTasks, updateExisting, now, entryId, writable);
      var outcome := SyncOutcomeOf(store, issue, createTasks, updateExisting, writable);
      var id := TaskIdOf(issue);
      (outcome == Created ==> id !in store && createTasks)
      && (outcome == Updated ==> id in store && updateExisting)
      && (outcome == Unchanged || outcome == Failed ==> after == store)
      && (outcome == Created || outcome == Updated ==>
            id in after && after == store[id := after[id]] && !Differs(after[id], issue))
  {
    IssueTaskAgrees(issue, now, entryId);
    if TaskIdOf(issue) in store {
      ReconciledAgrees(store[TaskIdOf(issue)], issue, now, entryId);
    }
  }

  /** An issue whose task file is writable is acted on. */
  lemma SyncedOneOwn(store: TaskStore, issue: Issue, createTasks: bool, updateExisting: bool, now: nat,
                     entryId: string, writable: string -> bool)
    requires writable(TaskIdOf(issue))
    ensures var after := SyncedOne(store, issue, createTasks, updateExisting, now, entryId, writable);
      var id := TaskIdOf(issue);
      (createTasks || id in store ==> id in after)
      && (updateExisting && (createTasks || id in store) ==> id in after && !Differs(after[id], issue))
  {
    IssueTaskAgrees(issue, now, entryId);
    if TaskIdOf(issue) in store {
      ReconciledAgrees(store[TaskIdOf(issue)], issue, now, entryId);
    }
  }

  /** Syncing an issue leaves the tasks of every other id alone. */
  lemma SyncedOneOther(store: TaskStore, issue: Issue, createTasks: bool, updateExisting: bool, now: nat,
                       entryId: string, writable: string -> bool, id: string)
    requires TaskIdOf(issue) != id
    ensures var after := SyncedOne(store, issue, createTasks, updateExisting, now, entryId, writable);
      (id in after <==> id in store) && (id in store ==> after[id] == store[id])
  {
  }

  /** The fold takes one more visited task the way PullTask handles it. */
  lemma PullUpToStep(store: TaskStore, selected: seq<Task>, run: PullRun, i: nat, before: TaskStore,
                     after: TaskStore, outcome: PullOutcome)
    requires i < |selected| && PullTasks(store, selected, run, i) == before
    requires outcome == Saved <==> Saves(selected[i], run)
    requires outcome == NoActivity <==> Idle(selected[i], run)
    requires after == if outcome == Saved then before[selected[i].id := Pulled(selected[i], run)] else before
    ensures var s := PullUpTo(store, selected, run, i);
      PullUpTo(store, selected, run, i + 1) == PullState(after,
        s.updated + (if outcome == Saved then 1 else 0),
        s.errors + (if outcome == PullFailed then 1 else 0))
  {
  }

  /** Every visited task counts at most once: updated + errors never exceeds the tasks visited. */
  lemma {:induction false} PullUpToCounts(store: TaskStore, selected: seq<Task>, run: PullRun, n: nat)
    requires n <= |selected|
    ensures PullUpTo(store, selected, run, n).updated + PullUpTo(store, selected, run, n).errors <= n
  {
    if n > 0 {
      PullUpToCounts(store, selected, run, n - 1);
    }
  }

  /**
   * When the visited tasks are the stored ones, a pull keeps every id and
   * the store keyed, and every task only gains entries.
   */
  lemma {:induction false} PullTasksExtends(store: TaskStore, selected: seq<Task>, run: PullRun, n: nat)
    requires n <= |selected|
    requires Keyed(store)
    requires forall t | t in selected :: t.id in store && store[t.id] == t
    ensures var after := PullTasks(store, selected, run, n);
      after.Keys == store.Keys && Keyed(after) && forall k | k in after :: Extends(store[k], after[k])
  {
    if n > 0 {
      PullTasksExtends(store, selected, run, n - 1);
      var t := selected[n - 1];
      if Saves(t, run) {
        var activity := FetchedActivity(t, run);
        WithActivityExtends(t, activity.comments, activity.events, run.now, run.entryId, 0);
      }
    }
  }

  /** The last visit of a task, when it saves, leaves the task with that visit's activity appended. */
  lemma {:induction false} PullTasksLast(store: TaskStore, selected: seq<Task>, run: PullRun, n: nat, i: nat)
    requires i < n <= |selected|
    requires Saves(selected[i], run)
    requires forall j | i < j < n :: selected[j].id != selected[i].id
    ensures var after := PullTasks(store, selected, run, n);
      selected[i].id in after && after[selected[i].id] == Pulled(selected[i], run)
  {
    if i < n - 1 {
      PullTasksLast(store, selected, run, n - 1, i);
    }
  }

  /** A task no visit saves is left as it was. */
  lemma {:induction false} PullTasksUntouched(store: TaskStore, selected: seq<Task>, run: PullRun, n: nat, k: string)
    requires n <= |selected|
    requires forall j | 0 <= j < n && selected[j].id == k :: !Saves(selected[j], run)
    ensures var after := PullTasks(store, selected, run, n);
      (k in after <==> k in store) && (k in store ==> after[k] == store[k])
  {
    if n > 0 {
      PullTasksUntouched(store, selected, run, n - 1, k);
    }
  }
}
