# journal-mcp in Dafny

A model of the record-keeping core of journal-mcp, a work-journal server:
tasks with an append-only log of entries, a per-day activity cache, task
listing, search and export, the GitHub synchronisation that turns issues
into tasks, the configuration validator and the backup-restore loop. It also
covers the refactored copy of the service in `internal/journal`.

The directory of JSON files becomes a map from task id to task, the store
that saveTask and loadTask write and read. The directory's listing order is
a parameter, a sequence of file names. Handlers that update a task and write
it back are methods of a class that holds the store. These are
`Journal.JournalService` for journal.go and config.go, `Sync.JournalService`
for the GitHub handlers, and `TaskService.Service` for internal/journal.
Pure helpers are functions. Loops become methods proved equal to recursive
functions that define their results. Go's `sort.Slice` and `sort.Strings` are one in-place
insertion sort on arrays (`Sorting`), which is proved sorted and a
permutation.

Time is whole seconds counted from 0000-01-01T00:00:00Z. A date is a
validated (year, month, day) triple. `Dates` models Go's "2006-01-02" layout
(the full-date of section 5.6 of RFC 3339), the RFC 3339 timestamp layout and
the calendar day of an instant, taken in UTC (Go takes it in the instant's
own zone; see "Left out"). It proves that the two layouts read back what they
print. The current time, fresh entry ids and the outcome of each
file write are parameters. Strings are sequences of characters.

Modules: `Wrappers` (Option, Result), `Text` (Go's strings and strconv
helpers), `Dates`, `Records` (tasks, entries, issue ids), `Store`, `Sorting`,
`Listing` (filterTasks, pagination), `Search`, `Export`, `Meetings`,
`Markdown` (formatTaskAsMarkdown), `Config`, `GitHub`, `Sync`, `Journal`,
`TaskService`.

## Model

| member | source | states |
|---|---|---|
| Journal.JournalService.CreateTask | journal.go:71-158 | id, title and type are required, in that order. The saved task is "active", has the given fields and the issue id `Records.IssueIdOf` derives from the URL, and holds exactly one "creation" entry "Task created: <title>". A failed write leaves the store unchanged. |
| Records.NewTask | journal.go:93-135 | The task built for create_task: status "active", created = updated = now, the issue id of the URL, and the single creation entry. |
| Records.FirstIssueKey | journal.go:117-125 | For a Jira/Atlassian URL, the first "/"-piece that contains "-" and is longer than 3 characters; None exactly when no piece qualifies. |
| Records.FindIssueKey | journal.go:119-125 | The breaking loop over the pieces finds exactly `FirstIssueKey`. |
| Records.GitHubIssueId | journal.go:112-116 | For a github.com URL the issue id is the text after the last "/", and empty when the URL has no "/". |
| Journal.JournalService.AddTaskEntry | journal.go:160-205 | task_id and content are required and the task must load. On success the task gains exactly one "log" entry at the end with the given content and the parsed timestamp (or now), earlier entries are unchanged, and updated = now. The entry is also appended to the day's cache when that file can be written; a failed cache write is ignored. On failure nothing changes. |
| Journal.EntryTime | journal.go:177-183 | The entry time is the RFC 3339 value of the argument when it parses, and now when the argument is empty or does not parse. |
| Journal.JournalService.UpdateTaskEntry | journal.go:207-250 | task_id, entry_id and content are required and the task must load. It succeeds exactly when the task has an entry with the id and the write works. Then only the content of the first such entry changes, and updated = now. With no such entry the result is "Entry not found" and nothing is written. |
| Journal.FirstWithId | journal.go:229-238 | The index of the first entry with the id, or the length when there is none. |
| Journal.JournalService.UpdateTaskStatus | journal.go:343-401 | A status outside active/completed/paused/blocked is rejected before the task is loaded, leaving the store unchanged. A valid status is set and one "status_change" entry "Status changed from <old> to <new>[: <reason>]" is appended to the task, and to the day's cache when that file can be written. |
| Records.IsOneOf | journal.go:355-362 | The membership loop answers exactly "x is one of the options". |
| Journal.JournalService.UpdateDailyLog | journal.go:1223-1244 | When the day file can be written, the entry is appended to the list for its task under its own day; when it cannot, the cache is unchanged and no error is raised. Nothing else changes. |
| Journal.DailyEntryAppended | journal.go:1239-1240 | The entry ends up last in its task's list for its own day. Other days and other tasks of that day are untouched. |
| Journal.JournalService.GetTask | journal.go:252-267 | task_id is required and the task must load. The document lays out the task's entries as `Markdown.Layout` requires. It shows the Priority, Tags and Issue lines exactly when the priority, tags and issue URL are set. |
| Store.LoadAllTasks | journal.go:1059-1077 | The loaded tasks are those of `Store.Loaded`: one per ".json" file whose task loads, in listing order. |
| Store.TaskFileId | journal.go:1068-1069 | A name yields a task id exactly when it ends in ".json", and the id followed by ".json" is the name. |
| Store.LoadedMembers | journal.go:1059-1077 | A task is loaded exactly when some listed file holds it. |
| Store.LoadedFromStore | journal.go:1059-1077 | Every loaded task is the one stored under its own id. |
| Store.LoadAfterSave | internal/journal/service.go:312-334 | loadTask(t.id) after saveTask(t) gives t, other ids are unaffected, and saving keeps every task stored under its own id. |
| Journal.JournalService.ListTasks | journal.go:269-312 | The listing keeps exactly the matching tasks (as a multiset), newest-updated first. The page is `sorted[min(offset,n) .. min(offset+limit,n)]`. |
| Listing.ListPage | journal.go:276-312 | Filter, sort newest first and page, with the limit and offset arguments read as `ParseLimit` and `ParseOffset` say. |
| Listing.FilterTasks | journal.go:1079-1141 | The filter loop computes `KeepMatching`. |
| Listing.KeepMatchingIsSubsequence | journal.go:1079-1141 | The filtered tasks are an order-preserving subsequence of the input. |
| Listing.KeepMatchingMembers | journal.go:1079-1141 | A task is kept exactly when it is in the input and matches status, type, at least one tag, Updated ≥ date_from and Updated ≤ date_to + 24h. |
| Listing.HasCommonTag | journal.go:1096-1114 | The nested tag loop answers exactly "some wanted tag is one of the task's tags". |
| Listing.InvalidDateIgnored | journal.go:1116-1133 | A date filter that does not parse disables only its own bound. |
| Listing.DateFromInclusive | journal.go:1117-1122 | A valid date_from keeps exactly the tasks updated at or after that day's midnight. |
| Listing.DateToInclusive | journal.go:1124-1133 | A valid date_to keeps exactly the tasks updated no later than 24 hours after that day's midnight. |
| Listing.SafeDateIsZero | journal.go:1158-1168 | parseDateSafely gives the zero time exactly for text that does not parse and for "0001-01-01". |
| Listing.ParseLimit | journal.go:284-292 | The limit is the argument when it is a positive integer, capped at 200, and otherwise 50. |
| Listing.ParseOffset | journal.go:294-299 | The offset is the argument when it is a non-negative integer, and otherwise 0. |
| Listing.PageBounds | journal.go:301-310 | start = min(offset, n), end = min(offset + limit, n), and start ≤ end ≤ n. |
| Listing.Min | journal.go:1301-1306 | The smaller argument: no larger than either and equal to one. |
| Listing.Max | journal.go:1308-1313 | The larger argument: no smaller than either and equal to one. |
| Listing.NewerThanOrder | journal.go:279-281 | "Updated after" is a strict weak order, and a sequence sorted by it is newest first. |
| Journal.ValidateDateFormat | journal.go:1144-1155 | No error exactly for a valid "2006-01-02" date. An empty string is "required"; other text is "invalid format". |
| Journal.JournalService.GetDailyLog | journal.go:404-454 | date is required and must be valid. A cached day is returned as is. Otherwise the day is built by scanning every loaded task and returned; it is cached when the day file can be written, and a failed write is ignored. |
| Journal.ScanDay | journal.go:434-444 | The scan loop computes `DayScan`. |
| Journal.DayEntries | journal.go:435-440 | The inner loop keeps exactly the task's entries on the day (`Records.EntriesOn`), in order. |
| Records.EntriesOnMembers | journal.go:436-440 | An entry is kept for a day exactly when it belongs to the task and its timestamp prints as that day. |
| Dates.DateKeyIff | journal.go:437 | An instant prints as day s exactly when it lies within the 24 hours from s's midnight. |
| Journal.DayScanKeys | journal.go:434-444 | A task id is listed for the day exactly when a loaded task with that id has an entry on the day. |
| Journal.DayScanValues | journal.go:441-443 | A listed id maps to the day's entries of a loaded task with that id. |
| Journal.DayLogFromStore | journal.go:428-444 | Over a keyed store, a listed id maps to the stored task's entries on that day. Every stored task whose file is listed and that has entries on the day is listed. |
| Journal.JournalService.SearchEntries | journal.go:694-817 | The query is required and tasks must list. The results are exactly the task and meeting hits (as a multiset), ordered by non-increasing timestamp. |
| Search.SearchEntries | journal.go:714-816 | Collect the entry hits, then the meeting hits, then sort newest first. |
| Search.ContextOf | journal.go:749-757 | The context is "both" when title and entry match, "entry" when only the entry matches, and "task" when only the title matches. |
| Search.CollectEntryHits | journal.go:738-765 | The entry loop computes `EntryHits` for one task. |
| Search.CollectTaskHits | journal.go:729-766 | The task loop computes `TaskHits`, skipping tasks of another type. |
| Search.CollectMeetingHits | journal.go:768-811 | The meeting loop computes `MeetingHits`. |
| Search.TaskHitsMembers | journal.go:729-766 | A result is a task hit exactly when it is built from an entry of a task of the wanted type, inside the date window, whose title or content contains the lowered query. |
| Search.MeetingHitsMembers | journal.go:787-809 | A result is a meeting hit exactly when a meeting in the window has text containing the query. |
| Search.WindowOfDays | journal.go:707-712 | With both dates valid, the window is from date_from's midnight to 24 hours after date_to's midnight, inclusive. |
| Search.InvalidDatesOpenWindow | journal.go:707-712 | Dates that do not parse leave the window open. |
| Search.LaterHitOrder | journal.go:814-816 | "Later timestamp" is a strict weak order, and a sequence sorted by it has non-increasing timestamps. |
| Search.HitWindow | journal.go:841-842 | The window [max(0,pos-50), min(len,pos+len(q)+100)) contains the hit and is at most len(q)+150 long. |
| Search.Snippet | journal.go:834-847 | Content of at most 200 characters is shown whole. Longer content is cut and ends in "...". |
| Search.SnippetShowsFirstHit | journal.go:838-843 | For long content containing the query, the snippet is "..." + the window around the first case-folded hit + "...", and that window holds the hit. |
| Search.SnippetWithoutHit | journal.go:844-846 | For long content without the query, the snippet is the first 200 characters + "...". |
| Export.FilterEntries | journal.go:890-900 | The entry loop keeps exactly the entries inside the window (`EntriesInWindow`). |
| Export.EntriesInWindowMembers | journal.go:892-900 | An entry is exported exactly when it is in the task and inside the window. |
| Export.OpenWindowKeepsEntries | journal.go:902-906 | Without date filters a task keeps all its entries. |
| Export.ExportTasks | journal.go:884-909 | The task loop computes `ExportedTasks`. |
| Export.ExportedTasksMembers | journal.go:884-909 | A task is exported exactly when it has the wanted type and either has an entry in the window or no window is set, with its entries cut to the window. |
| Export.OpenWindowExportsWhole | journal.go:884-909 | Without any filter every task is exported unchanged. |
| Export.ExportMeetings | journal.go:911-942 | The meeting loop keeps exactly the meetings whose date lies in the window. |
| Export.MeetingsInWindowMembers | journal.go:931-940 | A meeting is exported exactly when it is listed and its date lies in the window. |
| Export.Escape | journal.go:1008-1009 | Doubling quotes adds one character per quote. |
| Export.UnescapeEscape | journal.go:1004-1009 | Undoing the doubling recovers the field (section 2, item 7 of RFC 4180). |
| Export.EscapeWithoutQuotes | journal.go:1008-1009 | A field without quotes is written unchanged. |
| Export.CsvLines | journal.go:998-1028 | The CSV is the header, one line per exported entry, then one line per meeting. |
| Export.TaskCsvLines | journal.go:1002-1012 | One line per entry of the task, in order. |
| Export.MeetingCsvLines | journal.go:1014-1026 | One line per meeting, in order. |
| Meetings.History | journal.go:605-645 | Shows min(limit, n) meetings, dates non-increasing, drawn from the input. No meeting left out is later than one shown. |
| Meetings.HistoryLimit | journal.go:606-611 | The limit is the argument when it is a positive integer, and otherwise 10. |
| Meetings.LaterDateOrder | journal.go:638-640 | "Later date" (a string comparison) is a strict weak order. |
| Markdown.FormatTask | journal.go:1170-1221 | The Priority line is shown iff priority ≠ "", Tags iff tags are non-empty, Issue iff the URL ≠ "". The sections satisfy `Layout`: dates strictly ascending, one heading per date of an entry, each section holding exactly that day's entries (as a multiset), earliest first. |
| Markdown.GroupByDate | journal.go:1192-1197 | The map has a key exactly for each entry date, and each key's list is that day's entries in order. |
| Markdown.Keys | journal.go:1199-1203 | The collected dates are exactly the map's keys, each once. |
| Markdown.WriteSections | journal.go:1206-1218 | One section per sorted date, holding that date's entries sorted by timestamp. |
| Markdown.DaySections | journal.go:1192-1218 | Group, sort dates, sort each group: the result satisfies `Layout`. |
| Markdown.EachEntryUnderItsDay | internal/journal/service.go:358-383 | Every entry appears under a heading for its own date, and under no other. |
| Markdown.HeadingsDistinct | internal/journal/service.go:365-374 | No date heading repeats. |
| Markdown.StrictlyAscending | internal/journal/service.go:365-370 | Sorted distinct dates are strictly ascending. |
| Markdown.EarlierOrder | internal/journal/service.go:376-378 | "Earlier timestamp" is a strict weak order, and a sequence sorted by it has non-decreasing timestamps. |
| Sorting.InsertionSort | journal.go:279-281 | The in-place sort leaves the array sorted by `less` and a permutation of its old contents. |
| Sorting.SortedCopy | internal/github/client.go:579-585 | Sorting a copy gives a sorted permutation of the input. |
| Sorting.AdjacentSortedIsSorted | journal.go:1204 | Under a strict weak order, local order is global order. |
| Sorting.SortedUnique | internal/github/client.go:584-591 | Two sorted sequences with the same elements are equal under a total order. |
| Text.StrLessOrder | journal.go:1204 | Go's string `<` is a strict total order. |
| Text.ToLower | journal.go:700 | Lowercasing keeps the length and maps each character by itself. |
| Text.IndexOf | journal.go:839 | strings.Index is the first occurrence, or -1 exactly when there is none. |
| Text.SplitJoin | journal.go:113 | Joining the pieces of strings.Split with the separator gives back the string. |
| Text.JoinSplit | journal.go:113 | Splitting a join of separator-free pieces gives back the pieces. |
| Text.Atoi | journal.go:286 | strconv.Atoi accepts exactly an optional "+" or "-" followed by one or more decimal digits whose value fits in 64 bits, and gives that value with its sign. Empty text, a lone sign and any other character are rejected. |
| Text.AtoiItoa | internal/github/client.go:476 | Every 64-bit integer reads back from its decimal text. |
| Dates.ParseFormatDate | journal.go:1149 | Every date of a four-digit year prints in the "2006-01-02" form and parses back to itself. |
| Dates.FormatParseDate | journal.go:1149 | A string that parses as a date is exactly how that date prints. |
| Dates.DateOfIff | journal.go:1195 | An instant falls on day d exactly when it lies in d's 24 hours. |
| Dates.ParseFormatRFC3339 | journal.go:180 | Every instant of a four-digit year reads back from its RFC 3339 text. |
| Sync.SinceOfFormat | internal/github/client.go:166-173 | Every instant of a four-digit year reads back through the "2006-01-02T15:04:05Z" layout. |
| Sync.SinceIsRfc3339 | internal/github/client.go:168 | Whatever that layout accepts is the same instant under RFC 3339. |
| GitHub.ParseGitHubUrl | internal/github/client.go:546-561 | Fails with "invalid format" exactly when the "/"-split has fewer than 7 parts or the URL lacks "github.com". Fails with "invalid issue number" exactly when part 6 is not an integer. Otherwise the number is part 6. |
| GitHub.ParsedPieces | internal/github/client.go:553-560 | On success the owner and repository are parts 3 and 4. |
| GitHub.IssueUrlRoundTrip | internal/github/client.go:546-561 | An issue URL built from owner, repository and number parses back to them. |
| GitHub.MapState | internal/github/client.go:563-572 | "closed" maps to "completed" and every other state to "active", always a valid task status. |
| GitHub.PriorityFromLabels | internal/github/client.go:455-466 | The label loop computes `PriorityOf`. |
| GitHub.LastPriorityLabelWins | internal/github/client.go:457-466 | The last label that names a priority decides it. |
| GitHub.NoPriorityLabel | internal/github/client.go:456 | With no priority label the priority is "medium". |
| GitHub.PriorityLevels | internal/github/client.go:455-466 | The priority is one of medium, high, low, urgent. |
| GitHub.TaskIdDistinguishesNumbers | internal/github/client.go:538-544 | Two issues of one repository with different numbers get different task ids. |
| GitHub.TaskFromIssue | internal/github/client.go:446-493 | The task is `IssueTask`: a "work" task with the issue's title, labels as tags, mapped status, label priority and URL, the issue id Itoa(number), created = updated = now, and one description entry exactly when the body is non-empty. |
| GitHub.IssueTaskAgrees | internal/github/client.go:446-493 | A task built from an issue agrees with it (status, title, tag multiset), and its issue id reads back through Atoi as the issue number. |
| GitHub.EqualStringSlices | internal/github/client.go:574-594 | True exactly when the two slices hold the same strings with the same multiplicities. |
| GitHub.ReconcileTask | internal/github/client.go:495-534 | The result is `Reconciled`, and a change is reported exactly when status, title or tag multiset differ. |
| GitHub.ReconciledAgrees | internal/github/client.go:495-534 | A reconciled task agrees with the issue and keeps its id. Its old entries stay a prefix, and one status_change entry is added only when the status changed. Updated moves only on a change. A task that agreed already is returned unchanged. |
| GitHub.AppendActivity | internal/github/client.go:219-241 | The result is `WithActivity`, and the count is the number of comments plus events. |
| GitHub.WithActivityExtends | internal/github/client.go:219-243 | One entry per comment, then one per event, appended after the existing ones. Only entries and updated change, and updated moves to now exactly when something was added. |
| Sync.JournalService.SyncIssue | internal/github/client.go:119-146 | The outcome and the new store are `SyncOutcomeOf` and `SyncedOne` of the old store. |
| Sync.SyncedOneMeaning | internal/github/client.go:120-146 | A missing task is created from the issue when creating is on and its file is writable. An existing task that differs is replaced by its reconciled form when updating is on and its file is writable. A failed write counts as an error and leaves the store unchanged. Otherwise nothing changes. |
| Sync.JournalService.SyncWithGitHub | internal/github/client.go:89-154 | token and username are required and the fetch must succeed; a failure changes nothing. On success, issues processed is the number of fetched issues, and the new store and the created, updated and error counts are exactly `SyncUpTo` of the old store over the issues in order. |
| Sync.JournalService.SyncAll | internal/github/client.go:119-147 | The issue loop computes `SyncUpTo`. |
| Sync.JournalService.SyncNext | internal/github/client.go:119-147 | One issue takes the store and counters from `SyncUpTo` at i to `SyncUpTo` at i + 1. |
| Sync.IssuedBeforeIff | internal/github/client.go:119-120 | An id is issued among the first n issues exactly when one of them maps to it. |
| Sync.SyncUpToCounts | internal/github/client.go:119-147 | created + updated + errors never exceeds the issues processed. |
| Sync.SyncTasksKeys | internal/github/client.go:119-146 | A sync loses no task. |
| Sync.SyncTasksNew | internal/github/client.go:124-132 | A task a sync added has the id of a processed issue, and creating was on. |
| Sync.SyncTasksUntouched | internal/github/client.go:134-146 | A stored task that no issue maps to keeps its value, and with updating off every stored task does. |
| Sync.SyncTasksAgrees | internal/github/client.go:119-146 | Every added or changed task agrees with an issue that maps to it. |
| Sync.SyncTasksComplete | internal/github/client.go:119-146 | For an issue whose task file is writable and that is the last one of its id: with creating on, or the task stored, the task exists afterwards; with updating on as well, it agrees with that issue. |
| Sync.JournalService.PullIssueUpdates | internal/github/client.go:157-262 | token is required and since must parse. A named task must exist and have an issue URL; otherwise tasks must list. It succeeds exactly then, and failure changes nothing. total is 1 or the number of GitHub-tracked loaded tasks. The new store and the updated and error counts are exactly `PullUpTo` over the visited tasks. No task is lost and every task only gains entries. |
| Sync.JournalService.PullAll | internal/github/client.go:201-250 | The task loop computes `PullUpTo`. |
| Sync.JournalService.PullTask | internal/github/client.go:204-249 | The task is saved exactly when its URL parses, its activity was fetched and is non-empty, and its file is writable. It is then stored as `Pulled`: one new entry per comment and event after its old ones. No activity is reported exactly when the fetch gave none. Otherwise the store is unchanged. |
| Sync.PullUpToCounts | internal/github/client.go:201-250 | updated + errors never exceeds the tasks visited. |
| Sync.PullTasksExtends | internal/github/client.go:204-249 | When the visited tasks are the stored ones, a pull keeps every id and every task under its own id, and each task only gains entries at the end. |
| Sync.PullTasksLast | internal/github/client.go:243-248 | A task whose last visit saves holds that visit's activity appended. |
| Sync.PullTasksUntouched | internal/github/client.go:204-249 | A task that no visit saves keeps its value. |
| Sync.SelectGitHubTasks | internal/github/client.go:193-198 | The loop computes `GitHubTasks`. |
| Sync.GitHubTasksMembers | internal/github/client.go:194-197 | A task is visited exactly when it is loaded and its URL is non-empty and contains "github.com". |
| Sync.JournalService.CreateTaskFromGitHubIssue | internal/github/client.go:265-311 | token and issue_url are required, the URL must parse and the issue must be fetched. The task built from the issue takes the requested type (default "work") and priority (default "medium") and is stored under its id. On failure nothing changes. |
| Config.ValidateConfiguration | config.go:398-432 | No error exactly for a valid configuration. Otherwise the error is that of the first failing check, in the order port 1-65535, backup interval ≥ 1, max backups ≥ 1, sync interval ≥ 5, default type in work/learning/personal/investigation. |
| Config.DefaultConfiguration | config.go:249-262 | The defaults (port 8080, interval 24, 7 backups, type "work", sync 60) pass validation. |
| Journal.ConfigView | config.go:239-266 | No file gives the defaults. A file that does not parse is an error. |
| Journal.JournalService.GetConfiguration | config.go:239-266 | Reports `ConfigView` of the stored file. |
| Journal.JournalService.UpdateConfiguration | config.go:269-304 | An empty argument, JSON that does not decode, or a configuration that fails validation is rejected before anything is written; a failed validation reports the error of the first failing check (`Config.FirstConfigError`). On success the file holds the configuration. |
| Config.RestoreFiles | config.go:204-229 | The extraction loop restores exactly `RestoredNames`. It counts them as files, those under "tasks/" as tasks with ten entries each, and failed extractions as warnings. |
| Config.RestoredNamesMembers | config.go:205-221 | A name is restored exactly when a file of that name extracts and is neither the metadata nor, unless asked for, a "config.yaml". |
| Config.RestoreAccountsForSelected | config.go:205-229 | Every selected file is restored or warned about: files + warnings = selected files. |
| TaskService.Service.CreateTask | internal/journal/service.go:39-126 | id, title and type are required, in that order. The saved task is "active" with one creation entry "Task created: <title>" and the issue id derived as in journal.go. It loads back under its id; other tasks are unchanged. |
| TaskService.Service.SaveTask | internal/journal/service.go:312-319 | The task is stored under its own id unless the write fails. |
| TaskService.Service.LoadTask | internal/journal/service.go:321-334 | Gives the task stored under the id, which carries that id, and None when there is none. |
| TaskService.Service.GetTask | internal/journal/service.go:132-147 | task_id is required and the task must load. The document satisfies `Markdown.Layout` and shows the optional lines exactly for the fields that are set. |

## Left out

- Network access is not modelled. GitHub issues, comments, events and the oauth client are inputs, and `None` stands for a failed request (`getAssignedIssues`, `getIssue`, `getIssueUpdates`, `NewGitHubService`).
- The `fetch` parameter of pull_issue_updates stands for all of getIssueUpdates (internal/github/client.go:376-440). That includes the comment filter GitHub applies with `since` and the client-side dropping of events created before `since` (client.go:414-416). Neither filter is modelled separately; `since` only reaches `fetch`.
- Sync.JournalService.PullIssueUpdates: the all-tasks branch calls `js.getAllTasks()` (internal/github/client.go:189), which the source does not define. The model takes it to be loadAllTasks (`Store.LoadAllTasks`, journal.go:1059-1077): the tasks of the listed ".json" files, in listing order, with a failed listing as its error.
- Sync.JournalService.PullTask: entry ids are `entryId(k)` with k counting the entries added to one task, so two tasks updated in one pull can receive the same ids. Go's generateEntryID (journal.go:1296-1298) gives every entry a fresh "entry_<UnixNano>". Uniqueness of entry ids across tasks is not modelled.
- File I/O is a map plus flags. JSON, YAML and zip encoding are not modelled. A write failure is a boolean or a predicate on the task id. A directory listing is a sequence of names. A file that cannot be read or decoded is absent from the map.
- A task file whose JSON id differs from its file name is not modelled: the store keeps every task under its own id.
- A daily cache file that exists but does not decode is not modelled. Go would go on with an empty value and, in updateDailyLog, panic on the nil map.
- The wall clock and `generateEntryID` are parameters (`now`, `entryId`). Go calls `time.Now()` separately for Created, Updated and the entry timestamp; the model uses one `now` for all of them.
- Byte-exact markdown, JSON and text rendering is not modelled; only which items appear and in what order. `formatDailyLogAsMarkdown`, the list, search and history texts, and the CSV time column are left out, except the CSV line structure and quote escaping.
- GetWeeklyLog, CreateOneOnOne, CreateDataBackup and MigrateData are not modelled. They only read and write files and render text.
- The `restore-<timestamp>` data-directory switch in RestoreDataBackup (config.go:194-202) is not modelled.
- The handlers of internal/journal/service.go other than create_task and get_task are placeholders (service.go:128-304) and are not modelled.
- Unicode case folding is not modelled: `Text.ToLower` lowers ASCII letters only, where Go's `strings.ToLower` handles all of Unicode.
- Sync.JournalService.PullIssueUpdates: the since text is read with a two-digit hour and an optional fraction introduced by "." only. Go reads it with time.Parse and the layout "2006-01-02T15:04:05Z" (internal/github/client.go:168). That goes through Go's general layout parser, which also accepts a one-digit hour ("2024-01-02T5:04:05Z") and a fraction introduced by "," ("2024-01-02T15:04:05,5Z"). The model answers "invalid since" for such text, where Go goes on to pull.
- Records.FirstIssueKey: the "longer than 3" test counts characters, where Go's `len(part)` counts UTF-8 bytes (journal.go:121, internal/journal/service.go:89). The two agree for ASCII text. A short non-ASCII piece such as "é-1" is an issue key in Go and not in the model. The same holds for Records.IssueIdOf, Records.NewTask and both CreateTask handlers, which use it.
- Dates.ParseFormatRFC3339: proved only for years below 10000, where Go prints four year digits. The RFC 3339 parser accepts exactly the layout's fields; any leniency of Go's general layout parser beyond them, such as a one-digit hour, is not modelled.
- Dates.ParseFormatDate: proved only for years below 10000, for the same reason.
- Sync.SinceOfFormat: proved only for years below 10000.
- Instants before 0000-01-01T00:00:00Z are not representable; timestamps are natural numbers.
- Sorting.InsertionSort: Go's `sort.Slice` is not stable and its order among equal keys is unspecified. The model proves sortedness and permutation for one algorithm, so the order it gives to ties is not claimed for Go.
- Sync.JournalService.SyncWithGitHub: counts the failed writes instead of keeping their messages, and the summary text is not modelled.
- Sync.JournalService.PullIssueUpdates: counts the errors instead of keeping their messages.
- Dates.DateKey: the day of an instant is its UTC calendar day and the time of day is UTC. Go formats a timestamp in its own location. That is Local for `time.Now()` (journal.go:131-132, 178) and the parsed offset for an RFC 3339 argument (journal.go:180). So a day or an hour can differ from Go's outside UTC. Time zones are not modelled. Every member that groups, files or prints by day or time of day inherits this. These include the ones listed next, and also Journal.JournalService.GetDailyLog, AddTaskEntry and UpdateTaskStatus (the daily cache), Journal.ScanDay and Journal.DayEntries, Markdown.FormatTask and Markdown.DaySections, TaskService.Service.GetTask, and Export's date and time CSV columns (Export.CsvLines, Export.TaskCsvLines).
- Dates.DateKeyIff: states the day boundaries in UTC, where Go would use the timestamp's zone (journal.go:437).
- Dates.DateOfIff: the same, for the day as a date (journal.go:1195).
- Records.EntriesOn: an entry's day is its UTC day (journal.go:436-440).
- Records.EntriesOnMembers: the same, for the membership statement.
- Journal.WithDailyEntry: files an entry under its UTC day (journal.go:1224).
- Journal.JournalService.UpdateDailyLog: the same (journal.go:1224).
- Journal.DayScan: keeps the entries of the UTC day (journal.go:437).
- Markdown.GroupByDate: groups by UTC day (journal.go:1195).
- Export.HourMinute: prints the UTC hour and minute, where Go prints them in the timestamp's zone (journal.go:1005-1006, 1215).
- Search.Snippet: counts characters, where Go's `len` and slicing count UTF-8 bytes (journal.go:835-845). For ASCII content the two agree. For other content Go's cut points differ and may split a character.
- Search.HitWindow: the same, in characters rather than bytes.
- Meetings.History: the meetings are given as the decoded list. Reading files ending in ".json" is not modelled.
- Concurrency is not modelled. The handlers are treated as running one at a time.

## Differences between the task-creating paths

The model follows the code in each case.

- create_task (journal.go:128-134) and the service's CreateTask (internal/journal/service.go:97-103) always give a new task one creation entry. createTaskFromGitHubIssue (internal/github/client.go:483-490) gives it no entry at all when the issue body is empty. `Records.NewTask` and `GitHub.TaskFromIssue` state both behaviours.
- create_task (journal.go:137-148) overwrites an existing task with the same id; there is no existence check. `Journal.JournalService.CreateTask` states the new store as `Save` of the old one.
- update_task_entry (journal.go:244-249) does not update the daily cache, unlike add_task_entry and update_task_status. `Journal.JournalService.UpdateTaskEntry` leaves `daily` unchanged.
