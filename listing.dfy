/**
 * The list_tasks pipeline: filter the loaded tasks, sort them newest first by
 * their `updated` time, then cut one page out with an offset and a limit.
 */
module Listing {
  import opened Wrappers
  import opened Text
  import opened Dates
  import opened Records
  import opened Sorting

  /**
   * The filter arguments that were given with the expected type: a missing
   * or wrongly typed argument is None. Tag-list elements that are not
   * strings are skipped by the handler and do not appear in `tags`.
   */
  datatype Filters = Filters(
    status: Option<string>,
    kind: Option<string>,
    tags: Option<seq<string>>,
    dateFrom: Option<string>,
    dateTo: Option<string>)

  /** parseDateSafely: midnight UTC of a valid "2006-01-02" date, else Go's zero time. */
  function ParseDateSafely(s: string): nat {
    if s == "" then ZeroTime
    else match ParseDate(s)
      case Some(d) => StartOfDay(d)
      case None => ZeroTime
  }

  /**
   * The zero time means "no bound": it comes from an empty or invalid date,
   * and also from the valid date 0001-01-01, which therefore sets no bound.
   */
  lemma SafeDateIsZero(s: string)
    ensures ParseDateSafely(s) == ZeroTime <==> ParseDate(s).None? || ParseDate(s) == Some(Date(1, 1, 1))
  {
    if ParseDate(s).Some? && ParseDateSafely(s) == ZeroTime {
      DayNumberInjective(ParseDate(s).value, Date(1, 1, 1));
    }
  }

  /** The `date_from` bound: an absent, empty or zero bound lets every task through. */
  predicate AfterFrom(t: Task, from: Option<string>) {
    from.None? || from.value == "" || ParseDateSafely(from.value) == ZeroTime
    || t.updated >= ParseDateSafely(from.value)
  }

  /** The `date_to` bound, widened by one day to take in the whole end date. */
  predicate BeforeTo(t: Task, to: Option<string>) {
    to.None? || to.value == "" || ParseDateSafely(to.value) == ZeroTime
    || t.updated <= ParseDateSafely(to.value) + SecondsPerDay
  }

  /** Some wanted tag is one of the task's tags. */
  predicate SharesTag(taskTags: seq<string>, wanted: seq<string>) {
    exists i, j | 0 <= i < |wanted| && 0 <= j < |taskTags| :: wanted[i] == taskTags[j]
  }

  predicate Matches(t: Task, f: Filters) {
    (f.status.None? || t.status == f.status.value)
    && (f.kind.None? || t.kind == f.kind.value)
    && (f.tags.None? || SharesTag(t.tags, f.tags.value))
    && AfterFrom(t, f.dateFrom)
    && BeforeTo(t, f.dateTo)
  }

  /** The nested tag loops of filterTasks, each stopping at the first hit. */
  method HasCommonTag(taskTags: seq<string>, wanted: seq<string>) returns (has: bool)
    ensures has <==> SharesTag(taskTags, wanted)
  {
    has := false;
    var i := 0;
    while i < |wanted|
      invariant 0 <= i <= |wanted|
      invariant !has
      invariant forall k, j | 0 <= k < i && 0 <= j < |taskTags| :: wanted[k] != taskTags[j]
    {
      var j := 0;
      while j < |taskTags|
        invariant 0 <= j <= |taskTags|
        invariant forall m | 0 <= m < j :: wanted[i] != taskTags[m]
      {
        if taskTags[j] == wanted[i] {
          has := true;
          return;
        }
        j := j + 1;
      }
      i := i + 1;
    }
  }

  /** The tasks that match, in their original order. */
  function KeepMatching(tasks: seq<Task>, f: Filters): seq<Task> {
    if tasks == [] then []
    else if Matches(tasks[0], f) then [tasks[0]] + KeepMatching(tasks[1..], f)
    else KeepMatching(tasks[1..], f)
  }

  /** filterTasks: one pass with a `keep` flag (Go's `include`) that each failed check clears. */
  method FilterTasks(tasks: seq<Task>, f: Filters) returns (filtered: seq<Task>)
    ensures filtered == KeepMatching(tasks, f)
  {
    filtered := [];
    var i := 0;
    while i < |tasks|
      invariant 0 <= i <= |tasks|
      invariant filtered + KeepMatching(tasks[i..], f) == KeepMatching(tasks, f)
    {
      var t := tasks[i];
      var keep := true;
      if f.status.Some? && t.status != f.status.value {
        keep := false;
      }
      if f.kind.Some? && t.kind != f.kind.value {
        keep := false;
      }
      if f.tags.Some? {
        var has := HasCommonTag(t.tags, f.tags.value);
        if !has {
          keep := false;
        }
      }
      if f.dateFrom.Some? && f.dateFrom.value != "" {
        var from := ParseDateSafely(f.dateFrom.value);
        if from != ZeroTime && t.updated < from {
          keep := false;
        }
      }
      if f.dateTo.Some? && f.dateTo.value != "" {
        var to := ParseDateSafely(f.dateTo.value);
        if to != ZeroTime && t.updated > to + SecondsPerDay {
          keep := false;
        }
      }
      assert keep == Matches(t, f);
      assert tasks[i..][1..] == tasks[i + 1..];
      if keep {
        filtered := filtered + [t];
      }
      i := i + 1;
    }
  }

  /** `a` is `b` with some elements left out and the rest in the same order. */
  predicate IsSubsequence<T(==)>(a: seq<T>, b: seq<T>) {
    if a == [] then true
    else if b == [] then false
    else if a[0] == b[0] then IsSubsequence(a[1..], b[1..])
    else IsSubsequence(a, b[1..])
  }

  /** The filter keeps an order-preserving selection of its input. */
  lemma {:induction false} KeepMatchingIsSubsequence(tasks: seq<Task>, f: Filters)
    ensures IsSubsequence(KeepMatching(tasks, f), tasks)
  {
    if tasks != [] {
      KeepMatchingIsSubsequence(tasks[1..], f);
      var rest := KeepMatching(tasks[1..], f);
      if !Matches(tasks[0], f) && rest != [] && rest[0] == tasks[0] {
        assert tasks[0] in rest;
        KeepMatchingMembers(tasks[1..], f, tasks[0]);
      }
    }
  }

  /** A task is kept exactly when it is in the input and matches every given filter. */
  lemma {:induction false} KeepMatchingMembers(tasks: seq<Task>, f: Filters, t: Task)
    ensures t in KeepMatching(tasks, f) <==> t in tasks && Matches(t, f)
  {
    if tasks != [] {
      KeepMatchingMembers(tasks[1..], f, t);
      assert tasks == [tasks[0]] + tasks[1..];
    }
  }

  /** An unparseable date argument disables its own bound and nothing else. */
  lemma InvalidDateIgnored(t: Task, f: Filters, v: string)
    requires ParseDate(v).None?
    ensures Matches(t, f.(dateFrom := Some(v))) == Matches(t, f.(dateFrom := None))
    ensures Matches(t, f.(dateTo := Some(v))) == Matches(t, f.(dateTo := None))
  {
  }

  /**
   * A valid `date_to` other than 0001-01-01 keeps the tasks updated no later
   * than the midnight that ends that day (the midnight itself included).
   */
  lemma DateToInclusive(t: Task, v: string, d: Date)
    requires ParseDate(v) == Some(d) && d != Date(1, 1, 1)
    ensures BeforeTo(t, Some(v)) <==> t.updated <= StartOfDay(d) + SecondsPerDay
  {
    SafeDateIsZero(v);
  }

  /** Likewise `date_from` keeps the tasks updated at or after the start of that day. */
  lemma DateFromInclusive(t: Task, v: string, d: Date)
    requires ParseDate(v) == Some(d) && d != Date(1, 1, 1)
    ensures AfterFrom(t, Some(v)) <==> t.updated >= StartOfDay(d)
  {
    SafeDateIsZero(v);
  }

  const DefaultLimit: nat := 50
  const MaxLimit: nat := 200

  /** The page size: a positive integer argument capped at 200, otherwise 50. */
  function ParseLimit(arg: string): (limit: nat)
    ensures 1 <= limit <= MaxLimit
    ensures Atoi(arg).Some? && Atoi(arg).value > 0 ==> limit == Min(Atoi(arg).value, MaxLimit)
    ensures (Atoi(arg).None? || Atoi(arg).value <= 0) ==> limit == DefaultLimit
  {
    if arg == "" then DefaultLimit
    else match Atoi(arg)
      case Some(n) => if n > 0 then (if n > MaxLimit then MaxLimit else n) else DefaultLimit
      case None => DefaultLimit
  }

  /** The offset: a non-negative integer argument, otherwise 0. */
  function ParseOffset(arg: string): (offset: nat)
    ensures Atoi(arg).Some? && Atoi(arg).value >= 0 ==> offset == Atoi(arg).value
    ensures (Atoi(arg).None? || Atoi(arg).value < 0) ==> offset == 0
  {
    if arg == "" then 0
    else match Atoi(arg)
      case Some(n) => if n >= 0 then n else 0
      case None => 0
  }

  function Min(a: int, b: int): (m: int)
    ensures m <= a && m <= b && (m == a || m == b)
  {
    if a < b then a else b
  }

  function Max(a: int, b: int): (m: int)
    ensures m >= a && m >= b && (m == a || m == b)
  {
    if a > b then a else b
  }

  /**
   * The clamping of list_tasks: the page runs from min(offset, total) to
   * min(offset + limit, total), so an offset at or past the end gives an
   * empty page.
   */
  method PageBounds(total: nat, offset: nat, limit: nat) returns (start: nat, end: nat)
    ensures start == Min(offset, total) && end == Min(offset + limit, total)
    ensures start <= end <= total
  {
    start := offset;
    end := offset + limit;
    if start >= total {
      start := total;
      end := total;
    } else if end > total {
      end := total;
    }
  }

  /** Go's `a.Updated.After(b.Updated)`, the order of the list: newest first. */
  function NewerThan(a: Task, b: Task): bool {
    a.updated > b.updated
  }

  predicate NewestFirst(tasks: seq<Task>) {
    forall i, j | 0 <= i < j < |tasks| :: tasks[i].updated >= tasks[j].updated
  }

  /** Sorting by "newer than" is sorting newest first. */
  lemma NewerThanOrder(tasks: seq<Task>)
    ensures Asymmetric(NewerThan) && NotLessTransitive(NewerThan)
    ensures Sorted(tasks, NewerThan) ==> NewestFirst(tasks)
  {
    if Sorted(tasks, NewerThan) {
      forall i, j | 0 <= i < j < |tasks|
        ensures tasks[i].updated >= tasks[j].updated
      {
        assert !NewerThan(tasks[j], tasks[i]);
      }
    }
  }

  /** The listing: every matching task, newest first, and the requested page of it. */
  datatype Listed = Listed(sorted: seq<Task>, start: nat, end: nat, page: seq<Task>)

  /**
   * list_tasks after loading: filter, sort newest first, and cut the page
   * `sorted[min(offset,n) : min(offset+limit,n)]`.
   */
  method ListPage(tasks: seq<Task>, f: Filters, limitArg: string, offsetArg: string) returns (r: Listed)
    ensures multiset(r.sorted) == multiset(KeepMatching(tasks, f))
    ensures NewestFirst(r.sorted)
    ensures r.start == Min(ParseOffset(offsetArg), |r.sorted|)
    ensures r.end == Min(ParseOffset(offsetArg) + ParseLimit(limitArg), |r.sorted|)
    ensures r.start <= r.end <= |r.sorted| && r.page == r.sorted[r.start..r.end]
  {
    var filtered := FilterTasks(tasks, f);
    NewerThanOrder([]);
    var sorted := SortedCopy(filtered, NewerThan);
    NewerThanOrder(sorted);
    var limit := ParseLimit(limitArg);
    var offset := ParseOffset(offsetArg);
    var start, end := PageBounds(|sorted|, offset, limit);
    r := Listed(sorted, start, end, sorted[start..end]);
  }
}
