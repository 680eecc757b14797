/**
 * formatTaskAsMarkdown, reduced to the structure of what it writes: which
 * header lines appear, the date headings in order, and the entries under
 * each heading in order. The text of each line is left out.
 */
module Markdown {
  import opened Text
  import opened Dates
  import opened Records
  import opened Sorting

  /** The entries written under one `## <date>` heading. */
  datatype Section = Section(date: string, entries: seq<Entry>)

  /** Which optional header lines appear, and the dated sections that follow. */
  datatype TaskDoc = TaskDoc(showPriority: bool, showTags: bool, showIssue: bool, sections: seq<Section>)

  /** The days, as "2006-01-02" keys, on which a task has entries. */
  function DatesOf(entries: seq<Entry>): set<string> {
    set e | e in entries :: DateKey(e.timestamp)
  }

  /** The entry order within a day: the earlier timestamp first. */
  function Earlier(a: Entry, b: Entry): bool {
    a.timestamp < b.timestamp
  }

  /** The date headings, in the order written. */
  function Headings(sections: seq<Section>): (dates: seq<string>)
    ensures |dates| == |sections|
  {
    seq(|sections|, i requires 0 <= i < |sections| => sections[i].date)
  }

  /**
   * The body of a task document: one heading per day the task has entries
   * on, in strictly ascending order; under each, exactly that day's entries,
   * earliest first.
   */
  ghost predicate Layout(entries: seq<Entry>, sections: seq<Section>) {
    (forall i, j | 0 <= i < j < |sections| :: StrLess(sections[i].date, sections[j].date))
    && (forall d :: d in Headings(sections) <==> d in DatesOf(entries))
    && (forall i | 0 <= i < |sections| ::
          multiset(sections[i].entries) == multiset(EntriesOn(entries, sections[i].date)))
    && (forall i | 0 <= i < |sections| :: forall j, k | 0 <= j < k < |sections[i].entries| ::
          sections[i].entries[j].timestamp <= sections[i].entries[k].timestamp)
  }

  lemma {:induction false} EntriesOnSnoc(entries: seq<Entry>, e: Entry, date: string)
    ensures EntriesOn(entries + [e], date) == EntriesOn(entries, date) + DayPiece(e, date)
  {
    var s := entries + [e];
    if entries == [] {
      assert s[1..] == [];
    } else {
      assert s[0] == entries[0] && s[1..] == entries[1..] + [e];
      EntriesOnSnoc(entries[1..], e, date);
      Regroup(DayPiece(entries[0], date), EntriesOn(entries[1..], date), DayPiece(e, date));
    }
  }

  lemma Regroup<T>(a: seq<T>, b: seq<T>, c: seq<T>)
    ensures a + (b + c) == (a + b) + c
  {
  }

  /** A day with no entries has nothing listed under it. */
  lemma EntriesOnOtherDay(entries: seq<Entry>, date: string)
    requires date !in DatesOf(entries)
    ensures EntriesOn(entries, date) == []
  {
    if EntriesOn(entries, date) != [] {
      var e := EntriesOn(entries, date)[0];
      EntriesOnMembers(entries, date, e);
    }
  }

  /** The group collected for day `d` so far: nothing when the day has no group yet. */
  function GroupOf(byDate: map<string, seq<Entry>>, d: string): seq<Entry> {
    if d in byDate then byDate[d] else []
  }

  /** A day is one the entries fall on exactly when some of them are listed for it. */
  lemma DatesOfListed(entries: seq<Entry>, d: string)
    ensures d in DatesOf(entries) <==> EntriesOn(entries, d) != []
  {
    if d in DatesOf(entries) {
      var e :| e in entries && DateKey(e.timestamp) == d;
      EntriesOnMembers(entries, d, e);
    } else {
      EntriesOnOtherDay(entries, d);
    }
  }

  /** Appending an entry to its day's group keeps every group equal to that day's entries. */
  lemma GroupStep(byDate: map<string, seq<Entry>>, entries: seq<Entry>, e: Entry)
    requires forall d :: GroupOf(byDate, d) == EntriesOn(entries, d)
    ensures var date := DateKey(e.timestamp);
      forall d :: GroupOf(byDate[date := GroupOf(byDate, date) + [e]], d) == EntriesOn(entries + [e], d)
  {
    forall d
      ensures GroupOf(byDate[DateKey(e.timestamp) := GroupOf(byDate, DateKey(e.timestamp)) + [e]], d)
           == EntriesOn(entries + [e], d)
    {
      EntriesOnSnoc(entries, e, d);
    }
  }

  /**
   * The grouping loop: entries collected per day, in their original order.
   */
  method GroupByDate(entries: seq<Entry>) returns (byDate: map<string, seq<Entry>>)
    ensures byDate.Keys == DatesOf(entries)
    ensures forall d | d in byDate :: byDate[d] == EntriesOn(entries, d)
  {
    byDate := map[];
    var i := 0;
    while i < |entries|
      invariant 0 <= i <= |entries|
      invariant forall d :: GroupOf(byDate, d) == EntriesOn(entries[..i], d)
      invariant forall d | d in byDate :: byDate[d] != []
    {
      var entry := entries[i];
      var date := DateKey(entry.timestamp);
      assert entries[..i + 1] == entries[..i] + [entry];
      GroupStep(byDate, entries[..i], entry);
      var day := if date in byDate then byDate[date] else [];
      byDate := byDate[date := day + [entry]];
      i := i + 1;
    }
    assert entries[..i] == entries;
    forall d
      ensures d in byDate <==> d in DatesOf(entries)
    {
      DatesOfListed(entries, d);
    }
  }

  /** A sequence with every element at most once has no repeated position. */
  lemma NoRepeats<T>(s: seq<T>, i: nat, j: nat)
    requires forall x :: multiset(s)[x] <= 1
    requires i < j < |s|
    ensures s[i] != s[j]
  {
    var x := s[j];
    assert s == s[..j] + s[j..];
    assert multiset(s)[x] == multiset(s[..j])[x] + multiset(s[j..])[x];
    assert s[j..][0] == x;
    assert x in multiset(s[j..]);
    assert s[..j][i] == s[i];
    assert s[i] in multiset(s[..j]);
  }

  /** The map's days listed once each, in whatever order the map yields them. */
  method Keys(byDate: map<string, seq<Entry>>) returns (dates: seq<string>)
    ensures forall d :: d in dates <==> d in byDate
    ensures forall x :: multiset(dates)[x] <= 1
  {
    dates := [];
    var remaining := byDate.Keys;
    while remaining != {}
      invariant remaining <= byDate.Keys
      invariant forall d :: d in dates <==> d in byDate && d !in remaining
      invariant forall x :: multiset(dates)[x] <= 1
      decreases |remaining|
    {
      var d :| d in remaining;
      assert multiset(dates)[d] == 0;
      dates := dates + [d];
      remaining := remaining - {d};
    }
  }

  /** Distinct dates sorted by StrLess stand in strictly ascending order. */
  lemma StrictlyAscending(dates: seq<string>)
    requires Sorted(dates, StrLess)
    requires forall x :: multiset(dates)[x] <= 1
    ensures forall i, j | 0 <= i < j < |dates| :: StrLess(dates[i], dates[j])
  {
    forall i, j | 0 <= i < j < |dates|
      ensures StrLess(dates[i], dates[j])
    {
      NoRepeats(dates, i, j);
      StrLessTotal(dates[i], dates[j]);
      assert !StrLess(dates[j], dates[i]);
    }
  }

  lemma EarlierOrder(entries: seq<Entry>)
    ensures Asymmetric(Earlier) && NotLessTransitive(Earlier)
    ensures Sorted(entries, Earlier) ==>
      forall j, k | 0 <= j < k < |entries| :: entries[j].timestamp <= entries[k].timestamp
  {
    if Sorted(entries, Earlier) {
      forall j, k | 0 <= j < k < |entries|
        ensures entries[j].timestamp <= entries[k].timestamp
      {
        assert !Earlier(entries[k], entries[j]);
      }
    }
  }

  /** The sections written for the sorted days, each day's entries sorted earliest first. */
  method WriteSections(byDate: map<string, seq<Entry>>, dates: seq<string>) returns (sections: seq<Section>)
    requires forall i | 0 <= i < |dates| :: dates[i] in byDate
    ensures |sections| == |dates|
    ensures forall i | 0 <= i < |sections| :: sections[i].date == dates[i]
    ensures forall i | 0 <= i < |sections| :: multiset(sections[i].entries) == multiset(byDate[dates[i]])
    ensures forall i | 0 <= i < |sections| :: forall j, k | 0 <= j < k < |sections[i].entries| ::
      sections[i].entries[j].timestamp <= sections[i].entries[k].timestamp
  {
    sections := [];
    var i := 0;
    while i < |dates|
      invariant 0 <= i <= |dates| && |sections| == i
      invariant forall n | 0 <= n < i :: sections[n].date == dates[n]
      invariant forall n | 0 <= n < i :: multiset(sections[n].entries) == multiset(byDate[dates[n]])
      invariant forall n | 0 <= n < i :: forall j, k | 0 <= j < k < |sections[n].entries| ::
        sections[n].entries[j].timestamp <= sections[n].entries[k].timestamp
    {
      EarlierOrder([]);
      var sorted := SortedCopy(byDate[dates[i]], Earlier);
      EarlierOrder(sorted);
      sections := sections + [Section(dates[i], sorted)];
      i := i + 1;
    }
  }

  /** A permutation of a list of keys holds the same keys. */
  lemma SameKeys(dates: seq<string>, sorted: seq<string>)
    requires multiset(sorted) == multiset(dates)
    ensures forall d :: d in sorted <==> d in dates
  {
    forall d
      ensures d in sorted <==> d in dates
    {
      assert d in sorted <==> d in multiset(sorted);
      assert d in dates <==> d in multiset(dates);
    }
  }

  /** Sections written for strictly ascending days, each holding its day's entries in time order, lay out the entries. */
  lemma SectionsLayOut(entries: seq<Entry>, byDate: map<string, seq<Entry>>, dates: seq<string>,
                       sections: seq<Section>)
    requires byDate.Keys == DatesOf(entries)
    requires forall d | d in byDate :: byDate[d] == EntriesOn(entries, d)
    requires forall d :: d in dates <==> d in byDate
    requires forall i, j | 0 <= i < j < |dates| :: StrLess(dates[i], dates[j])
    requires |sections| == |dates|
    requires forall i | 0 <= i < |sections| :: sections[i].date == dates[i]
    requires forall i | 0 <= i < |sections| :: multiset(sections[i].entries) == multiset(byDate[dates[i]])
    requires forall i | 0 <= i < |sections| :: forall j, k | 0 <= j < k < |sections[i].entries| ::
      sections[i].entries[j].timestamp <= sections[i].entries[k].timestamp
    ensures Layout(entries, sections)
  {
    assert Headings(sections) == dates;
  }

  /** The dated part of the document: the entries grouped by day, days sorted, each day sorted by time. */
  method DaySections(entries: seq<Entry>) returns (sections: seq<Section>)
    ensures Layout(entries, sections)
  {
    var byDate := GroupByDate(entries);
    var dates := Keys(byDate);
    StrLessOrder();
    var sortedDates := SortedCopy(dates, StrLess);
    StrictlyAscending(sortedDates);
    SameKeys(dates, sortedDates);
    sections := WriteSections(byDate, sortedDates);
    SectionsLayOut(entries, byDate, sortedDates, sections);
  }

  /**
   * formatTaskAsMarkdown: the Priority line only for a set priority, the
   * Tags line only for a non-empty tag list, the Issue line only for an
   * issue URL, then the entries laid out by day.
   */
  method FormatTask(task: Task) returns (doc: TaskDoc)
    ensures doc.showPriority <==> task.priority != ""
    ensures doc.showTags <==> |task.tags| > 0
    ensures doc.showIssue <==> task.issueUrl != ""
    ensures Layout(task.entries, doc.sections)
  {
    var sections := DaySections(task.entries);
    doc := TaskDoc(task.priority != "", |task.tags| > 0, task.issueUrl != "", sections);
  }

  /**
   * Every entry of the task appears under exactly one heading, the one of
   * its own day, and every day it has entries on has a heading.
   */
  lemma EachEntryUnderItsDay(entries: seq<Entry>, sections: seq<Section>, e: Entry)
    requires Layout(entries, sections)
    requires e in entries
    ensures exists i | 0 <= i < |sections| :: sections[i].date == DateKey(e.timestamp)
    ensures forall i | 0 <= i < |sections| :: e in sections[i].entries <==> sections[i].date == DateKey(e.timestamp)
  {
    assert DateKey(e.timestamp) in DatesOf(entries);
    forall i | 0 <= i < |sections|
      ensures e in sections[i].entries <==> sections[i].date == DateKey(e.timestamp)
    {
      EntriesOnMembers(entries, sections[i].date, e);
      assert e in sections[i].entries <==> e in multiset(sections[i].entries);
    }
  }

  /** No heading is repeated, since the headings are strictly ascending. */
  lemma HeadingsDistinct(entries: seq<Entry>, sections: seq<Section>)
    requires Layout(entries, sections)
    ensures forall i, j | 0 <= i < j < |sections| :: sections[i].date != sections[j].date
  {
    forall i, j | 0 <= i < j < |sections|
      ensures sections[i].date != sections[j].date
    {
      StrLessIrreflexive(sections[i].date);
    }
  }
}
