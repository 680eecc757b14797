/**
 * get_one_on_one_history: the most recent one-on-one meetings, newest date
 * first, at most `limit` of them.
 */
module Meetings {
  import opened Wrappers
  import opened Text
  import opened Records
  import opened Sorting

  const DefaultHistoryLimit: nat := 10

  /** The limit: a positive integer argument (with no cap), otherwise 10. */
  function HistoryLimit(arg: string): (limit: nat)
    ensures limit >= 1
    ensures Atoi(arg).Some? && Atoi(arg).value > 0 ==> limit == Atoi(arg).value
    ensures (Atoi(arg).None? || Atoi(arg).value <= 0) ==> limit == DefaultHistoryLimit
  {
    if arg == "" then DefaultHistoryLimit
    else match Atoi(arg)
      case Some(n) => if n > 0 then n else DefaultHistoryLimit
      case None => DefaultHistoryLimit
  }

  /** The sort order: the later date string first (Go compares the strings). */
  function LaterDate(a: OneOnOne, b: OneOnOne): bool {
    StrLess(b.date, a.date)
  }

  lemma LaterDateOrder()
    ensures Asymmetric(LaterDate) && NotLessTransitive(LaterDate)
  {
    forall a: OneOnOne, b: OneOnOne | LaterDate(a, b)
      ensures !LaterDate(b, a)
    {
      StrLessAsymmetric(b.date, a.date);
    }
    forall a: OneOnOne, b: OneOnOne, c: OneOnOne | !LaterDate(a, b) && !LaterDate(b, c)
      ensures !LaterDate(a, c)
    {
      StrNotLessTransitive(c.date, b.date, a.date);
    }
  }

  /** Sorted by LaterDate: no date is later than one before it. */
  lemma LaterDateSorted(s: seq<OneOnOne>)
    requires Sorted(s, LaterDate)
    ensures forall i, j | 0 <= i < j < |s| :: !StrLess(s[i].date, s[j].date)
  {
    forall i, j | 0 <= i < j < |s|
      ensures !StrLess(s[i].date, s[j].date)
    {
      assert !LaterDate(s[j], s[i]);
    }
  }

  /** The `limit` first meetings of a list sorted newest first leave out none newer than they. */
  lemma PrefixIsNewest(sorted: seq<OneOnOne>, k: nat)
    requires k <= |sorted|
    requires forall i, j | 0 <= i < j < |sorted| :: !StrLess(sorted[i].date, sorted[j].date)
    ensures multiset(sorted[..k]) + multiset(sorted[k..]) == multiset(sorted)
    ensures forall i, m | 0 <= i < k && m in multiset(sorted[k..]) :: !StrLess(sorted[..k][i].date, m.date)
  {
    assert sorted == sorted[..k] + sorted[k..];
    forall i, m | 0 <= i < k && m in multiset(sorted[k..])
      ensures !StrLess(sorted[..k][i].date, m.date)
    {
      var j :| 0 <= j < |sorted[k..]| && sorted[k..][j] == m;
      assert sorted[k + j] == m && sorted[..k][i] == sorted[i];
    }
  }

  /**
   * The history shown: the meetings sorted by date, newest first, cut to the
   * limit. Every meeting left out has a date no later than any shown.
   */
  method History(meetings: seq<OneOnOne>, limitArg: string) returns (shown: seq<OneOnOne>)
    ensures |shown| == if |meetings| > HistoryLimit(limitArg) then HistoryLimit(limitArg) else |meetings|
    ensures forall i, j | 0 <= i < j < |shown| :: !StrLess(shown[i].date, shown[j].date)
    ensures multiset(shown) <= multiset(meetings)
    ensures forall i, m | 0 <= i < |shown| && m in multiset(meetings) - multiset(shown) ::
      !StrLess(shown[i].date, m.date)
  {
    var limit := HistoryLimit(limitArg);
    LaterDateOrder();
    var sorted := SortedCopy(meetings, LaterDate);
    LaterDateSorted(sorted);
    assert |sorted| == |multiset(sorted)| == |meetings|;
    var k := if |sorted| > limit then limit else |sorted|;
    PrefixIsNewest(sorted, k);
    shown := sorted[..k];
    assert multiset(meetings) - multiset(shown) == multiset(sorted[k..]);
  }
}
