/** The points ledger of one account: a newest-first list of days, each carrying a running
    total of itself and every older day. */
module Ledger {
  import opened Seqs

  /** One day of the history. `date` is the day number (larger is newer); the source keys
      days by their locale date string, which is one-to-one with the day. */
  datatype DailyPoint = DailyPoint(date: int, points: int, cumulativePoints: int)

  /** The `points` column. */
  function Points(h: seq<DailyPoint>): (ps: seq<int>)
    ensures |ps| == |h|
    ensures forall i :: 0 <= i < |h| ==> ps[i] == h[i].points
  {
    seq(|h|, i requires 0 <= i < |h| => h[i].points)
  }

  /** Every day's running total is its own points plus the running total of the day before it;
      the oldest day's running total is its own points. */
  predicate SuffixSums(h: seq<DailyPoint>) {
    && (forall i :: 0 <= i < |h| - 1 ==> h[i].cumulativePoints == h[i].points + h[i + 1].cumulativePoints)
    && (|h| > 0 ==> h[|h| - 1].cumulativePoints == h[|h| - 1].points)
  }

  /** Same days with the same points, in the same order; only running totals may differ. */
  predicate SameDays(a: seq<DailyPoint>, b: seq<DailyPoint>) {
    |a| == |b| && forall i :: 0 <= i < |a| ==> a[i].date == b[i].date && a[i].points == b[i].points
  }

  /** The account balance shown: the newest day's running total, 0 for an empty history. */
  function Balance(h: seq<DailyPoint>): int {
    if |h| == 0 then 0 else h[0].cumulativePoints
  }

  lemma SumFrom(ps: seq<int>, i: nat)
    requires i < |ps|
    ensures Sum(ps[i..]) == ps[i] + Sum(ps[i + 1..])
  {
    assert ps[i..][1..] == ps[i + 1..];
  }

  /** `recalculateCumulativePoints`: walks from the oldest day to the newest, accumulating. */
  method Recalculate(history: seq<DailyPoint>) returns (r: seq<DailyPoint>, total: int)
    ensures SameDays(history, r)
    ensures forall i :: 0 <= i < |r| ==> r[i].cumulativePoints == Sum(Points(history)[i..])
    ensures SuffixSums(r)
    ensures total == Sum(Points(history)) == Balance(r)
  {
    var cumulative := 0;
    r := history;
    var i := |r|;
    while i > 0
      invariant 0 <= i <= |r|
      invariant SameDays(history, r)
      invariant cumulative == Sum(Points(history)[i..])
      invariant forall k :: i <= k < |r| ==> r[k].cumulativePoints == Sum(Points(history)[k..])
    {
      i := i - 1;
      SumFrom(Points(history), i);
      cumulative := cumulative + r[i].points;
      r := r[i := r[i].(cumulativePoints := cumulative)];
    }
    total := cumulative;
    forall i | 0 <= i < |r| - 1
      ensures r[i].cumulativePoints == r[i].points + r[i + 1].cumulativePoints
    {
      SumFrom(Points(history), i);
    }
    if |r| > 0 {
      SumFrom(Points(history), |r| - 1);
    }
  }

  /** What an edit of one day's points does to the ledger. */
  datatype EditOutcome =
    | Unchanged                                           // the new value was NaN: nothing happens
    | Edited(history: seq<DailyPoint>, total: int)        // the recalculated ledger and balance
    | NoSuchDay                                           // `newHistory[index]` is undefined: a TypeError

  /** `updateDayPoints`: `NaN` (modelled as `None`) is ignored; otherwise the day at `index`
      gets the new points and the running totals are rebuilt. */
  method UpdateDayPoints(history: seq<DailyPoint>, index: int, newPoints: Option<int>)
    returns (outcome: EditOutcome)
    ensures newPoints.None? ==> outcome == Unchanged
    ensures newPoints.Some? && !(0 <= index < |history|) ==> outcome == NoSuchDay
    ensures newPoints.Some? && 0 <= index < |history| ==>
              && outcome.Edited?
              && |outcome.history| == |history|
              && outcome.history[index].points == newPoints.value
              && (forall k :: 0 <= k < |history| ==>
                    outcome.history[k].date == history[k].date
                    && (k != index ==> outcome.history[k].points == history[k].points))
              && SuffixSums(outcome.history)
              && outcome.total == Balance(outcome.history)
              && outcome.total == Sum(Points(history)) - history[index].points + newPoints.value
  {
    if newPoints.None? {
      return Unchanged;
    }
    if !(0 <= index < |history|) {
      return NoSuchDay;
    }
    var edited := history[index := history[index].(points := newPoints.value)];
    assert Points(edited) == Points(history)[index := newPoints.value];
    SumUpdate(Points(history), index, newPoints.value);
    var r, total := Recalculate(edited);
    return Edited(r, total);
  }

  /** The grand total is the sum of the points column whatever order the days come in. */
  lemma BalanceIgnoresOrder(a: seq<DailyPoint>, b: seq<DailyPoint>)
    requires SuffixSums(a) && SuffixSums(b)
    requires multiset(Points(a)) == multiset(Points(b))
    ensures Balance(a) == Balance(b)
  {
    SuffixSumsTotal(a, 0);
    SuffixSumsTotal(b, 0);
    SumPermutation(Points(a), Points(b));
    assert Points(a)[0..] == Points(a);
    assert Points(b)[0..] == Points(b);
  }

  /** Any ledger that keeps the running-total invariant has, at each day, the sum of that day
      and every older one; so its balance is the sum of all points. */
  lemma {:induction false} SuffixSumsTotal(h: seq<DailyPoint>, i: nat)
    requires SuffixSums(h)
    requires i <= |h|
    ensures i < |h| ==> h[i].cumulativePoints == Sum(Points(h)[i..])
    ensures i == 0 ==> Balance(h) == Sum(Points(h))
    decreases |h| - i
  {
    if i < |h| {
      SuffixSumsTotal(h, i + 1);
      SumFrom(Points(h), i);
      if i + 1 == |h| {
        assert Points(h)[i + 1..] == [];
      }
    }
    if i == 0 && |h| > 0 {
      assert Points(h)[0..] == Points(h);
    }
  }
}
