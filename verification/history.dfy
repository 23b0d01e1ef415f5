/** Rebuilding the 15 newest days of an account's history (`generatePointsHistory`).
    Days are integer day numbers: `today - i` is the day `i` days ago. */
module History {
  import opened Seqs
  import opened Ledger

  const DaysToShow := 15
  const PointsPerDay := 16

  /** `savedHistoryMap`: each day of the old history mapped to its points; when a day occurs
      more than once, the later (older) entry overwrites the earlier one. */
  function SavedPoints(h: seq<DailyPoint>): map<int, int> {
    if |h| == 0 then map[] else SavedPoints(h[..|h| - 1])[h[|h| - 1].date := h[|h| - 1].points]
  }

  /** The saved map holds exactly the days of the history. */
  lemma {:induction false} SavedDays(h: seq<DailyPoint>)
    ensures forall d :: d in SavedPoints(h) <==> exists k :: 0 <= k < |h| && h[k].date == d
  {
    if |h| > 0 {
      var init := h[..|h| - 1];
      SavedDays(init);
      forall d | d in SavedPoints(h)
        ensures exists k :: 0 <= k < |h| && h[k].date == d
      {
        if d == h[|h| - 1].date {
          assert h[|h| - 1].date == d;
        } else {
          assert SavedPoints(h) == SavedPoints(init)[h[|h| - 1].date := h[|h| - 1].points];
          assert d in SavedPoints(init);
          var k :| 0 <= k < |init| && init[k].date == d;
          assert h[k].date == d;
        }
      }
      forall d | exists k :: 0 <= k < |h| && h[k].date == d
        ensures d in SavedPoints(h)
      {
        var k :| 0 <= k < |h| && h[k].date == d;
        if k < |init| {
          assert init[k].date == d;
        }
      }
    }
  }

  /** A day's saved value is the one its last occurrence carries. */
  lemma {:induction false} SavedPointsLastWins(h: seq<DailyPoint>)
    ensures forall k :: 0 <= k < |h| && (forall k' :: k < k' < |h| ==> h[k'].date != h[k].date) ==>
              h[k].date in SavedPoints(h) && SavedPoints(h)[h[k].date] == h[k].points
  {
    if |h| > 0 {
      var init := h[..|h| - 1];
      SavedPointsLastWins(init);
      forall k | 0 <= k < |h| && (forall k' :: k < k' < |h| ==> h[k'].date != h[k].date)
        ensures h[k].date in SavedPoints(h) && SavedPoints(h)[h[k].date] == h[k].points
      {
        if k < |init| {
          assert init[k] == h[k];
          assert forall k' :: k < k' < |init| ==> init[k'].date != init[k].date by {
            forall k' | k < k' < |init|
              ensures init[k'].date != init[k].date
            {
              assert init[k'] == h[k'];
            }
          }
          assert h[|h| - 1].date != h[k].date;
        }
      }
    }
  }

  /** The points of a day that was not saved: the daily accrual from the start day on, 0 before it. */
  function DefaultPoints(date: int, startDay: int): int {
    if date >= startDay then PointsPerDay else 0
  }

  /** The points the regenerated history gives a day: the saved value if there is one. */
  function DayPoints(saved: map<int, int>, date: int, startDay: int): int {
    if date in saved then saved[date] else DefaultPoints(date, startDay)
  }

  /** `history.findIndex(day => day.date === date)`: the first index with that day, or -1. */
  function FindDate(h: seq<DailyPoint>, date: int): (r: int)
    ensures -1 <= r < |h|
    ensures r == -1 <==> forall k :: 0 <= k < |h| ==> h[k].date != date
    ensures r >= 0 ==> h[r].date == date && forall k :: 0 <= k < r ==> h[k].date != date
  {
    if |h| == 0 then -1
    else if h[0].date == date then 0
    else
      var r := FindDate(h[1..], date);
      assert forall k :: 1 <= k < |h| ==> h[k] == h[1..][k - 1];
      if r == -1 then -1 else r + 1
  }

  /** The shape of a regenerated history: the fifteen days from today backwards, each with
      its saved points or, failing that, the default for that day. */
  predicate Generated(previous: seq<DailyPoint>, today: int, startDay: int, h: seq<DailyPoint>) {
    && |h| == DaysToShow
    && forall i :: 0 <= i < |h| ==>
         h[i].date == today - i && h[i].points == DayPoints(SavedPoints(previous), today - i, startDay)
  }

  /** The fifteen days from today backwards, each with its points: lines 348-383 of the loop. */
  method WindowDays(saved: map<int, int>, today: int, startDay: int) returns (raw: seq<DailyPoint>)
    ensures |raw| == DaysToShow
    ensures forall k :: 0 <= k < |raw| ==>
              raw[k].date == today - k && raw[k].points == DayPoints(saved, today - k, startDay)
  {
    raw := [];
    var i := 0;
    while i < DaysToShow
      invariant 0 <= i <= DaysToShow && |raw| == i
      invariant forall k :: 0 <= k < i ==>
                  raw[k].date == today - k && raw[k].points == DayPoints(saved, today - k, startDay)
    {
      var date := today - i;
      if date in saved {
        raw := raw + [DailyPoint(date, saved[date], 0)];
      } else {
        var points := if date >= startDay then PointsPerDay else 0;
        raw := raw + [DailyPoint(date, points, 0)];
      }
      i := i + 1;
    }
  }

  /** Lines 386-404: today's entry is looked up and, when today was not saved, reset to the
      default; an entry for today is inserted at the front when none exists. */
  method EnsureToday(raw: seq<DailyPoint>, saved: map<int, int>, today: int, startDay: int)
    returns (days: seq<DailyPoint>)
    requires |raw| == DaysToShow
    requires forall k :: 0 <= k < |raw| ==>
               raw[k].date == today - k && raw[k].points == DayPoints(saved, today - k, startDay)
    ensures days == raw
  {
    days := raw;
    var todayIndex := FindDate(days, today);
    if todayIndex != -1 {
      assert todayIndex == 0;
      if today !in saved {
        days := days[todayIndex := days[todayIndex].(points := DefaultPoints(today, startDay))];
      }
    } else {
      // Today's date is read once, so entry 0 carries it and the insert-at-front branch never runs.
      assert false;
    }
  }

  /** `generatePointsHistory`: one entry per day from today back fifteen days, then today's
      entry forced to exist, then the running totals rebuilt. */
  method GeneratePointsHistory(previous: seq<DailyPoint>, today: int, startDay: int)
    returns (history: seq<DailyPoint>, total: int)
    ensures Generated(previous, today, startDay, history)
    ensures SuffixSums(history)
    ensures total == Sum(Points(history)) == Balance(history)
  {
    var saved := SavedPoints(previous);
    var raw := WindowDays(saved, today, startDay);
    raw := EnsureToday(raw, saved, today, startDay);
    history, total := Recalculate(raw);
    WindowIsGenerated(previous, today, startDay, raw, history);
  }

  /** Rebuilding the running totals of the window keeps its days and points. */
  lemma WindowIsGenerated(previous: seq<DailyPoint>, today: int, startDay: int, raw: seq<DailyPoint>, h: seq<DailyPoint>)
    requires |raw| == DaysToShow
    requires forall k :: 0 <= k < |raw| ==>
               raw[k].date == today - k && raw[k].points == DayPoints(SavedPoints(previous), today - k, startDay)
    requires SameDays(raw, h)
    ensures Generated(previous, today, startDay, h)
    ensures Points(h) == Points(raw)
  {
  }

  /** In a regenerated history every day occurs once, so it is its own saved map. */
  lemma SavedPointsOfGenerated(previous: seq<DailyPoint>, today: int, startDay: int, h: seq<DailyPoint>, i: nat)
    requires Generated(previous, today, startDay, h)
    requires i < |h|
    ensures today - i in SavedPoints(h) && SavedPoints(h)[today - i] == h[i].points
  {
    SavedPointsLastWins(h);
    assert forall k' :: i < k' < |h| ==> h[k'].date != h[i].date;
  }

  /** Regenerating a regenerated history on the same day and start date keeps every day's points. */
  lemma RegenerationIsStable(previous: seq<DailyPoint>, today: int, startDay: int, h1: seq<DailyPoint>, h2: seq<DailyPoint>)
    requires Generated(previous, today, startDay, h1)
    requires Generated(h1, today, startDay, h2)
    ensures Points(h2) == Points(h1)
  {
    forall i | 0 <= i < |h1|
      ensures h2[i].points == h1[i].points
    {
      SavedPointsOfGenerated(previous, today, startDay, h1, i);
    }
  }

  /** A day in the window keeps the points the old history last recorded for it. */
  lemma SavedDayKept(previous: seq<DailyPoint>, today: int, startDay: int, h: seq<DailyPoint>, k: nat)
    requires Generated(previous, today, startDay, h)
    requires k < |previous| && 0 <= today - previous[k].date < DaysToShow
    requires forall k' :: k < k' < |previous| ==> previous[k'].date != previous[k].date
    ensures h[today - previous[k].date].points == previous[k].points
  {
    SavedPointsLastWins(previous);
  }
}
