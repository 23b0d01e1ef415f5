/** The days-to-target projection: a day-by-day simulation in which every future day earns
    16 points and only the newest 15 daily values count. */
module Projection {
  import opened Seqs
  import opened Ledger
  import JsText

  const AccrualPerDay := 16
  const ExpiryWindow := 15
  /** The simulation gives up once the day counter passes this. */
  const Horizon := 1000

  /** `pointsHistory.map(day => day.points).slice(0, 15)`: the first fifteen entries in list order. */
  function Seed(history: seq<DailyPoint>): (seed: seq<int>)
    ensures |seed| == Min(ExpiryWindow, |history|)
    ensures forall i :: 0 <= i < |seed| ==> seed[i] == history[i].points
  {
    Take(Points(history), ExpiryWindow)
  }

  /** One simulated day on the queue: `unshift(16)`, then `pop()` once it is longer than the window. */
  function Push(queue: seq<int>): seq<int> {
    var pushed := [AccrualPerDay] + queue;
    if |pushed| > ExpiryWindow then pushed[..|pushed| - 1] else pushed
  }

  /** A push puts one day of accrual in front and keeps the newest values behind it: all of the
      queue while it fits the window, otherwise all but its oldest value. */
  lemma PushShape(queue: seq<int>)
    ensures |Push(queue)| <= |queue| + 1
    ensures |queue| <= ExpiryWindow ==> |Push(queue)| == Min(ExpiryWindow, |queue| + 1)
    ensures |Push(queue)| > 0 && Push(queue)[0] == AccrualPerDay
    ensures Push(queue)[1..] == queue[..|Push(queue)| - 1]
  {
    var pushed := [AccrualPerDay] + queue;
    assert pushed[1..] == queue;
  }

  /** The queue after `j` simulated days: the seed pushed `j` times. */
  function QueueAfter(seed: seq<int>, j: nat): (q: seq<int>)
    requires |seed| <= ExpiryWindow
    ensures |q| == Min(ExpiryWindow, j + |seed|)
  {
    if j == 0 then seed else Push(QueueAfter(seed, j - 1))
  }

  /** The queue in closed form: `j` days of accrual in front of the seed, cut to the window. */
  lemma {:induction false} QueueAfterClosedForm(seed: seq<int>, j: nat)
    requires |seed| <= ExpiryWindow
    ensures QueueAfter(seed, j) == (Repeat(AccrualPerDay, j) + seed)[..Min(ExpiryWindow, j + |seed|)]
  {
    if j == 0 {
      assert Repeat(AccrualPerDay, 0) + seed == seed;
    } else {
      QueueAfterClosedForm(seed, j - 1);
      var all := Repeat(AccrualPerDay, j - 1) + seed;
      var all' := Repeat(AccrualPerDay, j) + seed;
      assert all' == [AccrualPerDay] + all;
      var n := Min(ExpiryWindow, j - 1 + |seed|);
      assert [AccrualPerDay] + all[..n] == all'[..n + 1];
    }
  }

  /** The running total after `j` simulated days: the caller's total before the first day,
      the sum of the queue afterwards. */
  function Level(seed: seq<int>, total: int, j: nat): int
    requires |seed| <= ExpiryWindow
  {
    if j == 0 then total else Sum(QueueAfter(seed, j))
  }

  /** Where the simulation loop stopped: the value of `days`, and whether it stopped at the bound. */
  datatype Forecast = Forecast(days: int, cutOff: bool)

  /** The loop of lines 298-320 from a given iteration on: `days` counts iterations from 1,
      `current` is `currentTotal`. Each iteration increments `days` before it simulates a day,
      and checks the bound only after recomputing the total. */
  function Run(seed: seq<int>, total: int, queue: seq<int>, days: int, current: int, target: int): (f: Forecast)
    requires |seed| <= ExpiryWindow
    requires 1 <= days <= Horizon
    requires queue == QueueAfter(seed, days - 1)
    requires current == Level(seed, total, days - 1)
    ensures f.cutOff ==> f.days == Horizon + 1
    ensures !f.cutOff ==> days <= f.days <= Horizon
    decreases Horizon - days
  {
    if target <= current then Forecast(days, false)
    else
      var queue' := Push(queue);
      // The reduce over the queue is its sum (`Seqs.ReduceIsSum`).
      var current' := Sum(queue');
      if days + 1 > Horizon then Forecast(days + 1, true)
      else Run(seed, total, queue', days + 1, current', target)
  }

  /** Where the loop stops without the cut-off, the total has reached the target. */
  lemma {:induction false} RunReaches(seed: seq<int>, total: int, queue: seq<int>, days: int, current: int, target: int)
    requires |seed| <= ExpiryWindow
    requires 1 <= days <= Horizon
    requires queue == QueueAfter(seed, days - 1)
    requires current == Level(seed, total, days - 1)
    ensures !Run(seed, total, queue, days, current, target).cutOff ==>
              target <= Level(seed, total, Run(seed, total, queue, days, current, target).days - 1)
    decreases Horizon - days
  {
    if target > current && days + 1 <= Horizon {
      var queue' := Push(queue);
      assert Sum(queue') == Level(seed, total, days);
      RunReaches(seed, total, queue', days + 1, Sum(queue'), target);
    }
  }

  /** Every total the loop passes before it stops falls short of the target; a cut-off means
      every total up to the bound does. */
  lemma {:induction false} RunFallsShort(seed: seq<int>, total: int, queue: seq<int>, days: int, current: int, target: int)
    requires |seed| <= ExpiryWindow
    requires 1 <= days <= Horizon
    requires queue == QueueAfter(seed, days - 1)
    requires current == Level(seed, total, days - 1)
    ensures var f := Run(seed, total, queue, days, current, target);
            forall j :: days - 1 <= j < f.days - 1 ==> Level(seed, total, j) < target
    decreases Horizon - days
  {
    if target > current && days + 1 <= Horizon {
      var queue' := Push(queue);
      assert Sum(queue') == Level(seed, total, days);
      RunFallsShort(seed, total, queue', days + 1, Sum(queue'), target);
      var f := Run(seed, total, queue', days + 1, Sum(queue'), target);
      BelowFrom(seed, total, target, days - 1, f.days - 1);
    }
  }

  /** A total below the target in front of a run of totals below it extends the run by one. */
  lemma BelowFrom(seed: seq<int>, total: int, target: int, a: nat, b: int)
    requires |seed| <= ExpiryWindow
    requires Level(seed, total, a) < target
    requires forall j :: a < j < b ==> Level(seed, total, j) < target
    ensures forall j :: a <= j < b ==> Level(seed, total, j) < target
  {
  }

  /** The whole simulation: the queue seeded from the history, the counter at 1 and the
      running total at the caller's total. The result is the first number of simulated days
      whose total reaches the target, plus one; or the cut-off when none up to day 999 does. */
  function Simulate(history: seq<DailyPoint>, total: int, target: int): (f: Forecast)
    ensures f.cutOff ==> f.days == Horizon + 1
    ensures !f.cutOff ==> 1 <= f.days <= Horizon
  {
    var seed := Seed(history);
    Run(seed, total, seed, 1, total, target)
  }

  /** The simulation's answer in terms of the totals it passes through: cut off exactly when no
      day before the bound reaches the target, and otherwise stopped at the first one that does. */
  lemma SimulateMeaning(history: seq<DailyPoint>, total: int, target: int)
    ensures var f := Simulate(history, total, target);
            && (f.cutOff ==> forall j :: 0 <= j < Horizon ==> Level(Seed(history), total, j) < target)
            && (!f.cutOff ==>
                  && target <= Level(Seed(history), total, f.days - 1)
                  && forall j :: 0 <= j < f.days - 1 ==> Level(Seed(history), total, j) < target)
  {
    var seed := Seed(history);
    RunReaches(seed, total, seed, 1, total, target);
    RunFallsShort(seed, total, seed, 1, total, target);
  }

  lemma {:induction false} RepeatPrefix(v: int, n: nat, m: nat)
    requires m <= n
    ensures Repeat(v, n)[..m] == Repeat(v, m)
  {
  }

  /** After fifteen simulated days the queue is fifteen days of accrual, whatever the seed: 240 points. */
  lemma QueueSaturates(seed: seq<int>, total: int, j: nat)
    requires |seed| <= ExpiryWindow
    requires j >= ExpiryWindow
    ensures QueueAfter(seed, j) == Repeat(AccrualPerDay, ExpiryWindow)
    ensures Level(seed, total, j) == AccrualPerDay * ExpiryWindow == 240
  {
    QueueAfterClosedForm(seed, j);
    assert (Repeat(AccrualPerDay, j) + seed)[..ExpiryWindow] == Repeat(AccrualPerDay, j)[..ExpiryWindow];
    RepeatPrefix(AccrualPerDay, j, ExpiryWindow);
    SumRepeat(AccrualPerDay, ExpiryWindow);
  }

  /** With a target above the current total, the simulation either stops within sixteen days
      or never: it is cut off exactly when none of the first fifteen simulated days reaches the target. */
  lemma SimulateBounds(history: seq<DailyPoint>, total: int, target: int)
    requires total < target
    ensures Simulate(history, total, target).cutOff <==>
              forall j :: 1 <= j <= ExpiryWindow ==> Level(Seed(history), total, j) < target
    ensures !Simulate(history, total, target).cutOff ==> 2 <= Simulate(history, total, target).days <= 16
  {
    var seed := Seed(history);
    var f := Simulate(history, total, target);
    SimulateMeaning(history, total, target);
    QueueSaturates(seed, total, ExpiryWindow);
    forall j | ExpiryWindow <= j
      ensures Level(seed, total, j) == Level(seed, total, ExpiryWindow)
    {
      QueueSaturates(seed, total, j);
    }
  }

  /** The numeric part of the effect (lines 281-323) for a parsed target: 0 when the total
      already reaches it, otherwise the simulated count, or `None` when the simulation is cut off. */
  function DaysForTarget(history: seq<DailyPoint>, total: int, target: int): (r: Option<int>)
    ensures target <= total ==> r == Some(0)
    ensures target > total ==>
              && (r.None? <==> forall j :: 1 <= j <= ExpiryWindow ==> Level(Seed(history), total, j) < target)
              && (r.Some? ==>
                    && 2 <= r.value <= 16
                    && target <= Level(Seed(history), total, r.value - 1)
                    && forall j :: 1 <= j < r.value - 1 ==> Level(Seed(history), total, j) < target)
  {
    if target <= total then Some(0)
    else
      SimulateBounds(history, total, target);
      SimulateMeaning(history, total, target);
      var f := Simulate(history, total, target);
      if f.cutOff then None else Some(f.days)
  }

  /** The effect of lines 278-327: `null` unless the target text is non-empty and parses. */
  function DaysToTarget(history: seq<DailyPoint>, total: int, targetText: string): (r: Option<int>)
    ensures targetText == [] || JsText.ParseInt(targetText).None? ==> r.None?
    ensures targetText != [] && JsText.ParseInt(targetText).Some? ==>
              r == DaysForTarget(history, total, JsText.ParseInt(targetText).value)
  {
    if targetText != [] && JsText.ParseInt(targetText).Some? then
      DaysForTarget(history, total, JsText.ParseInt(targetText).value)
    else None
  }

  /** With no history and no points, the total after `j` simulated days is sixteen per day, up to 240. */
  lemma EmptyHistoryLevel(j: nat)
    ensures Level(Seed([]), 0, j) == AccrualPerDay * Min(j, ExpiryWindow)
  {
    assert Seed([]) == [];
    if j > 0 {
      QueueAfterClosedForm([], j);
      assert QueueAfter([], j) == Repeat(AccrualPerDay, j)[..Min(j, ExpiryWindow)];
      RepeatPrefix(AccrualPerDay, j, Min(j, ExpiryWindow));
      SumRepeat(AccrualPerDay, Min(j, ExpiryWindow));
    }
  }

  /** From nothing, a target `t` of at most 240 takes ⌈t/16⌉ simulated days, reported as one more. */
  lemma EmptyHistoryDays(t: int)
    requires 0 < t <= AccrualPerDay * ExpiryWindow
    ensures !Simulate([], 0, t).cutOff
    ensures Simulate([], 0, t).days == (t + AccrualPerDay - 1) / AccrualPerDay + 1
  {
    var c := (t + AccrualPerDay - 1) / AccrualPerDay;
    var f := Simulate([], 0, t);
    EmptyHistoryLevel(c);
    EmptyHistoryLevel(c - 1);
    SimulateBounds([], 0, t);
    SimulateMeaning([], 0, t);
    EmptyHistoryLevel(f.days - 1);
  }

  /** An empty history with target 16 yields 2, not 1: the counter starts at 1 and is
      incremented before the first simulated day. */
  lemma EmptyHistoryTarget16()
    ensures DaysToTarget([], 0, "16") == Some(2)
  {
    JsText.ParseIntOfShow(16);
    assert JsText.Show(16) == "16";
    assert JsText.ParseInt("16") == Some(16);
    EmptyHistoryDays(16);
    assert Simulate([], 0, 16).days == 2;
  }

  /** With no history, a target of 999999999 is never reached: `null`. */
  lemma EmptyHistoryHugeTarget()
    ensures DaysToTarget([], 0, "999999999") == None
  {
    assert JsText.Show(999999999) == "999999999";
    JsText.ParseIntShow(999999999, []);
    assert JsText.Show(999999999) + [] == "999999999";
    UnreachableTarget([], 0, 999999999);
  }

  /** A target beyond the 240 points fifteen days can hold is unreachable: `null`. */
  lemma UnreachableTarget(history: seq<DailyPoint>, total: int, t: int)
    requires total < t
    requires forall i :: 0 <= i < |history| ==> history[i].points <= AccrualPerDay
    requires t > AccrualPerDay * ExpiryWindow
    ensures Simulate(history, total, t).cutOff
  {
    var seed := Seed(history);
    forall j | 1 <= j <= ExpiryWindow
      ensures Level(seed, total, j) < t
    {
      var q := QueueAfter(seed, j);
      QueueAfterClosedForm(seed, j);
      assert forall i :: 0 <= i < |q| ==> q[i] == (Repeat(AccrualPerDay, j) + seed)[i];
      SumAtMost(q, AccrualPerDay);
    }
    SimulateBounds(history, total, t);
  }
}
