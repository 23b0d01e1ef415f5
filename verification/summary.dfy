/** The per-account overview rows: the page's `viewAllAccountsSummary`, which reruns the
    projection with a sentinel for a missing target, and the stand-alone summary script, which
    uses a closed-form day count without expiry. */
module Summary {
  import opened Seqs
  import opened Ledger
  import opened Projection
  import opened Accounts
  import JsText

  /** One overview row. Fields that the source can leave `null` are options; percentages are exact reals. */
  datatype AccountSummary = AccountSummary(
    name: string,
    totalPoints: int,
    targetPoints: Option<int>,
    progressPercentage: Option<real>,
    pointsToTarget: Option<int>,
    daysToTarget: Option<int>)

  /** The page's stand-in for a missing or non-numeric target. */
  const UnsetTarget := 999999999
  /** The page's points-to-target when the target is 0. */
  const NoGap := -999999999

  /** `Math.min((total / target) * 100, 100)`. */
  function Progress(total: int, target: int): (p: real)
    requires target != 0
    ensures p <= 100.0
    ensures p == 100.0 || p * (target as real) == 100.0 * (total as real)
    ensures target > 0 ==> (p == 100.0 <==> total >= target)
    ensures target < 0 ==> (p == 100.0 <==> total <= target)
  {
    RatioReachesOne(total, target);
    MinReal((total as real / target as real) * 100.0, 100.0)
  }

  lemma RatioReachesOne(total: int, target: int)
    requires target != 0
    ensures target > 0 ==> ((total as real / target as real) * 100.0 >= 100.0 <==> total >= target)
    ensures target < 0 ==> ((total as real / target as real) * 100.0 >= 100.0 <==> total <= target)
    ensures (total as real / target as real) * 100.0 * (target as real) == 100.0 * (total as real)
  {
    var q := total as real / target as real;
    assert q * target as real == total as real;
  }

  /** The target the page uses: the parsed text, or the sentinel when it is empty or not a number. */
  function PageTarget(text: string): (t: int)
    ensures text == [] || JsText.ParseInt(text).None? ==> t == UnsetTarget
    ensures text != [] && JsText.ParseInt(text).Some? ==> t == JsText.ParseInt(text).value
  {
    if text != [] && JsText.ParseInt(text).Some? then JsText.ParseInt(text).value else UnsetTarget
  }

  /** Lines 539-585: with a target of 0 (falsy) no days; with the total at or above it 0;
      otherwise the simulated count, and 1001 when the simulation is cut off, because line 580
      overwrites the `null` set at line 576. */
  function PageDays(history: seq<DailyPoint>, total: int, target: int): (r: Option<int>)
    ensures target == 0 ==> r.None?
    ensures target != 0 && target <= total ==> r == Some(0)
    ensures target != 0 && target > total ==> r.Some? && 1 <= r.value <= Horizon + 1
  {
    if target == 0 then None
    else if target - total <= 0 then Some(0)
    else Some(Simulate(history, total, target).days)
  }

  /** What the page's day count means: 1001 exactly when none of the fifteen simulated days
      reaches the target, and otherwise the first day that does, plus one; it is the count the
      account view shows, with its `null` turned into 1001. */
  lemma PageDaysMeaning(history: seq<DailyPoint>, total: int, target: int)
    requires target != 0 && target > total
    ensures var r := PageDays(history, total, target);
            && r.Some?
            && (r.value == Horizon + 1 || 2 <= r.value <= 16)
            && (r.value == Horizon + 1 <==> forall j :: 1 <= j <= ExpiryWindow ==> Level(Seed(history), total, j) < target)
            && (r.value != Horizon + 1 ==>
                  && target <= Level(Seed(history), total, r.value - 1)
                  && forall j :: 1 <= j < r.value - 1 ==> Level(Seed(history), total, j) < target)
    ensures PageDays(history, total, target) ==
              if DaysForTarget(history, total, target).None? then Some(Horizon + 1)
              else DaysForTarget(history, total, target)
  {
    SimulateBounds(history, total, target);
    SimulateMeaning(history, total, target);
  }

  /** One row of `viewAllAccountsSummary` (lines 522-595). */
  function SummarizeAccount(a: Account): (r: AccountSummary)
    ensures r.name == a.name
    ensures r.totalPoints == Sum(Points(a.pointsHistory))
    ensures r.targetPoints == Some(PageTarget(a.targetPoints))
    ensures PageTarget(a.targetPoints) == 0 ==>
              r.progressPercentage.None? && r.pointsToTarget == Some(NoGap) && r.daysToTarget.None?
    ensures PageTarget(a.targetPoints) != 0 ==>
              && r.progressPercentage == Some(Progress(r.totalPoints, PageTarget(a.targetPoints)))
              && r.pointsToTarget == Some(PageTarget(a.targetPoints) - r.totalPoints)
              && r.daysToTarget == PageDays(a.pointsHistory, r.totalPoints, PageTarget(a.targetPoints))
  {
    // The reduce over the points is their sum (`Seqs.ReduceIsSum`).
    var total := Sum(Points(a.pointsHistory));
    var target := PageTarget(a.targetPoints);
    PageRow(a.name, total, target, PageDays(a.pointsHistory, total, target))
  }

  /** The row assembled from its parts: progress and gap follow from the total and the target,
      with the falsy target 0 giving no progress and the `NoGap` stand-in. */
  function PageRow(name: string, total: int, target: int, days: Option<int>): (r: AccountSummary)
    ensures r.name == name && r.totalPoints == total && r.targetPoints == Some(target) && r.daysToTarget == days
    ensures target == 0 ==> r.progressPercentage.None? && r.pointsToTarget == Some(NoGap)
    ensures target != 0 ==>
              && r.progressPercentage == Some(Progress(total, target))
              && r.pointsToTarget == Some(target - total)
  {
    var progress := if target != 0 then Some(Progress(total, target)) else None;
    var gap := if target != 0 then target - total else NoGap;
    AccountSummary(name, total, Some(target), progress, Some(gap), days)
  }

  /** `viewAllAccountsSummary`: one row per account, in the same order. */
  function PageSummary(accounts: seq<Account>): (rows: seq<AccountSummary>)
    ensures |rows| == |accounts|
    ensures forall k :: 0 <= k < |rows| ==>
              && rows[k].name == accounts[k].name
              && rows[k].totalPoints == Sum(Points(accounts[k].pointsHistory))
              && rows[k].targetPoints == Some(PageTarget(accounts[k].targetPoints))
    ensures forall k :: 0 <= k < |rows| ==> rows[k] == SummarizeAccount(accounts[k])
  {
    seq(|accounts|, k requires 0 <= k < |accounts| => SummarizeAccount(accounts[k]))
  }

  /** An account without a target, whose days each hold at most 16 points and whose total is
      below the sentinel, shows 1001 days rather than `null`. */
  lemma UnsetTargetShows1001(a: Account)
    requires a.targetPoints == []
    requires forall i :: 0 <= i < |a.pointsHistory| ==> a.pointsHistory[i].points <= AccrualPerDay
    requires Sum(Points(a.pointsHistory)) < UnsetTarget
    ensures SummarizeAccount(a).daysToTarget == Some(Horizon + 1)
  {
    UnreachableTarget(a.pointsHistory, Sum(Points(a.pointsHistory)), UnsetTarget);
  }

  /** An account as the summary script reads it from storage: the history or the target may be missing. */
  datatype StoredAccount = StoredAccount(name: string, pointsHistory: Option<seq<DailyPoint>>, targetPoints: Option<string>)

  /** The script's target: `null` when missing, empty or not a number. */
  function ScriptTarget(text: Option<string>): (t: Option<int>)
    ensures text.None? || text.value == [] || JsText.ParseInt(text.value).None? ==> t.None?
    ensures text.Some? && text.value != [] && JsText.ParseInt(text.value).Some? ==>
              t == Some(JsText.ParseInt(text.value).value)
  {
    if text.Some? && text.value != [] && JsText.ParseInt(text.value).Some? then
      Some(JsText.ParseInt(text.value).value)
    else None
  }

  /** Both overviews read a typed numeral back as its number. They differ on a missing target,
      which the page turns into the sentinel and the script into `null`. */
  lemma TargetsOfNumeral(n: int)
    ensures PageTarget(JsText.Show(n)) == n
    ensures ScriptTarget(Some(JsText.Show(n))) == Some(n)
    ensures PageTarget([]) == UnsetTarget && ScriptTarget(Some([])).None? && ScriptTarget(None).None?
  {
    JsText.ParseIntOfShow(n);
  }

  /** `Math.ceil(gap / 16)` for a positive gap: the fewest whole days of 16 points that cover it. */
  function CeilDays(gap: int): (d: int)
    requires gap > 0
    ensures d >= 1
    ensures AccrualPerDay * (d - 1) < gap <= AccrualPerDay * d
  {
    (gap + AccrualPerDay - 1) / AccrualPerDay
  }

  /** One row of the summary script (all-accounts-summary.js, lines 26-54). Its tests use
      truthiness, so a target of 0 counts as no target. */
  function ScriptSummarizeAccount(a: StoredAccount): (r: AccountSummary)
    ensures r.name == a.name
    ensures a.pointsHistory.None? ==> r.totalPoints == 0
    ensures a.pointsHistory.Some? ==> r.totalPoints == Sum(Points(a.pointsHistory.value))
    ensures r.targetPoints == ScriptTarget(a.targetPoints)
    ensures r.targetPoints.None? || r.targetPoints.value == 0 ==>
              r.progressPercentage.None? && r.pointsToTarget.None? && r.daysToTarget.None?
    ensures r.targetPoints.Some? && r.targetPoints.value != 0 ==>
              var gap := r.targetPoints.value - r.totalPoints;
              && r.progressPercentage == Some(Progress(r.totalPoints, r.targetPoints.value))
              && r.pointsToTarget == Some(gap)
              && (gap <= 0 ==> r.daysToTarget == Some(0))
              && (gap > 0 ==> r.daysToTarget.Some? && r.daysToTarget.value >= 1
                              && AccrualPerDay * (r.daysToTarget.value - 1) < gap <= AccrualPerDay * r.daysToTarget.value)
  {
    // The reduce over the points is their sum (`Seqs.ReduceIsSum`).
    var total := if a.pointsHistory.Some? then Sum(Points(a.pointsHistory.value)) else 0;
    var target := ScriptTarget(a.targetPoints);
    var isSet := target.Some? && target.value != 0;
    var progress := if isSet then Some(Progress(total, target.value)) else None;
    var gap := if isSet then Some(target.value - total) else None;
    var days :=
      if isSet && gap.value > 0 then Some(CeilDays(gap.value))
      else if isSet && gap.value <= 0 then Some(0)
      else None;
    AccountSummary(a.name, total, target, progress, gap, days)
  }

  /** The script's overview: one row per stored account, in the same order, names copied through. */
  function ScriptSummary(accounts: seq<StoredAccount>): (rows: seq<AccountSummary>)
    ensures |rows| == |accounts|
    ensures forall k :: 0 <= k < |rows| ==>
              && rows[k].name == accounts[k].name
              && rows[k].targetPoints == ScriptTarget(accounts[k].targetPoints)
    ensures forall k :: 0 <= k < |rows| ==> rows[k] == ScriptSummarizeAccount(accounts[k])
  {
    seq(|accounts|, k requires 0 <= k < |accounts| => ScriptSummarizeAccount(accounts[k]))
  }

  /** The two summaries disagree. From an empty history, a target `t` of at most 240 takes the page
      one day more than the script reports; a larger target the page shows as 1001 days. */
  lemma SummariesDisagree(t: int, id: string, name: string)
    requires t > 0
    ensures var page := SummarizeAccount(Account(id, name, [], JsText.Show(t)));
            var script := ScriptSummarizeAccount(StoredAccount(name, Some([]), Some(JsText.Show(t))));
            && script.daysToTarget == Some(CeilDays(t))
            && (t <= AccrualPerDay * ExpiryWindow ==> page.daysToTarget == Some(CeilDays(t) + 1))
            && (t > AccrualPerDay * ExpiryWindow ==> page.daysToTarget == Some(Horizon + 1))
  {
    ScriptDaysFromNothing(t, name);
    PageDaysFromNothing(t, id, name);
  }

  /** The script's day count for a fresh account is ⌈t/16⌉. */
  lemma ScriptDaysFromNothing(t: int, name: string)
    requires t > 0
    ensures ScriptSummarizeAccount(StoredAccount(name, Some([]), Some(JsText.Show(t)))).daysToTarget == Some(CeilDays(t))
  {
    JsText.ParseIntOfShow(t);
    assert ScriptTarget(Some(JsText.Show(t))) == Some(t);
    assert Sum(Points([])) == 0;
  }

  /** A fresh account's row shows the simulated day count for its target. */
  lemma FreshAccountDays(t: int, id: string, name: string)
    requires t > 0
    ensures SummarizeAccount(Account(id, name, [], JsText.Show(t))).daysToTarget == PageDays([], 0, t)
  {
    var a := Account(id, name, [], JsText.Show(t));
    JsText.ParseIntOfShow(t);
    assert PageTarget(a.targetPoints) == t;
    assert Sum(Points(a.pointsHistory)) == 0;
  }

  /** The page's day count for a fresh account: one more than ⌈t/16⌉ up to 240, then 1001. */
  lemma PageDaysFromNothing(t: int, id: string, name: string)
    requires t > 0
    ensures var page := SummarizeAccount(Account(id, name, [], JsText.Show(t)));
            && (t <= AccrualPerDay * ExpiryWindow ==> page.daysToTarget == Some(CeilDays(t) + 1))
            && (t > AccrualPerDay * ExpiryWindow ==> page.daysToTarget == Some(Horizon + 1))
  {
    FreshAccountDays(t, id, name);
    assert PageDays([], 0, t) == Some(Simulate([], 0, t).days);
    if t <= AccrualPerDay * ExpiryWindow {
      EmptyHistoryDays(t);
      assert CeilDays(t) == (t + AccrualPerDay - 1) / AccrualPerDay;
    } else {
      UnreachableTarget([], 0, t);
    }
  }
}
