# Alpha points calculator: ledger and days-to-target projection

This project is a Dafny model of the computing core of a points calculator. The calculator keeps
a list of accounts. Each account has a newest-first history of daily points and an optional target.

- **Ledger.** Every day carries a running total of itself plus every older day. The account
  balance is the newest day's running total.
- **History regeneration.** The fifteen newest days are rebuilt from the saved ones. A day with
  no saved value gets 16 points from the start date on, and 0 before it.
- **Days to target.** A day-by-day simulation. Each future day earns 16 points, and only the
  newest 15 daily values count (older points expire). The simulation gives up once its day
  counter passes 1000.
- **Account list.** The handlers that create, delete and switch accounts, and that save a
  history or a target onto the current account.
- **Two overviews.** The page's overview reruns the simulation. The stand-alone summary script
  uses a closed form, ⌈gap/16⌉, and ignores expiry.
- **Input handling.** The `[0-9-]` filter applied to typed text, and `parseInt` as section 19.2.5
  of ECMA-262 defines it.

Modules, one per part of the program:

- `Seqs`: `Option`, `Result`, sums. Includes `Reduce`, the left-to-right `reduce` the source
  uses, which is proved equal to `Sum`.
- `JsText`: whitespace, `trim`, the `[0-9-]` filter, `parseInt`, and a decimal printer `Show`
  used for round trips.
- `Ledger`: the day record, running-total recalculation, and editing one day.
- `History`: regeneration of the 15-day window.
- `Projection`: the expiry-window simulation.
- `Accounts`: the account list and its handlers.
- `Summary`: both overviews.

Representation choices:

- Dates are integer day numbers, where `today - i` is the day `i` days ago.
- Account ids are supplied by the caller.
- `NaN` and `null` are `None`.
- Each account-list handler is a pure function from the old state to the new one. The ledger
  operations return the rebuilt ledger; writing it back into the account list is the separate
  `Accounts.UpdateAccountHistory`.
- Today's date is read once. The source reads the clock again while it regenerates the history.
- The simulation is a recursive function, `Projection.Run`. Its `decreases` measure is the
  distance of the day counter from the 1000 bound.

Behaviour of the code that a reader might not expect, which the model reproduces:

- **Off by one.** The day counter starts at 1 and is incremented before the first simulated
  day, so every non-zero answer is the number of simulated days plus one. An empty history with
  target 16 therefore yields 2, not 1 (`Projection.EmptyHistoryTarget16`). Any reachable target
  above the current total yields 2 to 16.
- **Cut-off in the page overview.** It assigns `days` after the loop unconditionally, so an
  unreachable target shows as 1001 rather than `null` (`Summary.PageDays`,
  `Summary.UnsetTargetShows1001`).
- **Unset target in the page overview.** A missing target becomes the sentinel 999999999, not
  `null`.
- **The two overviews disagree.** From an empty history with target `t`, the page counts one
  day more than the script when `t <= 240`. Above 240 it reports 1001 where the script still
  gives ⌈t/16⌉ (`Summary.SummariesDisagree`). With other histories the two can differ in other
  ways, because only the page lets old points expire.
- **Seed order.** The simulation's queue is seeded with the first fifteen history entries in
  list order, not re-sorted.

## Model

| member | source | states |
|---|---|---|
| `Seqs.ReduceIsSum` | all-accounts-summary.js:28-29 | Summing with `reduce` (left to right) gives the same total as the ledger's front-to-back sum, for every list. |
| `Ledger.Recalculate` | app/page.tsx:429-443 | Dates and points are kept. Each running total is the sum of that day and all older days, so `cumulative[i] = points[i] + cumulative[i+1]` and the oldest equals its own points. The returned total is the sum of all points and equals the newest running total; it is 0 for an empty list. |
| `Ledger.UpdateDayPoints` | app/page.tsx:446-468 | `NaN` changes nothing. An index outside the list is the TypeError case. Otherwise only that day's points change, dates and other points are kept, the running-total invariant holds again, and the balance moves by exactly new minus old points. |
| `Ledger.SuffixSumsTotal` | app/page.tsx:433-441 | Any ledger that keeps the running-total invariant has, at each day, the sum of that day and every older one. Its balance is therefore the sum of all points. |
| `Ledger.BalanceIgnoresOrder` | app/page.tsx:429-441 | Two ledgers whose points are the same multiset have the same balance: the grand total does not depend on the order of days. |
| `History.SavedPoints` | app/page.tsx:338-341 | `savedHistoryMap`, built by setting each old entry's date to its points in list order. It has no contract of its own; `History.SavedDays` and `History.SavedPointsLastWins` state its keys and values. |
| `History.SavedDays` | app/page.tsx:338-341 | The saved-points map has exactly the dates of the old history. |
| `History.SavedPointsLastWins` | app/page.tsx:338-341 | A date maps to the points of its last occurrence, because later `set` calls overwrite earlier ones. |
| `History.FindDate` | app/page.tsx:393 | Returns -1 exactly when no entry has the date. Otherwise it is the first index with that date. |
| `History.WindowDays` | app/page.tsx:348-383 | Gives fifteen entries. Entry `i` is dated `today - i` and holds the saved points for that day, or else 16 from the start day on and 0 before it. |
| `History.EnsureToday` | app/page.tsx:386-422 | On the fifteen-day window the today check leaves every entry as it was: entry 0 is today, an unsaved today already holds the default, and, with one reading of today's date, the insert-at-front branch never runs. |
| `History.GeneratePointsHistory` | app/page.tsx:330-426 | The regenerated history is those fifteen days with saved-or-default points. Today's entry always exists, so with one reading of today's date the insert-at-front branch is unreachable. Running totals are rebuilt and the total is their sum. |
| `History.RegenerationIsStable` | app/page.tsx:330-426 | Regenerating a regenerated history on the same day with the same start date gives every day the same points again. |
| `History.SavedDayKept` | app/page.tsx:359-367 | A day inside the window keeps the points that the old history last recorded for it. |
| `Projection.Seed` | app/page.tsx:290 | The queue is seeded with at most fifteen values: the first entries' points, in list order. |
| `Projection.QueueAfter` | app/page.tsx:295-310 | The queue after `j` simulated days holds `min(15, j + seed length)` values, so never more than 15. |
| `Projection.Push` | app/page.tsx:304-310 | One simulated day: `unshift(16)`, then `pop()` once the queue is longer than 15. It has no contract of its own; `Projection.PushShape` states its effect. |
| `Projection.PushShape` | app/page.tsx:304-310 | A push puts 16 in front and keeps the queue behind it, minus its oldest value once that would exceed 15. A queue of at most 15 values grows to `min(15, length + 1)`. |
| `Projection.QueueAfterClosedForm` | app/page.tsx:304-310 | Putting 16 on the front and dropping the back once past 15, `j` times over, leaves `j` values of 16 in front of the seed, cut to the newest 15. |
| `Projection.Run` | app/page.tsx:292-320 | From any iteration, the loop either is cut off with the counter at 1001, or stops at a counter between the current one and 1000. |
| `Projection.RunReaches` | app/page.tsx:298-320 | When the loop stops without the cut-off, the total it stopped at reaches the target. |
| `Projection.RunFallsShort` | app/page.tsx:298-320 | Every total the loop passes before it stops is below the target. After a cut-off this covers every simulated day up to 999. |
| `Projection.Simulate` | app/page.tsx:290-322 | The whole loop, from counter 1 with the caller's total, gives 1001 on a cut-off and otherwise a counter in 1..1000. |
| `Projection.SimulateMeaning` | app/page.tsx:290-322 | The result is the first counter value whose simulated total (counting one less) reaches the target, and every earlier total falls short. A cut-off means no total before the bound reaches the target. |
| `Projection.QueueSaturates` | app/page.tsx:298-313 | After fifteen or more simulated days the queue is fifteen 16s, whatever the seed. The simulated total is 240 from then on. |
| `Projection.SimulateBounds` | app/page.tsx:298-322 | With a target above the current total, the result is cut off exactly when none of the first fifteen simulated days reaches the target. Otherwise it lies in 2..16. |
| `Projection.DaysForTarget` | app/page.tsx:281-323 | A target at or below the total gives 0. Above the total the result is `None` exactly when fifteen simulated days never reach the target. Otherwise it is in 2..16 and is one more than the first simulated day that reaches the target. |
| `Projection.DaysToTarget` | app/page.tsx:278-327 | An empty or non-numeric target text gives `null`. A numeric one gives the projection for the parsed target. |
| `Projection.EmptyHistoryLevel` | app/page.tsx:298-313 | From no history and no points, the simulated total after `j` days is 16 per day, capped at 240. |
| `Projection.EmptyHistoryDays` | app/page.tsx:292-322 | From no history, a target `t` of at most 240 is reached and reported as ⌈t/16⌉ + 1. |
| `Projection.EmptyHistoryTarget16` | app/page.tsx:292-299 | An empty history with target `"16"` yields 2, not 1. |
| `Projection.EmptyHistoryHugeTarget` | app/page.tsx:315-318 | An empty history with target 999999999 yields `null`: the 1000-day bound is hit. |
| `Projection.UnreachableTarget` | app/page.tsx:298-320 | When no day holds more than 16 points, a target above 240 is never reached and the simulation is cut off. |
| `JsText.TrimStart` | app/page.tsx:216 | Removes exactly the leading white space (ECMA-262 WhiteSpace and LineTerminator): what remains is a suffix that does not start with white space. |
| `JsText.TrimEnd` | app/page.tsx:220 | Removes exactly the trailing white space: what remains is a prefix that does not end with white space. |
| `JsText.Trim` | app/page.tsx:220 | `trim` yields the middle slice of the name. It neither starts nor ends with white space, and everything cut off on either side is white space. |
| `JsText.TrimEmptyIffBlank` | app/page.tsx:216 | `!name.trim()` holds exactly when the name consists only of white space. |
| `JsText.TrimIdempotent` | app/page.tsx:220 | Trimming an already trimmed name changes nothing. |
| `JsText.Sanitise` | app/page.tsx:485 | The filtered text contains only digits and `-`, and is never longer than the input. |
| `JsText.SanitiseKeepsCounts` | app/page.tsx:485 | The filter keeps every digit and `-` of the input, each as often as it occurred. |
| `JsText.SanitiseAppend` | app/page.tsx:494 | The filter works character by character: filtering a concatenation is concatenating the filtered parts. |
| `JsText.SanitiseKeepsAllowed` | app/page.tsx:494 | Text made only of digits and `-` passes the filter unchanged. |
| `JsText.SanitiseIdempotent` | app/page.tsx:485 | Filtering twice is filtering once. |
| `JsText.ParseInt` | app/page.tsx:279-280 | `parseInt` with the radix left out, following section 19.2.5 of ECMA-262: white space skipped, one sign, an optional `0x` prefix, then the longest digit run, with `NaN` as `None`. It has no contract of its own; `JsText.DigitRun`, `JsText.ParseIntOfSanitised`, `JsText.ParseIntShow` and `JsText.ParseIntOfShow` state its behaviour. |
| `JsText.DigitRun` | app/page.tsx:487 | `parseInt` reads the longest prefix of radix digits, and stops at the first non-digit. |
| `JsText.ParseIntOfSanitised` | app/page.tsx:487 | On filtered text, `parseInt` gives a number exactly when the text starts with a digit, or with one `-` followed by a digit. Otherwise it gives `NaN`. |
| `JsText.LeadingSpace` | app/page.tsx:216 | Counts the white space in front: every character it covers is white space, and the next one is not. |
| `JsText.TrailingSpace` | app/page.tsx:220 | Counts the white space at the end: every character it covers is white space, and the one before is not. |
| `JsText.ParseIntOfShow` | app/page.tsx:279-280 | `parseInt` of an integer's decimal numeral gives back the integer. |
| `JsText.ParseIntShow` | app/page.tsx:279-280 | `parseInt` reads back the decimal numeral of any integer. It ignores whatever follows that cannot continue the numeral. |
| `JsText.TempPointsFromInput` | app/page.tsx:483-489 | `handleTempPointsChange`: the filtered text parsed, with `NaN` read as 0. It has no contract of its own; `JsText.TempPointsWithoutDigits` and `JsText.TempPointsOfNumeral` state its behaviour. |
| `JsText.TempPointsWithoutDigits` | app/page.tsx:483-489 | Input holding no digit at all leaves the points editor at 0: the filter keeps at most `-` signs, which `parseInt` reads as `NaN`, and `NaN` becomes 0. |
| `JsText.TempPointsOfNumeral` | app/page.tsx:485-488 | Typing an integer's numeral into the points editor yields that integer. |
| `JsText.TargetFromInput` | app/page.tsx:492-496 | The stored target text contains only digits and `-`, and every digit and `-` typed is stored, each as often as it was typed. |
| `JsText.TargetFromInputAppend` | app/page.tsx:494 | The target filter keeps order: the stored text for a concatenation is the stored texts, concatenated. |
| `JsText.TargetOfNumeral` | app/page.tsx:492-496 | Typing an integer's numeral into the target field stores that numeral unchanged. |
| `Accounts.Find` | app/page.tsx:257 | `find` returns nothing exactly when no account has the id. Otherwise it returns the first account with it. |
| `Accounts.CreateAccount` | app/page.tsx:215-236 | A whitespace-only name changes nothing. Otherwise exactly one account is appended: trimmed name, empty history, `''` target. The earlier accounts are kept in order, and the new account becomes current. |
| `Accounts.CreatedAccountIsCurrent` | app/page.tsx:225-228 | With a fresh id, the account being edited after creation is the new, empty account. |
| `Accounts.Without` | app/page.tsx:245 | The filtered list holds exactly the accounts whose id differs. It is shorter by the number of accounts that had the id. |
| `Accounts.WithoutAppend` | app/page.tsx:245 | `filter` keeps order: filtering a concatenation gives the filtered parts, concatenated. |
| `Accounts.WithoutSingle` | app/page.tsx:245 | On a single account, `filter` keeps it exactly when its id differs. |
| `Accounts.FirstOther` | app/page.tsx:245-250 | Finds the first account whose id differs: every account before it has the id. |
| `Accounts.WithoutHead` | app/page.tsx:245-250 | The first account `filter` keeps is the first one in the list whose id differs. |
| `Accounts.DeleteAccount` | app/page.tsx:239-253 | A list of at most one account is left unchanged. Otherwise the new list is `Without(accounts, id)`: every account with the id is removed, and the rest keep their order. Deleting the current account makes the first remaining one current. That is the first account in list order whose id differs. The call fails exactly when that leaves no account to read. |
| `Accounts.DeleteKeepsAnAccount` | app/page.tsx:240-252 | With distinct ids, deleting from a non-empty list never fails and never empties it. |
| `Accounts.SwitchAccount` | app/page.tsx:256-262 | An unknown id changes nothing. A known id becomes current, and the account being edited then has that id. The list itself never changes. |
| `Accounts.ReplaceMatching` | app/page.tsx:268-272 | Same length. Each account with the id is rewritten, and every other account is kept as it was. |
| `Accounts.UpdateAccountHistory` | app/page.tsx:265-275 | Without a current id nothing changes. Otherwise only accounts with the current id get the new history, and ids, names and targets all stay. |
| `Accounts.UpdateAccountTarget` | app/page.tsx:202-212 | A non-empty target is saved on the current account only, and nothing else changes. An empty target or no current account saves nothing. |
| `Accounts.UpdatedHistoryIsCurrent` | app/page.tsx:265-275 | After a history update, the account being edited shows that history. |
| `Accounts.UpdateHistoryLastWins` | app/page.tsx:265-275 | Two history updates in a row leave what the second alone would. |
| `Accounts.UpdatedTargetIsCurrent` | app/page.tsx:202-212 | After a non-empty target is saved, the account being edited shows that target. |
| `Accounts.UpdateTargetLastWins` | app/page.tsx:202-212 | Of two saved targets the second wins. An empty second target saves nothing, so the first stays. |
| `Summary.Progress` | app/page.tsx:532-533 | The progress percentage never exceeds 100. When it is below 100, it is exactly `100 * total / target`. For a positive target it equals 100 exactly when the total reaches the target. For a negative target it equals 100 exactly when the total is at or below the target. |
| `Summary.PageTarget` | app/page.tsx:528-529 | An empty or non-numeric target becomes the sentinel 999999999. Otherwise the parsed value is used. |
| `Summary.PageDays` | app/page.tsx:539-585 | Target 0 gives no days, and a reached target gives 0. Otherwise there is always a number between 1 and 1001, because line 580 overwrites the `null`. |
| `Summary.PageDaysMeaning` | app/page.tsx:539-585 | Above the total, the page shows 1001 or a count in 2..16. It shows 1001 exactly when fifteen simulated days never reach the target, and otherwise one more than the first simulated day that does. This is the account view's count with its `null` replaced by 1001. |
| `Summary.SummarizeAccount` | app/page.tsx:522-595 | Name copied. Total is the sum of all points. Target is parsed or the sentinel. A zero target gives `null` progress and days and gap -999999999. Otherwise progress is `Progress(total, target)`, gap is target minus total, and days are as in `PageDays`. |
| `Summary.PageRow` | app/page.tsx:531-595 | The row copies the name, total, target and days. Target 0 gives no progress and gap -999999999. Any other target gives progress `Progress(total, target)` and gap target minus total. |
| `Summary.PageSummary` | app/page.tsx:519-598 | One row per account in the same order. Each row is that account's `SummarizeAccount` row, so its name, total and target come from the account. |
| `Summary.UnsetTargetShows1001` | app/page.tsx:528-584 | An account without a target shows 1001 days rather than `null` when its days hold at most 16 points each and its total is below the sentinel. |
| `Summary.ScriptTarget` | all-accounts-summary.js:32-33 | The script's target is `null` when missing, empty or non-numeric, and the parsed value otherwise. |
| `Summary.TargetsOfNumeral` | all-accounts-summary.js:32-33 | Both overviews read a typed integer numeral back as that integer. An empty target text gives the sentinel 999999999 on the page (app/page.tsx line 528) and `null` in the script. |
| `Summary.CeilDays` | all-accounts-summary.js:43-44 | For a positive gap, the day count `d` satisfies `16*(d-1) < gap <= 16*d`, so `d >= 1`. |
| `Summary.ScriptSummarizeAccount` | all-accounts-summary.js:26-54 | Name copied. Total is the sum of all points, and 0 without a history. A missing, non-numeric or zero target makes progress, gap and days `null`. Otherwise progress is `Progress(total, target)`, gap is target minus total, days are 0 for a non-positive gap, and otherwise days are ⌈gap/16⌉. |
| `Summary.ScriptSummary` | all-accounts-summary.js:26-54 | One row per stored account in the same order. Each row is that account's `ScriptSummarizeAccount` row, so its name and target come from the account. |
| `Summary.ScriptDaysFromNothing` | all-accounts-summary.js:32-44 | For a stored account with an empty history and target `t > 0`, the script reports ⌈t/16⌉ days. |
| `Summary.PageDaysFromNothing` | app/page.tsx:522-585 | For an account with an empty history and target `t > 0`, the page reports ⌈t/16⌉ + 1 days when `t <= 240`, and 1001 above that. |
| `Summary.SummariesDisagree` | all-accounts-summary.js:42-44 | From an empty history with target `t`, the script reports ⌈t/16⌉ days. The page reports one day more when `t <= 240`, and 1001 when `t > 240`. |

## Left out

- React scheduling: hook ordering, effect re-runs and the `setTimeout` calls that regenerate
  history after loading or creating an account. Each handler is modelled as one pure step.
- Persistence and file I/O: localStorage, `JSON.parse`/`stringify`, FileReader and the Blob
  download in import and export. This includes the shape check of imported data.
- Dates: `Date` objects, `toLocaleDateString`, the validity check of a picked start date, and
  `Date.now()` ids. Days are integer day numbers, and ids are parameters.
- Mutation of shared objects: the source writes into objects it shares with the previous
  state. The model rebuilds the ledger immutably.
- Floating point: JavaScript numbers are doubles. The model uses exact integers, and exact
  reals for percentages. `parseInt` of numerals beyond 2^53 therefore does not round.
- `Math.round` display, all JSX rendering, and the DOM table of the summary script.
- The summary script's storage reads and alerts. The `debug-data.js` script, which is storage I/O only.
- The editing-state handlers `startEditing` and `cancelEditing`, and modal visibility. They hold
  UI state only.
- The separately held `currentAccount` object: the model derives the current account from the
  current id.
- `createDefaultAccount`: it has the same shape as `Accounts.CreateAccount` applied to an empty
  list, with the name fixed.
- Stored targets that are numbers rather than strings, and stored points that are not numbers.
  Targets are strings and points are integers throughout.
- `Accounts.DeleteAccount`: when it fails, it does not model the account-list update that the
  source queues before throwing.
- `Projection.DaysToTarget`: the balance is a parameter. In the source it is the separately
  stored `totalPoints`, which normally equals the ledger's balance.
- `Projection.Run`: its own contract gives only where the counter can end. What the stopping
  point means is stated by `Projection.RunReaches` and `Projection.RunFallsShort`.
- `Projection.Simulate`: likewise only bounds the counter. `Projection.SimulateMeaning` and
  `Projection.SimulateBounds` state the rest.
- `Summary.PageDays`: its own contract gives only the range of the answer. `Summary.PageDaysMeaning`
  ties it to the simulated totals.
- `Ledger.Recalculate` and `Ledger.UpdateDayPoints` end, in the source, with
  `updateAccountHistory(newHistory)`. The methods return the rebuilt ledger. Writing it into the
  account list is `Accounts.UpdateAccountHistory`, with the partner lemmas
  `Accounts.UpdatedHistoryIsCurrent` and `Accounts.UpdateHistoryLastWins`.
- `History.GeneratePointsHistory` and `History.EnsureToday` read today's date once. The source calls
  `new Date()` again while it builds the window. If midnight passes during the call, entry 0 can
  miss the later date and the insert-at-front branch can run. The model does not cover that case.
