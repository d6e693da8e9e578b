# Medication-dose scheduler, modelled in Dafny

This project models the greedy dose scheduler of MedDispApp (`data/scheduler.py`).
Given some required doses (a drug and how many times per day), a window
`[start, end]` and a slot length, the scheduler builds a grid of candidate
slots. It orders the doses so that drugs with a longer restricted time come
first. Then, calendar day by calendar day, it places each occurrence at the
first slot of that day that the constraint checker accepts. The checker
accepts a slot when two rules both hold:

- no earlier dose of the same drug is closer than that drug's restricted
  time;
- no dose of a forbidden partner drug has an active window that overlaps
  the new dose's window. A dose of drug `d` is active for `restricted(d)`
  hours from its start.

Time is counted in whole minutes since an epoch that falls at midnight.
A calendar day is `t / 1440`. Restricted times are whole hours, and the
slot step is a positive number of minutes.

Files and modules:

- `doses.dfy` (`Doses`): drug ids, required doses, schedule entries, and the
  shared minute arithmetic.
- `constraints.dfy` (`Constraints`): `intervals_overlap` as `IntervalsOverlap`.
  `constraints_ok` is modelled as the method `ConstraintsOk`. It makes the
  same two scans with early returns, and it is proved equal to the
  quantified rule `Legal`. The file also holds the safety predicates `Spaced`,
  `NoForbiddenOverlap` and `Safe`, and the lemma that an accepted append
  keeps a schedule safe.
- `priority.dfy` (`Priority`): the stable descending sort by restricted time.
- `slots.dfy` (`Slots`): the slot grid, and the day arithmetic standing in for
  `date()` and `datetime.combine`. It also holds the per-day slot filter.
- `scheduler.dfy` (`Scheduler`): the loop that symmetrises the interaction
  rows, and the placement of one occurrence. It also holds the loops over
  occurrences, doses and days (`BuildSchedule`). Each loop is proved equal to
  a recursive reference definition of the greedy search. `PlaceOnce` is one
  first-fit placement. `PlaceTimes` is `times_per_day` of them in a row.
  `GreedyDay` places the doses of one day in priority order. `GreedyDays`
  places day after day. The lemmas about these definitions state the
  first-fit, counting, starvation and safety properties.

Two behaviours of the source are worth noting. The model follows the source
in both:

- The second scan of `constraints_ok` (data/scheduler.py:26-39) does not skip
  entries of the same drug. If `(d, d)` is a forbidden pair, same-drug doses
  are also checked for overlap.
- When the window ends before it starts, the per-day loop visits no day at
  all (data/scheduler.py:86-87). Nothing is placed and no occurrence is
  reported as missing.

`BuildSchedule` takes one extra flag, `corrected`. With `corrected` false it
cuts the days exactly as data/scheduler.py:90 does: a day's segment ends one
slot step before the next day starts. With `corrected` true the segment ends
one minute before the next day starts (see "## Findings"). All the contracts
of `BuildSchedule` hold for both settings. With the source's day end, a step
longer than a day leaves every segment empty, so nothing is placed.

## Model

| member | source | states |
|---|---|---|
| `Constraints.IntervalsOverlap` | data/scheduler.py:6-9 | the max/min test holds exactly when both windows are non-empty and each one starts before the other ends |
| `Constraints.OverlapIffCommonMinute` | data/scheduler.py:6-9 | two active windows overlap exactly when some minute lies in both |
| `Constraints.OverlapSymmetric` | data/scheduler.py:6-9 | swapping the two windows gives the same answer |
| `Constraints.TouchingDoNotOverlap` | data/scheduler.py:6-9 | a window that ends where the other starts does not overlap it, in either order |
| `Constraints.ConstraintsOk` | data/scheduler.py:13-41 | the two scans return true exactly when no same-drug entry is closer than the restricted time and no forbidden partner with a profile has an overlapping window |
| `Constraints.ExactGapAccepted` | data/scheduler.py:19-23 | a same-drug dose exactly the restricted time before or after is accepted, whatever the forbidden pairs; one minute closer is rejected |
| `Constraints.IrrelevantEntryIgnored` | data/scheduler.py:26-39 | an entry of another drug that is not a forbidden partner, or that has no profile, never changes the answer |
| `Constraints.RejectedStaysRejected` | data/scheduler.py:13-41 | a candidate the checker rejects is still rejected after more doses are appended to the schedule |
| `Constraints.LegalAppendKeepsSafe` | data/scheduler.py:19-39 | appending an accepted dose to a safe schedule keeps every same-drug pair spaced and every forbidden pair non-overlapping, given a symmetric pair set |
| `Priority.SortByPriority` | data/scheduler.py:70-74 | the priority order is a permutation of the required doses with non-increasing restricted time |
| `Priority.SortIsStable` | data/scheduler.py:70-74 | doses with equal restricted time keep their input order |
| `Priority.StableSortIsUnique` | data/scheduler.py:70-74 | any non-increasing order that keeps equal-time doses in input order is this order, so it is what `sorted(..., reverse=True)` returns |
| `Priority.SortKeepsPerDayTotal` | data/scheduler.py:96-100 | reordering the doses keeps the number of occurrences asked for per day |
| `Slots.SlotGridShape` | data/scheduler.py:60-65 | slot k is `start + k*step`; every slot is in `[start, end]`; one more step passes `end`; slots strictly increase; the grid is empty exactly when `end < start` |
| `Slots.BuildSlots` | data/scheduler.py:60-65 | the `while current <= end_dt` loop produces exactly the slot grid |
| `Slots.WindowDays` | data/scheduler.py:78-79 | the day count is `max(1, span)`, where span is the number of calendar dates from the start's date to the end's date: at least both, and equal to one of them |
| `Slots.DayStart` | data/scheduler.py:84-85 | combining the date i days on with the start's time of day is exactly `start + i` days |
| `Slots.DayEnd` | data/scheduler.py:90 | (corrected) a day's segment ends no later than the window and before the next day starts |
| `Slots.DayEndAsWritten` | data/scheduler.py:90 | (as written) the segment ends no later than the window's end and no later than one step before the next day starts, and at one of the two, so at the earlier; with a step longer than a day it ends before it starts |
| `Slots.DaySlots` | data/scheduler.py:93 | the day's slots are exactly the grid slots inside `[day_start, day_end]`, still increasing |
| `Slots.SlotSkippedAsWritten` | data/scheduler.py:90 | with 100-minute slots and the day end as written, the slot 1400 minutes in lies in no day's segment |
| `Slots.CorrectionAgreesOnDividingSteps` | data/scheduler.py:90-93 | when the step divides a day, the corrected day end selects exactly the slots the day end as written selects |
| `Slots.SlotInItsDay` | data/scheduler.py:82-93 | with the corrected day end, every grid slot lies in the segment of exactly one day; that day is within the window's days and starts no later than the window ends |
| `Scheduler.PairSet` | data/scheduler.py:54-57 | the forbidden-pair set is symmetric |
| `Scheduler.PairSetHoldsRows` | data/scheduler.py:54-57 | the forbidden-pair set holds both orders of every row and nothing else |
| `Scheduler.ForbiddenPairs` | data/scheduler.py:54-57 | the loop over the interaction rows builds exactly that set |
| `Scheduler.FirstAcceptedIsFirst` | data/scheduler.py:103-113 | the slot index the first-fit search finds is one the checker accepts, and every slot of the day before it is rejected |
| `Scheduler.PlaceOnceTakesFirstAccepted` | data/scheduler.py:103-113 | given the first slot of the day the checker accepts, one first-fit placement appends a unit dose at exactly that slot |
| `Scheduler.PlaceOnceFirstFit` | data/scheduler.py:101-113 | one first-fit placement appends at most one unit dose of the drug, at a slot of the day, that the checker accepts; it appends nothing exactly when no slot of the day is accepted |
| `Scheduler.FirstDoseTakesFirstSlot` | data/scheduler.py:96-113 | a single dose asked for once, on an empty schedule, is placed at the first slot of the day |
| `Scheduler.PlaceOccurrence` | data/scheduler.py:101-113 | the scan over the day's slots yields exactly one first-fit placement (`PlaceOnce`); `placed` is true exactly when a dose was appended |
| `Scheduler.PlaceTimesAppends` | data/scheduler.py:100-113 | `n` first-fit placements append at most `n` unit doses of the drug, each at a slot of the day |
| `Scheduler.PlaceTimesStarves` | data/scheduler.py:100-116 | when fewer than `n` doses were appended, a further first-fit placement appends nothing: no slot of the day is accepted any more |
| `Scheduler.PlaceTimesKeepsSafe` | data/scheduler.py:100-113 | first-fit placements keep a safe schedule safe, given a symmetric pair set |
| `Scheduler.PlaceDoseForDay` | data/scheduler.py:100-116 | the loop's result is exactly `times_per_day` first-fit placements in a row (`PlaceTimes`), each against the schedule the previous one left; each occurrence either appends a unit dose of that drug at one of the day's slots or is counted as unplaced; an occurrence is unplaced only if, at the end, no slot of the day is accepted for the drug; safety is kept |
| `Scheduler.ScheduleDay` | data/scheduler.py:96-116 | the day's result is exactly `GreedyDay`: the doses in priority order, each getting its occurrences by first fit on top of what the earlier doses placed; only unit doses of required drugs at that day's slots are appended; each dose misses at most its `times_per_day`; placed plus missed equals the per-day total; every dose that missed an occurrence has no slot of the day the checker accepts against the day's final schedule; safety is kept |
| `Scheduler.VisitDay` | data/scheduler.py:84-116 | one pass of the day loop is exactly `GreedyDay` on that day's segment (line 90 as written, or corrected); every entry it appends is a unit dose of a required drug at a grid slot within the segment, recorded as placed on that day; placed plus missed grows by the per-day total, and each dose misses at most its `times_per_day`; a dose that missed an occurrence has no accepted slot in the segment; safety is kept |
| `Scheduler.ScheduleDays` | data/scheduler.py:82-116 | the day loop visits days from the first date while their start is not past the end, at most `window_days` of them, and its result is exactly `GreedyDays` over the visited days; the result is safe, each entry lies in the segment of the day it was placed on, and days never decrease; on every visited day each dose that missed an occurrence has no accepted slot in that day's segment against the final schedule; on every visited day the entries that day appends plus the occurrences it missed equal the per-day total, and each dose misses at most its `times_per_day` that day; placed plus missed equals the visited days' quota |
| `Scheduler.NothingPlacedWithLongStep` | data/scheduler.py:90-93 | with line 90 as written and a step longer than a day, no entry can lie in any day's segment |
| `Scheduler.BuildSchedule` | data/scheduler.py:44-118 | the result is exactly the greedy search `GreedyDays` over the visited days, with the doses in priority order and the symmetrised pair set. It is safe. Every entry is a unit dose of a required drug at a grid slot inside `[start, end]`, within the segment of the day it was placed on, and days never decrease along the schedule. On every visited day, each dose (in priority order) that missed an occurrence has no slot of that day's segment the checker accepts against the final schedule. On every visited day, the entries that day appends plus the occurrences it missed equal the per-day total, and each dose misses at most its `times_per_day`. Placed plus missed equals visited days times the per-day total, so at most `window_days` times that total are placed. The result is empty when `end < start`, and, with the day end as written, when the step is longer than a day |

## Left out

- Database access (data/scheduler.py:45-53, 120-121) is not modelled. The
  drug profiles are an input map from drug id to restricted hours. The
  interaction rows are an input sequence. The source's query keeps only the
  profiles of the required drugs. The model accepts any map that contains
  them, because the schedule only ever holds required drugs, so no other
  profile is ever looked up.
- A required drug without a profile makes the source raise a `KeyError`
  (data/scheduler.py:14, 72). The model requires every required drug to have
  a profile.
- `BuildSchedule` requires a positive `slot_minutes`. With a zero step and
  `start <= end`, the slot loop at data/scheduler.py:63-65 never ends. With a
  negative step, `current` keeps falling and the loop runs until datetime
  arithmetic raises `OverflowError` (or memory runs out first). With
  `end < start` that loop never runs and the source returns an empty
  schedule. The model covers none of these inputs.
- The `print` on a failed placement (data/scheduler.py:116) is I/O. The model
  counts those occurrences instead: `BuildSchedule` returns the ghost output
  `missed`, where `missed[i][r]` is the number of occurrences of the r-th dose
  in priority order that found no slot on day i, and `Unplaced(missed)` is
  their total. `Scheduler.DayCounts` ties each `missed[i]` to the entries
  day i appends, and bounds `missed[i][r]` by that dose's `times_per_day`.
- Floating-point hours (data/scheduler.py:21) are not modelled. With
  whole-minute timestamps, `|Δ|/60 < r` is the same test as `|Δ| < 60r`, so
  the model compares integers.
- Calendar machinery (`date()`, `datetime.combine`, `timedelta`) is
  replaced by integer minute arithmetic. The model has no time zones and no
  daylight-saving shifts, as with the naive datetimes the source uses.
- The model does not claim that the result is the largest feasible schedule.
  It also does not claim that widening the window places more doses. The
  greedy search promises neither.

## Findings

| source | as written | input that shows it | evidently intended | confidence | as-written member | corrected member |
|---|---|---|---|---|---|---|
| data/scheduler.py:90 | `day_end = min(day_start + 1 day - delta, end_dt)` ends a day's segment one slot step before the next day starts | `slot_minutes=100`, window from minute 0 to minute 1400: day 0 covers `[0, 1340]` and day 1 starts at 1440, so the slot at 1400 is never offered | every slot "that falls on this day" is offered: the segment runs up to one minute before the next day starts. This is the same for steps that divide 1440, such as the default 60 | medium, not executed | `Slots.SlotSkippedAsWritten` | `Slots.SlotInItsDay` |

`BuildSchedule` with `corrected` false is the source as written. With
`corrected` true it uses the corrected day end `Slots.DayEnd`. For every slot
step that divides a day, the two settings offer exactly the same slots
(`Slots.CorrectionAgreesOnDividingSteps`). With line 90 as written and a step
longer than a day, nothing is ever placed (`Scheduler.NothingPlacedWithLongStep`).
