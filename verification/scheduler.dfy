/** The greedy per-day scheduler: symmetrises the interaction rows, builds the
    slot grid, orders the required doses by priority and, day by day, places
    each occurrence at the first slot of that day the checker accepts. */
module Scheduler {
  import opened Doses
  import opened Constraints
  import opened Priority
  import opened Slots

  /** One row of the interaction table: a drug and a drug not to take with it. */
  datatype Interaction = Interaction(taking: DrugId, notToTakeWith: DrugId)

  /** The forbidden pairs the rows describe, each stored in both orders. */
  function PairSet(rows: seq<Interaction>): (pairs: set<(DrugId, DrugId)>)
    ensures Symmetric(pairs)
  {
    if rows == [] then {}
    else
      var last := rows[|rows| - 1];
      PairSet(rows[..|rows| - 1]) + {(last.taking, last.notToTakeWith), (last.notToTakeWith, last.taking)}
  }

  /** The pair set holds both orders of every row, and nothing else. */
  lemma {:induction false} PairSetHoldsRows(rows: seq<Interaction>)
    ensures forall i :: 0 <= i < |rows| ==>
              (rows[i].taking, rows[i].notToTakeWith) in PairSet(rows) &&
              (rows[i].notToTakeWith, rows[i].taking) in PairSet(rows)
    ensures forall p :: p in PairSet(rows) ==>
              exists i :: 0 <= i < |rows| &&
                (p == (rows[i].taking, rows[i].notToTakeWith) || p == (rows[i].notToTakeWith, rows[i].taking))
  {
    if rows != [] {
      var front := rows[..|rows| - 1];
      PairSetHoldsRows(front);
      assert forall i :: 0 <= i < |front| ==> front[i] == rows[i];
    }
  }

  /** The loop that adds every row to the forbidden-pair set in both orders. */
  method ForbiddenPairs(rows: seq<Interaction>) returns (pairs: set<(DrugId, DrugId)>)
    ensures pairs == PairSet(rows)
  {
    pairs := {};
    for i := 0 to |rows|
      invariant pairs == PairSet(rows[..i])
    {
      assert rows[..i + 1][..i] == rows[..i];
      pairs := pairs + {(rows[i].taking, rows[i].notToTakeWith)};
      pairs := pairs + {(rows[i].notToTakeWith, rows[i].taking)};
    }
    assert rows[..|rows|] == rows;
  }

  /** The index of the first slot of `daySlots`, from `from` on, that the
      checker accepts for `drug` against `schedule`, or `|daySlots|` when no
      slot is accepted. */
  function FirstAccepted(daySlots: seq<int>, from: nat, drug: DrugId, schedule: seq<Entry>, hours: map<DrugId, int>,
                         forbidden: set<(DrugId, DrugId)>): (r: nat)
    requires drug in hours && from <= |daySlots|
    decreases |daySlots| - from
    ensures from <= r <= |daySlots|
  {
    if from == |daySlots| then from
    else if Legal(daySlots[from], drug, schedule, hours, forbidden) then from
    else FirstAccepted(daySlots, from + 1, drug, schedule, hours, forbidden)
  }

  /** The slot `FirstAccepted` finds is accepted, and every slot before it,
      from `from` on, is rejected. */
  lemma {:induction false} FirstAcceptedIsFirst(daySlots: seq<int>, from: nat, drug: DrugId, schedule: seq<Entry>,
                                                hours: map<DrugId, int>, forbidden: set<(DrugId, DrugId)>)
    requires drug in hours && from <= |daySlots|
    decreases |daySlots| - from
    ensures var r := FirstAccepted(daySlots, from, drug, schedule, hours, forbidden);
            (r < |daySlots| ==> Legal(daySlots[r], drug, schedule, hours, forbidden)) &&
            forall k :: from <= k < r ==> !Legal(daySlots[k], drug, schedule, hours, forbidden)
  {
    if from < |daySlots| && !Legal(daySlots[from], drug, schedule, hours, forbidden) {
      FirstAcceptedIsFirst(daySlots, from + 1, drug, schedule, hours, forbidden);
    }
  }

  /** First fit: `schedule` with a unit dose of `drug` at the first accepted
      slot of the day, or unchanged when no slot is accepted. */
  function PlaceOnce(daySlots: seq<int>, drug: DrugId, schedule: seq<Entry>, hours: map<DrugId, int>,
                     forbidden: set<(DrugId, DrugId)>): (r: seq<Entry>)
    requires drug in hours
  {
    var i := FirstAccepted(daySlots, 0, drug, schedule, hours, forbidden);
    if i < |daySlots| then schedule + [Entry(drug, daySlots[i], 1)] else schedule
  }

  /** `n` occurrences of `drug`, one after another, each placed by first fit
      against the schedule as it stands after the previous ones. */
  function PlaceTimes(daySlots: seq<int>, drug: DrugId, n: nat, schedule: seq<Entry>, hours: map<DrugId, int>,
                      forbidden: set<(DrugId, DrugId)>): (r: seq<Entry>)
    requires drug in hours
  {
    if n == 0 then schedule
    else PlaceOnce(daySlots, drug, PlaceTimes(daySlots, drug, n - 1, schedule, hours, forbidden), hours, forbidden)
  }

  /** The greedy day: the doses of `sorted`, in that order, each get their
      occurrences by first fit on the day's slots. */
  function GreedyDay(daySlots: seq<int>, sorted: seq<RequiredDose>, schedule: seq<Entry>, hours: map<DrugId, int>,
                     forbidden: set<(DrugId, DrugId)>): (r: seq<Entry>)
    requires Profiled(sorted, hours)
  {
    if sorted == [] then schedule
    else
      var front, last := sorted[..|sorted| - 1], sorted[|sorted| - 1];
      assert forall i :: 0 <= i < |front| ==> front[i] == sorted[i];
      PlaceTimes(daySlots, last.drug, Occurrences(last), GreedyDay(daySlots, front, schedule, hours, forbidden),
                 hours, forbidden)
  }

  /** A single dose asked for once, on an empty schedule, takes the first slot
      of the day. */
  lemma FirstDoseTakesFirstSlot(daySlots: seq<int>, drug: DrugId, hours: map<DrugId, int>,
                                forbidden: set<(DrugId, DrugId)>)
    requires drug in hours && daySlots != []
    ensures GreedyDay(daySlots, [RequiredDose(drug, 1)], [], hours, forbidden) == [Entry(drug, daySlots[0], 1)]
  {
    var dose := RequiredDose(drug, 1);
    assert [dose][..0] == [];
    assert Legal(daySlots[0], drug, [], hours, forbidden);
    assert FirstAccepted(daySlots, 0, drug, [], hours, forbidden) == 0;
    assert PlaceTimes(daySlots, drug, 1, [], hours, forbidden) == [Entry(drug, daySlots[0], 1)];
  }

  /** `PlaceOnce` is first fit: given the first slot of the day the checker
      accepts, it appends a unit dose at exactly that slot. */
  lemma PlaceOnceTakesFirstAccepted(daySlots: seq<int>, drug: DrugId, schedule: seq<Entry>, hours: map<DrugId, int>,
                                    forbidden: set<(DrugId, DrugId)>, i: nat)
    requires drug in hours && i < |daySlots| && Legal(daySlots[i], drug, schedule, hours, forbidden)
    requires forall k :: 0 <= k < i ==> !Legal(daySlots[k], drug, schedule, hours, forbidden)
    ensures PlaceOnce(daySlots, drug, schedule, hours, forbidden) == schedule + [Entry(drug, daySlots[i], 1)]
  {
    FirstAcceptedIsFirst(daySlots, 0, drug, schedule, hours, forbidden);
  }

  /** One occurrence: scan the day's slots in order and append a unit dose at
      the first one the checker accepts; `placed` says whether one was. */
  method PlaceOccurrence(daySlots: seq<int>, drug: DrugId, schedule: seq<Entry>, hours: map<DrugId, int>,
                         forbidden: set<(DrugId, DrugId)>)
    returns (next: seq<Entry>, placed: bool)
    requires drug in hours
    ensures next == PlaceOnce(daySlots, drug, schedule, hours, forbidden)
    ensures placed <==> next != schedule
  {
    next, placed := schedule, false;
    for k := 0 to |daySlots|
      invariant forall j :: 0 <= j < k ==> !Legal(daySlots[j], drug, schedule, hours, forbidden)
    {
      var candidate := daySlots[k];
      var ok := ConstraintsOk(candidate, drug, schedule, hours, forbidden);
      if ok {
        PlaceOnceTakesFirstAccepted(daySlots, drug, schedule, hours, forbidden, k);
        next, placed := schedule + [Entry(drug, candidate, 1)], true;
        assert |next| != |schedule|;
        return;
      }
    }
    PlaceOnceFirstFit(daySlots, drug, schedule, hours, forbidden);
  }

  /** The drugs the required doses name. */
  function DrugsOf(required: seq<RequiredDose>): (r: set<DrugId>)
  {
    set d | d in required :: d.drug
  }

  /** `next` is `schedule` followed by unit doses of drugs in `drugs`, each at
      one of the day's slots. */
  predicate AppendsDayDoses(schedule: seq<Entry>, next: seq<Entry>, daySlots: seq<int>, drugs: set<DrugId>)
  {
    |schedule| <= |next| && next[..|schedule|] == schedule &&
    forall k :: |schedule| <= k < |next| ==>
      next[k].quantity == 1 && next[k].time in daySlots && next[k].drug in drugs
  }

  /** No slot of the day is one the checker accepts for `drug` against
      `schedule`. */
  predicate NoneAccepted(daySlots: seq<int>, drug: DrugId, schedule: seq<Entry>, hours: map<DrugId, int>,
                         forbidden: set<(DrugId, DrugId)>)
    requires drug in hours
  {
    forall k :: 0 <= k < |daySlots| ==> !Legal(daySlots[k], drug, schedule, hours, forbidden)
  }

  lemma NoneAcceptedStays(daySlots: seq<int>, drug: DrugId, schedule: seq<Entry>, longer: seq<Entry>,
                          hours: map<DrugId, int>, forbidden: set<(DrugId, DrugId)>)
    requires drug in hours
    requires |schedule| <= |longer| && longer[..|schedule|] == schedule
    requires NoneAccepted(daySlots, drug, schedule, hours, forbidden)
    ensures NoneAccepted(daySlots, drug, longer, hours, forbidden)
  {
    forall k | 0 <= k < |daySlots|
      ensures !Legal(daySlots[k], drug, longer, hours, forbidden)
    {
      RejectedStaysRejected(daySlots[k], drug, schedule, longer, hours, forbidden);
    }
  }

  /** One first-fit placement appends at most one unit dose of `drug` at a
      slot of the day, accepted against `schedule`; it appends nothing exactly
      when no slot is accepted. */
  lemma PlaceOnceFirstFit(daySlots: seq<int>, drug: DrugId, schedule: seq<Entry>, hours: map<DrugId, int>,
                          forbidden: set<(DrugId, DrugId)>)
    requires drug in hours
    ensures AppendsDayDoses(schedule, PlaceOnce(daySlots, drug, schedule, hours, forbidden), daySlots, {drug})
    ensures NoneAccepted(daySlots, drug, schedule, hours, forbidden) <==>
            PlaceOnce(daySlots, drug, schedule, hours, forbidden) == schedule
    ensures PlaceOnce(daySlots, drug, schedule, hours, forbidden) != schedule ==>
              exists t :: PlaceOnce(daySlots, drug, schedule, hours, forbidden) == schedule + [Entry(drug, t, 1)] &&
                          Legal(t, drug, schedule, hours, forbidden)
  {
    var i := FirstAccepted(daySlots, 0, drug, schedule, hours, forbidden);
    FirstAcceptedIsFirst(daySlots, 0, drug, schedule, hours, forbidden);
    if i < |daySlots| {
      var next := schedule + [Entry(drug, daySlots[i], 1)];
      assert next[..|schedule|] == schedule;
      assert next[|schedule|].time in daySlots;
      assert |next| != |schedule|;
      assert next == schedule + [Entry(drug, daySlots[i], 1)] && Legal(daySlots[i], drug, schedule, hours, forbidden);
    }
  }

  /** `n` first-fit placements append at most `n` unit doses of `drug`, each
      at a slot of the day. */
  lemma {:induction false} PlaceTimesAppends(daySlots: seq<int>, drug: DrugId, n: nat, schedule: seq<Entry>,
                                             hours: map<DrugId, int>, forbidden: set<(DrugId, DrugId)>)
    requires drug in hours
    ensures AppendsDayDoses(schedule, PlaceTimes(daySlots, drug, n, schedule, hours, forbidden), daySlots, {drug})
    ensures |PlaceTimes(daySlots, drug, n, schedule, hours, forbidden)| <= |schedule| + n
  {
    if n > 0 {
      var before := PlaceTimes(daySlots, drug, n - 1, schedule, hours, forbidden);
      PlaceTimesAppends(daySlots, drug, n - 1, schedule, hours, forbidden);
      PlaceOnceFirstFit(daySlots, drug, before, hours, forbidden);
      AppendsDayDosesChain(schedule, before, PlaceOnce(daySlots, drug, before, hours, forbidden), daySlots,
                           {drug}, drug);
    }
  }

  /** One first-fit placement appends nothing or exactly one entry. */
  lemma PlaceOnceLength(daySlots: seq<int>, drug: DrugId, schedule: seq<Entry>, hours: map<DrugId, int>,
                        forbidden: set<(DrugId, DrugId)>)
    requires drug in hours
    ensures PlaceOnce(daySlots, drug, schedule, hours, forbidden) == schedule ||
            |PlaceOnce(daySlots, drug, schedule, hours, forbidden)| == |schedule| + 1
  {
  }

  /** When fewer than `n` doses were appended, an occurrence found no slot,
      and the result is one that a further first-fit placement leaves
      unchanged. */
  lemma {:induction false} PlaceTimesStarves(daySlots: seq<int>, drug: DrugId, n: nat, schedule: seq<Entry>,
                                             hours: map<DrugId, int>, forbidden: set<(DrugId, DrugId)>)
    requires drug in hours
    ensures |PlaceTimes(daySlots, drug, n, schedule, hours, forbidden)| < |schedule| + n ==>
            PlaceOnce(daySlots, drug, PlaceTimes(daySlots, drug, n, schedule, hours, forbidden), hours, forbidden) ==
            PlaceTimes(daySlots, drug, n, schedule, hours, forbidden)
  {
    if n > 0 {
      var before := PlaceTimes(daySlots, drug, n - 1, schedule, hours, forbidden);
      var next := PlaceOnce(daySlots, drug, before, hours, forbidden);
      assert next == PlaceTimes(daySlots, drug, n, schedule, hours, forbidden);
      PlaceOnceLength(daySlots, drug, before, hours, forbidden);
      if next != before && |next| < |schedule| + n {
        PlaceTimesStarves(daySlots, drug, n - 1, schedule, hours, forbidden);
        assert false;
      }
    }
  }

  /** First-fit placements keep a safe schedule safe. */
  lemma {:induction false} PlaceTimesKeepsSafe(daySlots: seq<int>, drug: DrugId, n: nat, schedule: seq<Entry>,
                                               hours: map<DrugId, int>, forbidden: set<(DrugId, DrugId)>)
    requires drug in hours && Symmetric(forbidden) && Safe(schedule, hours, forbidden)
    ensures Safe(PlaceTimes(daySlots, drug, n, schedule, hours, forbidden), hours, forbidden)
  {
    if n > 0 {
      var before := PlaceTimes(daySlots, drug, n - 1, schedule, hours, forbidden);
      PlaceTimesKeepsSafe(daySlots, drug, n - 1, schedule, hours, forbidden);
      var i := FirstAccepted(daySlots, 0, drug, before, hours, forbidden);
      FirstAcceptedIsFirst(daySlots, 0, drug, before, hours, forbidden);
      if i < |daySlots| {
        LegalAppendKeepsSafe(before, Entry(drug, daySlots[i], 1), hours, forbidden);
      }
    }
  }

  /** The `times_per_day` occurrences of one required dose on one day, each
      placed by first fit against the schedule as the previous ones left it.
      Every occurrence either appends one unit dose at one of the day's slots
      or is counted in `unplaced`, and one is counted only when no slot of the
      day is accepted any more. */
  method PlaceDoseForDay(daySlots: seq<int>, dose: RequiredDose, schedule: seq<Entry>, hours: map<DrugId, int>,
                         forbidden: set<(DrugId, DrugId)>)
    returns (next: seq<Entry>, ghost unplaced: nat)
    requires dose.drug in hours
    ensures next == PlaceTimes(daySlots, dose.drug, Occurrences(dose), schedule, hours, forbidden)
    ensures AppendsDayDoses(schedule, next, daySlots, {dose.drug})
    ensures |next| - |schedule| + unplaced == Occurrences(dose) && unplaced <= Occurrences(dose)
    ensures unplaced > 0 ==> NoneAccepted(daySlots, dose.drug, next, hours, forbidden)
    ensures Symmetric(forbidden) && Safe(schedule, hours, forbidden) ==> Safe(next, hours, forbidden)
  {
    var drugId := dose.drug;
    var timesPerDay := dose.timesPerDay;
    next := schedule;
    var n := 0;
    while n < timesPerDay
      invariant 0 <= n && (n <= timesPerDay || n == 0)
      invariant next == PlaceTimes(daySlots, drugId, n, schedule, hours, forbidden)
    {
      var before := next;
      var placed;
      next, placed := PlaceOccurrence(daySlots, drugId, next, hours, forbidden);
      n := n + 1;
      PlaceTimesStep(daySlots, drugId, n, schedule, before, next, hours, forbidden);
    }
    assert n == Occurrences(dose);
    PlaceDoseFacts(daySlots, dose, schedule, next, hours, forbidden);
    unplaced := n - (|next| - |schedule|);
  }

  /** What the first-fit placements of one dose's occurrences amount to. */
  lemma PlaceDoseFacts(daySlots: seq<int>, dose: RequiredDose, schedule: seq<Entry>, next: seq<Entry>,
                       hours: map<DrugId, int>, forbidden: set<(DrugId, DrugId)>)
    requires dose.drug in hours
    requires next == PlaceTimes(daySlots, dose.drug, Occurrences(dose), schedule, hours, forbidden)
    ensures AppendsDayDoses(schedule, next, daySlots, {dose.drug})
    ensures |next| - |schedule| <= Occurrences(dose)
    ensures |next| - |schedule| < Occurrences(dose) ==> NoneAccepted(daySlots, dose.drug, next, hours, forbidden)
    ensures Symmetric(forbidden) && Safe(schedule, hours, forbidden) ==> Safe(next, hours, forbidden)
  {
    var n := Occurrences(dose);
    PlaceTimesAppends(daySlots, dose.drug, n, schedule, hours, forbidden);
    PlaceTimesStarves(daySlots, dose.drug, n, schedule, hours, forbidden);
    PlaceOnceFirstFit(daySlots, dose.drug, next, hours, forbidden);
    if Symmetric(forbidden) && Safe(schedule, hours, forbidden) {
      PlaceTimesKeepsSafe(daySlots, dose.drug, n, schedule, hours, forbidden);
    }
  }

  lemma PlaceTimesStep(daySlots: seq<int>, drug: DrugId, n: nat, schedule: seq<Entry>, before: seq<Entry>,
                       next: seq<Entry>, hours: map<DrugId, int>, forbidden: set<(DrugId, DrugId)>)
    requires drug in hours && n > 0
    requires before == PlaceTimes(daySlots, drug, n - 1, schedule, hours, forbidden)
    requires next == PlaceOnce(daySlots, drug, before, hours, forbidden)
    ensures next == PlaceTimes(daySlots, drug, n, schedule, hours, forbidden)
  {
  }

  /** Every dose of `sorted` with a missed occurrence (`missed[r] > 0`) has no
      slot of the day that the checker accepts against `schedule`. */
  predicate Starved(daySlots: seq<int>, sorted: seq<RequiredDose>, missed: seq<nat>, schedule: seq<Entry>,
                    hours: map<DrugId, int>, forbidden: set<(DrugId, DrugId)>)
    requires Profiled(sorted, hours) && |missed| <= |sorted|
  {
    forall r :: 0 <= r < |missed| && missed[r] > 0 ==> NoneAccepted(daySlots, sorted[r].drug, schedule, hours, forbidden)
  }

  lemma StarvedStays(daySlots: seq<int>, sorted: seq<RequiredDose>, missed: seq<nat>, schedule: seq<Entry>,
                     longer: seq<Entry>, hours: map<DrugId, int>, forbidden: set<(DrugId, DrugId)>)
    requires Profiled(sorted, hours) && |missed| <= |sorted|
    requires |schedule| <= |longer| && longer[..|schedule|] == schedule
    requires Starved(daySlots, sorted, missed, schedule, hours, forbidden)
    ensures Starved(daySlots, sorted, missed, longer, hours, forbidden)
  {
    forall r | 0 <= r < |missed| && missed[r] > 0
      ensures NoneAccepted(daySlots, sorted[r].drug, longer, hours, forbidden)
    {
      NoneAcceptedStays(daySlots, sorted[r].drug, schedule, longer, hours, forbidden);
    }
  }

  lemma StarvedAppend(daySlots: seq<int>, sorted: seq<RequiredDose>, missed: seq<nat>, m: nat, schedule: seq<Entry>,
                      hours: map<DrugId, int>, forbidden: set<(DrugId, DrugId)>)
    requires Profiled(sorted, hours) && |missed| < |sorted|
    requires Starved(daySlots, sorted, missed, schedule, hours, forbidden)
    requires m > 0 ==> NoneAccepted(daySlots, sorted[|missed|].drug, schedule, hours, forbidden)
    ensures Starved(daySlots, sorted, missed + [m], schedule, hours, forbidden)
  {
    var n := missed + [m];
    forall r | 0 <= r < |n| && n[r] > 0
      ensures NoneAccepted(daySlots, sorted[r].drug, schedule, hours, forbidden)
    {
      if r < |missed| {
        assert n[r] == missed[r];
      }
    }
  }

  /** The sum of `s`. */
  function Sum(s: seq<nat>): (r: nat)
  {
    if s == [] then 0 else Sum(s[..|s| - 1]) + s[|s| - 1]
  }

  /** One day of the greedy loop: every required dose, in priority order, gets
      its occurrences for the day. `missed[r]` counts the occurrences of
      `sorted[r]` that found no slot; a dose misses one only when, at the end
      of the day, no slot of the day is accepted for it. */
  method ScheduleDay(daySlots: seq<int>, sorted: seq<RequiredDose>, schedule: seq<Entry>, hours: map<DrugId, int>,
                     forbidden: set<(DrugId, DrugId)>)
    returns (next: seq<Entry>, ghost missed: seq<nat>)
    requires Profiled(sorted, hours)
    ensures AppendsDayDoses(schedule, next, daySlots, DrugsOf(sorted))
    ensures |missed| == |sorted| && forall r :: 0 <= r < |sorted| ==> missed[r] <= Occurrences(sorted[r])
    ensures |next| - |schedule| + Sum(missed) == PerDayTotal(sorted)
    ensures Starved(daySlots, sorted, missed, next, hours, forbidden)
    ensures next == GreedyDay(daySlots, sorted, schedule, hours, forbidden)
    ensures Symmetric(forbidden) && Safe(schedule, hours, forbidden) ==> Safe(next, hours, forbidden)
  {
    ghost var safe := Symmetric(forbidden) && Safe(schedule, hours, forbidden);
    ghost var drugs := DrugsOf(sorted);
    next, missed := schedule, [];
    for r := 0 to |sorted|
      invariant AppendsDayDoses(schedule, next, daySlots, drugs)
      invariant |missed| == r && forall j :: 0 <= j < r ==> missed[j] <= Occurrences(sorted[j])
      invariant |next| - |schedule| + Sum(missed) == PerDayTotal(sorted[..r])
      invariant Starved(daySlots, sorted, missed, next, hours, forbidden)
      invariant next == GreedyDay(daySlots, sorted[..r], schedule, hours, forbidden)
      invariant safe ==> Safe(next, hours, forbidden)
    {
      var before := next;
      ghost var m;
      next, m := PlaceDoseForDay(daySlots, sorted[r], next, hours, forbidden);
      AppendsDayDosesChain(schedule, before, next, daySlots, drugs, sorted[r].drug) by {
        assert sorted[r] in sorted;
      }
      StarvedStays(daySlots, sorted, missed, before, next, hours, forbidden);
      StarvedAppend(daySlots, sorted, missed, m, next, hours, forbidden);
      SumAppend(missed, m);
      MissedWithin(sorted, missed, m);
      PerDayTotalPrefix(sorted, r);
      GreedyDayStep(daySlots, sorted, r, schedule, hours, forbidden);
      missed := missed + [m];
    }
    assert sorted[..|sorted|] == sorted;
  }

  lemma MissedWithin(sorted: seq<RequiredDose>, missed: seq<nat>, m: nat)
    requires |missed| < |sorted| && m <= Occurrences(sorted[|missed|])
    requires forall j :: 0 <= j < |missed| ==> missed[j] <= Occurrences(sorted[j])
    ensures forall j :: 0 <= j < |missed| + 1 ==> (missed + [m])[j] <= Occurrences(sorted[j])
  {
  }

  lemma GreedyDayStep(daySlots: seq<int>, sorted: seq<RequiredDose>, r: int, schedule: seq<Entry>,
                      hours: map<DrugId, int>, forbidden: set<(DrugId, DrugId)>)
    requires Profiled(sorted, hours) && 0 <= r < |sorted|
    ensures Profiled(sorted[..r], hours) && Profiled(sorted[..r + 1], hours)
    ensures GreedyDay(daySlots, sorted[..r + 1], schedule, hours, forbidden) ==
            PlaceTimes(daySlots, sorted[r].drug, Occurrences(sorted[r]),
                       GreedyDay(daySlots, sorted[..r], schedule, hours, forbidden), hours, forbidden)
  {
    assert sorted[..r + 1][..r] == sorted[..r];
  }

  lemma AppendsDayDosesChain(schedule: seq<Entry>, middle: seq<Entry>, next: seq<Entry>, daySlots: seq<int>,
                             drugs: set<DrugId>, drug: DrugId)
    requires drug in drugs
    requires AppendsDayDoses(schedule, middle, daySlots, drugs)
    requires AppendsDayDoses(middle, next, daySlots, {drug})
    ensures AppendsDayDoses(schedule, next, daySlots, drugs)
  {
    assert next[..|schedule|] == middle[..|schedule|];
  }

  lemma SumAppend(s: seq<nat>, m: nat)
    ensures Sum(s + [m]) == Sum(s) + m
  {
    assert (s + [m])[..|s|] == s;
  }

  lemma PerDayTotalPrefix(s: seq<RequiredDose>, r: int)
    requires 0 <= r < |s|
    ensures PerDayTotal(s[..r + 1]) == PerDayTotal(s[..r]) + Occurrences(s[r])
  {
    assert s[..r + 1][..r] == s[..r];
  }

  /** Entry `e` is a unit dose at a slot of the window that lies in the
      segment of day `day`. */
  predicate PlacedOn(e: Entry, day: nat, start: int, end: int, step: int, corrected: bool)
    requires step > 0
  {
    e.quantity == 1 &&
    e.time in SlotGrid(start, end, step) &&
    DayStart(start, day) <= e.time <= SegmentEnd(DayStart(start, day), end, step, corrected)
  }

  /** `placedDay[k]` is the day on which `schedule[k]` was placed: a day before
      `limit`, whose segment holds the entry; days never decrease along the
      schedule, and every entry is a dose of a required drug. */
  predicate Placements(schedule: seq<Entry>, placedDay: seq<nat>, drugs: set<DrugId>,
                       start: int, end: int, step: int, corrected: bool, limit: nat)
    requires step > 0
  {
    |placedDay| == |schedule| &&
    (forall k :: 0 <= k < |schedule| ==>
       schedule[k].drug in drugs && placedDay[k] < limit &&
       PlacedOn(schedule[k], placedDay[k], start, end, step, corrected)) &&
    (forall i, j :: 0 <= i < j < |placedDay| ==> placedDay[i] <= placedDay[j])
  }

  /** Doses appended on day `day` from that day's slots extend the record of
      placements by that day. */
  lemma PlacementsExtend(schedule: seq<Entry>, next: seq<Entry>, placedDay: seq<nat>, drugs: set<DrugId>,
                         start: int, end: int, step: int, corrected: bool, day: nat)
    requires step > 0
    requires Placements(schedule, placedDay, drugs, start, end, step, corrected, day)
    requires AppendsDayDoses(schedule, next, SegmentSlots(start, end, step, corrected, day), drugs)
    ensures Placements(next, placedDay + seq(|next| - |schedule|, _ => day), drugs, start, end, step, corrected, day + 1)
  {
    var d := placedDay + seq(|next| - |schedule|, _ => day);
    forall k | 0 <= k < |next|
      ensures next[k].drug in drugs && d[k] < day + 1 && PlacedOn(next[k], d[k], start, end, step, corrected)
    {
      if k < |schedule| {
        assert next[k] == schedule[k];
      }
    }
  }

  /** With the day end as the source writes it, a step longer than a day
      leaves every day's segment empty, so no placement record can hold an
      entry. */
  lemma NothingPlacedWithLongStep(schedule: seq<Entry>, placedDay: seq<nat>, drugs: set<DrugId>,
                                  start: int, end: int, step: int, limit: nat)
    requires step > MinutesPerDay
    requires Placements(schedule, placedDay, drugs, start, end, step, false, limit)
    ensures schedule == []
  {
    if schedule != [] {
      FirstPlacement(schedule, placedDay, drugs, start, end, step, false, limit);
      assert false;
    }
  }

  lemma FirstPlacement(schedule: seq<Entry>, placedDay: seq<nat>, drugs: set<DrugId>,
                       start: int, end: int, step: int, corrected: bool, limit: nat)
    requires step > 0 && schedule != []
    requires Placements(schedule, placedDay, drugs, start, end, step, corrected, limit)
    ensures PlacedOn(schedule[0], placedDay[0], start, end, step, corrected)
  {
  }

  lemma SameDosesSameDrugs(a: seq<RequiredDose>, b: seq<RequiredDose>)
    requires multiset(a) == multiset(b)
    ensures DrugsOf(a) == DrugsOf(b)
  {
    assert forall d :: d in a <==> d in multiset(a);
    assert forall d :: d in b <==> d in multiset(b);
  }

  /** `total` occurrences on each of `days` days, counted day by day. */
  function Quota(days: nat, total: nat): (r: nat)
  {
    if days == 0 then 0 else Quota(days - 1, total) + total
  }

  lemma {:induction false} QuotaIsProduct(days: nat, total: nat)
    ensures Quota(days, total) == days * total
  {
    if days > 0 {
      QuotaIsProduct(days - 1, total);
      assert (days - 1) * total + total == days * total;
    }
  }

  lemma FewerDaysFewerDoses(days: nat, windowDays: nat, total: nat)
    requires days <= windowDays
    ensures days * total <= windowDays * total
  {
  }

  /** One pass of the per-day loop: the day's slots are the grid slots of its
      segment, and every required dose is placed on them in priority order.
      The entries appended are recorded as placed on that day. */
  method VisitDay(slots: seq<int>, sorted: seq<RequiredDose>, schedule: seq<Entry>, hours: map<DrugId, int>,
                  forbidden: set<(DrugId, DrugId)>, start: int, end: int, step: int, corrected: bool,
                  dayIndex: nat, ghost placedDay: seq<nat>)
    returns (next: seq<Entry>, ghost missed: seq<nat>, ghost nextPlacedDay: seq<nat>)
    requires step > 0 && slots == SlotGrid(start, end, step)
    requires Profiled(sorted, hours)
    requires Placements(schedule, placedDay, DrugsOf(sorted), start, end, step, corrected, dayIndex)
    ensures |schedule| <= |next| && next[..|schedule|] == schedule
    ensures Placements(next, nextPlacedDay, DrugsOf(sorted), start, end, step, corrected, dayIndex + 1)
    ensures |missed| == |sorted| && |next| + Sum(missed) == |schedule| + PerDayTotal(sorted)
    ensures forall r :: 0 <= r < |sorted| ==> missed[r] <= Occurrences(sorted[r])
    ensures Starved(SegmentSlots(start, end, step, corrected, dayIndex), sorted, missed, next, hours, forbidden)
    ensures next == GreedyDay(SegmentSlots(start, end, step, corrected, dayIndex), sorted, schedule, hours, forbidden)
    ensures Symmetric(forbidden) && Safe(schedule, hours, forbidden) ==> Safe(next, hours, forbidden)
  {
    var dayStart := DayStart(start, dayIndex);
    var dayEnd := SegmentEnd(dayStart, end, step, corrected);
    var daySlots := DaySlots(slots, dayStart, dayEnd);
    next, missed := ScheduleDay(daySlots, sorted, schedule, hours, forbidden);
    PlacementsExtend(schedule, next, placedDay, DrugsOf(sorted), start, end, step, corrected, dayIndex);
    nextPlacedDay := placedDay + seq(|next| - |schedule|, _ => dayIndex);
  }

  /** The greedy schedule after the first `days` days of the window: each
      day's segment is filled by `GreedyDay`, in priority order, on top of the
      schedule the earlier days left. */
  function GreedyDays(start: int, end: int, step: int, corrected: bool, sorted: seq<RequiredDose>, days: nat,
                      hours: map<DrugId, int>, forbidden: set<(DrugId, DrugId)>): (r: seq<Entry>)
    requires step > 0 && Profiled(sorted, hours)
  {
    if days == 0 then []
    else GreedyDay(SegmentSlots(start, end, step, corrected, days - 1), sorted,
                   GreedyDays(start, end, step, corrected, sorted, days - 1, hours, forbidden), hours, forbidden)
  }

  lemma GreedyDaysStep(start: int, end: int, step: int, corrected: bool, sorted: seq<RequiredDose>, days: nat,
                       before: seq<Entry>, next: seq<Entry>, hours: map<DrugId, int>, forbidden: set<(DrugId, DrugId)>)
    requires step > 0 && Profiled(sorted, hours) && days > 0
    requires before == GreedyDays(start, end, step, corrected, sorted, days - 1, hours, forbidden)
    requires next == GreedyDay(SegmentSlots(start, end, step, corrected, days - 1), sorted, before, hours, forbidden)
    ensures next == GreedyDays(start, end, step, corrected, sorted, days, hours, forbidden)
  {
  }

  /** For every visited day `i`, the doses of `sorted` that missed an
      occurrence that day (`missed[i]`) have no slot of that day's segment the
      checker accepts against `schedule`. */
  predicate StarvedDays(start: int, end: int, step: int, corrected: bool, sorted: seq<RequiredDose>,
                        missed: seq<seq<nat>>, schedule: seq<Entry>, hours: map<DrugId, int>,
                        forbidden: set<(DrugId, DrugId)>)
    requires step > 0 && Profiled(sorted, hours)
    requires forall i :: 0 <= i < |missed| ==> |missed[i]| == |sorted|
  {
    forall i: nat :: i < |missed| ==>
      Starved(SegmentSlots(start, end, step, corrected, i), sorted, missed[i], schedule, hours, forbidden)
  }

  lemma StarvedDaysExtend(start: int, end: int, step: int, corrected: bool, sorted: seq<RequiredDose>,
                          missed: seq<seq<nat>>, m: seq<nat>, schedule: seq<Entry>, next: seq<Entry>,
                          hours: map<DrugId, int>, forbidden: set<(DrugId, DrugId)>)
    requires step > 0 && Profiled(sorted, hours) && |m| == |sorted|
    requires forall i :: 0 <= i < |missed| ==> |missed[i]| == |sorted|
    requires |schedule| <= |next| && next[..|schedule|] == schedule
    requires StarvedDays(start, end, step, corrected, sorted, missed, schedule, hours, forbidden)
    requires Starved(SegmentSlots(start, end, step, corrected, |missed|), sorted, m, next, hours, forbidden)
    ensures forall i :: 0 <= i < |missed + [m]| ==> |(missed + [m])[i]| == |sorted|
    ensures StarvedDays(start, end, step, corrected, sorted, missed + [m], next, hours, forbidden)
  {
    var n := missed + [m];
    forall i: nat | i < |n|
      ensures Starved(SegmentSlots(start, end, step, corrected, i), sorted, n[i], next, hours, forbidden)
    {
      if i < |missed| {
        assert n[i] == missed[i];
        StarvedStays(SegmentSlots(start, end, step, corrected, i), sorted, missed[i], schedule, next, hours, forbidden);
      }
    }
  }

  /** The occurrences missed over all visited days. */
  function Unplaced(missed: seq<seq<nat>>): (r: nat)
  {
    if missed == [] then 0 else Unplaced(missed[..|missed| - 1]) + Sum(missed[|missed| - 1])
  }

  lemma UnplacedAppend(missed: seq<seq<nat>>, m: seq<nat>)
    ensures Unplaced(missed + [m]) == Unplaced(missed) + Sum(m)
  {
    assert (missed + [m])[..|missed|] == missed;
  }

  /** Per visited day `i`: the entries day `i` appends to the greedy schedule,
      together with the occurrences it missed (`missed[i]`), make up the
      per-day total, and no dose misses more than its `times_per_day`. */
  predicate DayCounts(start: int, end: int, step: int, corrected: bool, sorted: seq<RequiredDose>,
                      missed: seq<seq<nat>>, hours: map<DrugId, int>, forbidden: set<(DrugId, DrugId)>)
    requires step > 0 && Profiled(sorted, hours)
    requires forall i :: 0 <= i < |missed| ==> |missed[i]| == |sorted|
  {
    forall i: nat :: i < |missed| ==>
      |GreedyDays(start, end, step, corrected, sorted, i + 1, hours, forbidden)| + Sum(missed[i]) ==
      |GreedyDays(start, end, step, corrected, sorted, i, hours, forbidden)| + PerDayTotal(sorted) &&
      forall r :: 0 <= r < |sorted| ==> missed[i][r] <= Occurrences(sorted[r])
  }

  lemma DayCountsExtend(start: int, end: int, step: int, corrected: bool, sorted: seq<RequiredDose>,
                        missed: seq<seq<nat>>, m: seq<nat>, hours: map<DrugId, int>,
                        forbidden: set<(DrugId, DrugId)>)
    requires step > 0 && Profiled(sorted, hours) && |m| == |sorted|
    requires forall i :: 0 <= i < |missed| ==> |missed[i]| == |sorted|
    requires DayCounts(start, end, step, corrected, sorted, missed, hours, forbidden)
    requires |GreedyDays(start, end, step, corrected, sorted, |missed| + 1, hours, forbidden)| + Sum(m) ==
             |GreedyDays(start, end, step, corrected, sorted, |missed|, hours, forbidden)| + PerDayTotal(sorted)
    requires forall r :: 0 <= r < |sorted| ==> m[r] <= Occurrences(sorted[r])
    ensures forall i :: 0 <= i < |missed + [m]| ==> |(missed + [m])[i]| == |sorted|
    ensures DayCounts(start, end, step, corrected, sorted, missed + [m], hours, forbidden)
  {
    var all := missed + [m];
    forall i: nat | i < |all|
      ensures |GreedyDays(start, end, step, corrected, sorted, i + 1, hours, forbidden)| + Sum(all[i]) ==
              |GreedyDays(start, end, step, corrected, sorted, i, hours, forbidden)| + PerDayTotal(sorted)
      ensures forall r :: 0 <= r < |sorted| ==> all[i][r] <= Occurrences(sorted[r])
    {
      if i < |missed| {
        assert all[i] == missed[i];
      } else {
        assert i == |missed| && all[i] == m;
      }
    }
  }

  /** The per-day loop of build_schedule_for_patient: from the window's first
      date, visit each day whose start is not past the end of the window, at
      most `WindowDays` of them, and schedule the doses of `sorted` on it. */
  method ScheduleDays(slots: seq<int>, sorted: seq<RequiredDose>, hours: map<DrugId, int>,
                      forbidden: set<(DrugId, DrugId)>, start: int, end: int, step: int, corrected: bool)
    returns (schedule: seq<Entry>, ghost days: nat, ghost missed: seq<seq<nat>>, ghost placedDay: seq<nat>)
    requires step > 0 && slots == SlotGrid(start, end, step)
    requires Profiled(sorted, hours) && Symmetric(forbidden)
    ensures Safe(schedule, hours, forbidden)
    ensures Placements(schedule, placedDay, DrugsOf(sorted), start, end, step, corrected, days)
    ensures days <= WindowDays(start, end)
    ensures forall i :: 0 <= i < days ==> DayStart(start, i) <= end
    ensures days < WindowDays(start, end) ==> DayStart(start, days) > end
    ensures |missed| == days && forall i :: 0 <= i < days ==> |missed[i]| == |sorted|
    ensures StarvedDays(start, end, step, corrected, sorted, missed, schedule, hours, forbidden)
    ensures |schedule| + Unplaced(missed) == Quota(days, PerDayTotal(sorted))
    ensures DayCounts(start, end, step, corrected, sorted, missed, hours, forbidden)
    ensures schedule == GreedyDays(start, end, step, corrected, sorted, days, hours, forbidden)
  {
    ghost var total := PerDayTotal(sorted);
    var windowDays := WindowDays(start, end);
    schedule, missed, placedDay := [], [], [];
    var dayIndex := 0;

    while dayIndex < windowDays
      invariant dayIndex <= windowDays
      invariant forall i :: 0 <= i < dayIndex ==> DayStart(start, i) <= end
      invariant Safe(schedule, hours, forbidden)
      invariant Placements(schedule, placedDay, DrugsOf(sorted), start, end, step, corrected, dayIndex)
      invariant |missed| == dayIndex && forall i :: 0 <= i < dayIndex ==> |missed[i]| == |sorted|
      invariant StarvedDays(start, end, step, corrected, sorted, missed, schedule, hours, forbidden)
      invariant |schedule| + Unplaced(missed) == Quota(dayIndex, total)
      invariant DayCounts(start, end, step, corrected, sorted, missed, hours, forbidden)
      invariant schedule == GreedyDays(start, end, step, corrected, sorted, dayIndex, hours, forbidden)
    {
      var dayStart := DayStart(start, dayIndex);
      if dayStart > end {
        break;
      }
      var before := schedule;
      ghost var m;
      schedule, m, placedDay := VisitDay(slots, sorted, schedule, hours, forbidden, start, end, step, corrected,
                                         dayIndex, placedDay);
      StarvedDaysExtend(start, end, step, corrected, sorted, missed, m, before, schedule, hours, forbidden);
      assert (missed + [m])[..dayIndex] == missed;
      UnplacedAppend(missed, m);
      ghost var prev := missed;
      missed := missed + [m];
      dayIndex := dayIndex + 1;
      GreedyDaysStep(start, end, step, corrected, sorted, dayIndex, before, schedule, hours, forbidden);
      DayCountsExtend(start, end, step, corrected, sorted, prev, m, hours, forbidden);
    }
    days := dayIndex;
  }

  /** build_schedule_for_patient, with the profiles and the interaction rows
      given as inputs. With `corrected` false each day's segment ends one slot
      step before the next day, as data/scheduler.py:90 writes it; with
      `corrected` true it ends one minute before. `days` counts the days whose
      segment was visited, `missed[i][r]` the occurrences of the r-th dose in
      priority order that found no slot on day i, and `placedDay` records the
      day each entry was placed on. */
  method BuildSchedule(required: seq<RequiredDose>, hours: map<DrugId, int>, interactions: seq<Interaction>,
                       start: int, end: int, step: int, corrected: bool)
    returns (schedule: seq<Entry>, ghost days: nat, ghost missed: seq<seq<nat>>, ghost placedDay: seq<nat>)
    requires step > 0
    requires Profiled(required, hours)
    ensures Safe(schedule, hours, PairSet(interactions))
    ensures Placements(schedule, placedDay, DrugsOf(required), start, end, step, corrected, days)
    ensures forall k :: 0 <= k < |schedule| ==> start <= schedule[k].time <= end
    ensures days <= WindowDays(start, end)
    ensures forall i :: 0 <= i < days ==> DayStart(start, i) <= end
    ensures days < WindowDays(start, end) ==> DayStart(start, days) > end
    ensures |missed| == days && forall i :: 0 <= i < days ==> |missed[i]| == |SortByPriority(required, hours)|
    ensures StarvedDays(start, end, step, corrected, SortByPriority(required, hours), missed, schedule,
                        hours, PairSet(interactions))
    ensures DayCounts(start, end, step, corrected, SortByPriority(required, hours), missed, hours,
                      PairSet(interactions))
    ensures |schedule| + Unplaced(missed) == days * PerDayTotal(required)
    ensures |schedule| <= WindowDays(start, end) * PerDayTotal(required)
    ensures end < start ==> schedule == []
    ensures !corrected && step > MinutesPerDay ==> schedule == []
    ensures schedule == GreedyDays(start, end, step, corrected, SortByPriority(required, hours), days,
                                   hours, PairSet(interactions))
  {
    var forbidden := ForbiddenPairs(interactions);
    var slots := BuildSlots(start, end, step);
    var sorted := SortByPriority(required, hours);
    SortKeepsPerDayTotal(required, hours);
    SameDosesSameDrugs(sorted, required);
    schedule, days, missed, placedDay := ScheduleDays(slots, sorted, hours, forbidden, start, end, step, corrected);

    ghost var total := PerDayTotal(required);
    if end < start {
      assert DayStart(start, 0) > end;
      assert days == 0 && |schedule| == 0;
    }
    if !corrected && step > MinutesPerDay {
      NothingPlacedWithLongStep(schedule, placedDay, DrugsOf(required), start, end, step, days);
    }
    QuotaIsProduct(days, total);
    FewerDaysFewerDoses(days, WindowDays(start, end), total);
    forall k | 0 <= k < |schedule|
      ensures start <= schedule[k].time <= end
    {
      assert PlacedOn(schedule[k], placedDay[k], start, end, step, corrected);
    }
  }
}
