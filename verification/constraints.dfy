/** The constraint checker: whether a dose of a drug may be placed at a
    candidate minute, given the doses already in the schedule, each drug's
    restricted time in hours and the set of forbidden drug pairs. */
module Constraints {
  import opened Doses

  /** Half-open overlap of the active windows [start1, start1 + dur1 h) and
      [start2, start2 + dur2 h). */
  predicate IntervalsOverlap(start1: int, dur1: int, start2: int, dur2: int)
    ensures IntervalsOverlap(start1, dur1, start2, dur2) <==>
            var end1, end2 := start1 + dur1 * MinutesPerHour, start2 + dur2 * MinutesPerHour;
            start1 < end1 && start2 < end2 && start1 < end2 && start2 < end1
  {
    var end1 := start1 + HoursToMinutes(dur1);
    var end2 := start2 + HoursToMinutes(dur2);
    Max(start1, start2) < Min(end1, end2)
  }

  /** Minute `t` lies in the active window [start, start + dur h). */
  predicate ActiveAt(t: int, start: int, dur: int)
  {
    start <= t < start + HoursToMinutes(dur)
  }

  /** Overlap means that some minute lies in both windows. */
  lemma OverlapIffCommonMinute(start1: int, dur1: int, start2: int, dur2: int)
    ensures IntervalsOverlap(start1, dur1, start2, dur2) <==>
            exists t :: ActiveAt(t, start1, dur1) && ActiveAt(t, start2, dur2)
  {
    if IntervalsOverlap(start1, dur1, start2, dur2) {
      var t := Max(start1, start2);
      assert ActiveAt(t, start1, dur1) && ActiveAt(t, start2, dur2);
    }
  }

  /** The answer does not depend on which window is given first. */
  lemma OverlapSymmetric(start1: int, dur1: int, start2: int, dur2: int)
    ensures IntervalsOverlap(start1, dur1, start2, dur2) == IntervalsOverlap(start2, dur2, start1, dur1)
  {
  }

  /** Windows that merely touch (one ends where the other starts) do not overlap. */
  lemma TouchingDoNotOverlap(start1: int, dur1: int, dur2: int)
    ensures !IntervalsOverlap(start1, dur1, start1 + HoursToMinutes(dur1), dur2)
    ensures !IntervalsOverlap(start1 + HoursToMinutes(dur1), dur2, start1, dur1)
  {
  }

  /** A symmetric relation on drug ids: (a, b) is present exactly when (b, a) is. */
  predicate Symmetric(pairs: set<(DrugId, DrugId)>)
  {
    forall p :: p in pairs ==> (p.1, p.0) in pairs
  }

  /** A dose of `drug` at `candidate` is strictly less than the drug's
      restricted time away from the schedule entry `e`. */
  predicate TooClose(candidate: int, drug: DrugId, e: Entry, hours: map<DrugId, int>)
    requires drug in hours
  {
    e.drug == drug && Abs(candidate - e.time) < HoursToMinutes(hours[drug])
  }

  /** A dose of `drug` at `candidate` would be active while the dose `e` of a
      forbidden partner with a known profile is active. */
  predicate Conflicts(candidate: int, drug: DrugId, e: Entry, hours: map<DrugId, int>,
                      forbidden: set<(DrugId, DrugId)>)
    requires drug in hours
  {
    (drug, e.drug) in forbidden && e.drug in hours &&
    IntervalsOverlap(candidate, hours[drug], e.time, hours[e.drug])
  }

  /** The rule the checker decides: no entry of the same drug is too close and
      no entry of a forbidden partner has an overlapping active window. */
  predicate Legal(candidate: int, drug: DrugId, schedule: seq<Entry>, hours: map<DrugId, int>,
                  forbidden: set<(DrugId, DrugId)>)
    requires drug in hours
  {
    (forall k :: 0 <= k < |schedule| ==> !TooClose(candidate, drug, schedule[k], hours)) &&
    (forall k :: 0 <= k < |schedule| ==> !Conflicts(candidate, drug, schedule[k], hours, forbidden))
  }

  /** A candidate the checker rejects stays rejected once more doses are
      appended to the schedule: the offending entry is still there. */
  lemma RejectedStaysRejected(candidate: int, drug: DrugId, schedule: seq<Entry>, longer: seq<Entry>,
                              hours: map<DrugId, int>, forbidden: set<(DrugId, DrugId)>)
    requires drug in hours
    requires |schedule| <= |longer| && longer[..|schedule|] == schedule
    requires !Legal(candidate, drug, schedule, hours, forbidden)
    ensures !Legal(candidate, drug, longer, hours, forbidden)
  {
    var k :| 0 <= k < |schedule| &&
             (TooClose(candidate, drug, schedule[k], hours) || Conflicts(candidate, drug, schedule[k], hours, forbidden));
    assert longer[k] == longer[..|schedule|][k];
  }

  /** The checker: a scan of the schedule for a same-drug entry that is too
      close, then a scan for a forbidden partner whose active window overlaps,
      each returning false at the first offending entry. */
  method ConstraintsOk(candidate: int, drug: DrugId, schedule: seq<Entry>, hours: map<DrugId, int>,
                       forbidden: set<(DrugId, DrugId)>) returns (ok: bool)
    requires drug in hours
    ensures ok <==> Legal(candidate, drug, schedule, hours, forbidden)
  {
    var restricted := hours[drug];
    var activeDuration := restricted;

    for k := 0 to |schedule|
      invariant forall j :: 0 <= j < k ==> !TooClose(candidate, drug, schedule[j], hours)
    {
      if schedule[k].drug == drug {
        if Abs(candidate - schedule[k].time) < HoursToMinutes(restricted) {
          return false;
        }
      }
    }

    for k := 0 to |schedule|
      invariant forall j :: 0 <= j < k ==> !Conflicts(candidate, drug, schedule[j], hours, forbidden)
    {
      var otherId := schedule[k].drug;
      if (drug, otherId) in forbidden {
        if otherId !in hours {
          continue;
        }
        var otherDuration := hours[otherId];
        if IntervalsOverlap(candidate, activeDuration, schedule[k].time, otherDuration) {
          return false;
        }
      }
    }
    return true;
  }

  /** A gap of exactly the restricted time is accepted, whatever the forbidden
      pairs; one minute less is rejected. */
  lemma ExactGapAccepted(candidate: int, drug: DrugId, hours: map<DrugId, int>,
                         forbidden: set<(DrugId, DrugId)>)
    requires drug in hours
    ensures Legal(candidate, drug, [Entry(drug, candidate - HoursToMinutes(hours[drug]), 1)], hours, forbidden)
    ensures Legal(candidate, drug, [Entry(drug, candidate + HoursToMinutes(hours[drug]), 1)], hours, forbidden)
    ensures hours[drug] > 0 ==>
            !Legal(candidate, drug, [Entry(drug, candidate + HoursToMinutes(hours[drug]) - 1, 1)], hours, forbidden)
  {
    var r := hours[drug];
    TouchingDoNotOverlap(candidate - HoursToMinutes(r), r, r);
    TouchingDoNotOverlap(candidate, r, r);
    var tooClose := [Entry(drug, candidate + HoursToMinutes(r) - 1, 1)];
    if r > 0 {
      assert TooClose(candidate, drug, tooClose[0], hours);
    }
  }

  /** Entries of another drug that is not a forbidden partner, or that has no
      profile, never change the checker's answer. */
  lemma IrrelevantEntryIgnored(candidate: int, drug: DrugId, schedule: seq<Entry>, e: Entry,
                               hours: map<DrugId, int>, forbidden: set<(DrugId, DrugId)>)
    requires drug in hours
    requires e.drug != drug
    requires (drug, e.drug) !in forbidden || e.drug !in hours
    ensures Legal(candidate, drug, schedule + [e], hours, forbidden) == Legal(candidate, drug, schedule, hours, forbidden)
  {
    var s := schedule + [e];
    assert forall k :: 0 <= k < |schedule| ==> s[k] == schedule[k];
    assert !TooClose(candidate, drug, s[|schedule|], hours);
    assert !Conflicts(candidate, drug, s[|schedule|], hours, forbidden);
  }

  /** Every two doses of the same profiled drug are at least that drug's
      restricted time apart. */
  predicate Spaced(schedule: seq<Entry>, hours: map<DrugId, int>)
  {
    forall i, j ::
      (0 <= i < |schedule| && 0 <= j < |schedule| && i != j &&
       schedule[i].drug == schedule[j].drug && schedule[i].drug in hours) ==>
      Abs(schedule[i].time - schedule[j].time) >= HoursToMinutes(hours[schedule[i].drug])
  }

  /** No two doses of a forbidden pair of profiled drugs have overlapping
      active windows. */
  predicate NoForbiddenOverlap(schedule: seq<Entry>, hours: map<DrugId, int>, forbidden: set<(DrugId, DrugId)>)
  {
    forall i, j ::
      (0 <= i < |schedule| && 0 <= j < |schedule| && i != j &&
       (schedule[i].drug, schedule[j].drug) in forbidden &&
       schedule[i].drug in hours && schedule[j].drug in hours) ==>
      !IntervalsOverlap(schedule[i].time, hours[schedule[i].drug], schedule[j].time, hours[schedule[j].drug])
  }

  predicate Safe(schedule: seq<Entry>, hours: map<DrugId, int>, forbidden: set<(DrugId, DrugId)>)
  {
    Spaced(schedule, hours) && NoForbiddenOverlap(schedule, hours, forbidden)
  }

  /** Appending a dose the checker accepts keeps a safe schedule safe, as long
      as the forbidden pairs are stored in both orders. */
  lemma LegalAppendKeepsSafe(schedule: seq<Entry>, e: Entry, hours: map<DrugId, int>,
                             forbidden: set<(DrugId, DrugId)>)
    requires Symmetric(forbidden)
    requires e.drug in hours
    requires Safe(schedule, hours, forbidden)
    requires Legal(e.time, e.drug, schedule, hours, forbidden)
    ensures Safe(schedule + [e], hours, forbidden)
  {
    var s := schedule + [e];
    var n := |schedule|;
    forall i, j | 0 <= i < |s| && 0 <= j < |s| && i != j && s[i].drug == s[j].drug && s[i].drug in hours
      ensures Abs(s[i].time - s[j].time) >= HoursToMinutes(hours[s[i].drug])
    {
      if j == n {
        assert !TooClose(e.time, e.drug, schedule[i], hours);
      } else if i == n {
        assert !TooClose(e.time, e.drug, schedule[j], hours);
      } else {
        assert s[i] == schedule[i] && s[j] == schedule[j];
      }
    }
    forall i, j | 0 <= i < |s| && 0 <= j < |s| && i != j && (s[i].drug, s[j].drug) in forbidden &&
                  s[i].drug in hours && s[j].drug in hours
      ensures !IntervalsOverlap(s[i].time, hours[s[i].drug], s[j].time, hours[s[j].drug])
    {
      if j == n {
        assert (e.drug, s[i].drug) in forbidden;
        assert !Conflicts(e.time, e.drug, schedule[i], hours, forbidden);
        OverlapSymmetric(s[i].time, hours[s[i].drug], s[j].time, hours[s[j].drug]);
      } else if i == n {
        assert !Conflicts(e.time, e.drug, schedule[j], hours, forbidden);
      } else {
        assert s[i] == schedule[i] && s[j] == schedule[j];
      }
    }
  }
}
