/** The slot grid of the scheduling window and the calendar-day arithmetic
    that cuts it into per-day segments. */
module Slots {
  import opened Doses

  predicate Increasing(s: seq<int>)
  {
    forall i, j :: 0 <= i < j < |s| ==> s[i] < s[j]
  }

  /** The slots start, start + step, ... that are not after `end`. */
  function SlotGrid(start: int, end: int, step: int): (r: seq<int>)
    requires step > 0
    decreases if start > end then 0 else end - start + 1
  {
    if start > end then [] else [start] + SlotGrid(start + step, end, step)
  }

  /** The k-th slot is start + k * step; every slot is inside [start, end];
      the next step after the last slot passes `end`; the grid is strictly
      increasing and is empty exactly when the window is. */
  lemma {:induction false} SlotGridShape(start: int, end: int, step: int)
    requires step > 0
    decreases if start > end then 0 else end - start + 1
    ensures var r := SlotGrid(start, end, step);
            (forall k :: 0 <= k < |r| ==> r[k] == start + k * step) &&
            (forall t :: t in r ==> start <= t <= end) &&
            start + |r| * step > end &&
            Increasing(r) &&
            (r == [] <==> end < start)
  {
    if start <= end {
      var rest := SlotGrid(start + step, end, step);
      var r := [start] + rest;
      SlotGridShape(start + step, end, step);
      forall k | 0 <= k < |r|
        ensures r[k] == start + k * step
      {
        if k > 0 {
          assert r[k] == rest[k - 1];
          assert (k - 1) * step + step == k * step;
        }
      }
      assert |r| * step == |rest| * step + step;
      forall i, j | 0 <= i < j < |r|
        ensures r[i] < r[j]
      {
        if i > 0 {
          assert r[i] == rest[i - 1] && r[j] == rest[j - 1];
        } else {
          assert r[j] in rest;
        }
      }
    }
  }

  /** The `while current <= end_dt` loop that fills the slot list. */
  method BuildSlots(start: int, end: int, step: int) returns (slots: seq<int>)
    requires step > 0
    ensures slots == SlotGrid(start, end, step)
  {
    slots := [];
    var current := start;
    while current <= end
      invariant slots + SlotGrid(current, end, step) == SlotGrid(start, end, step)
      decreases if current > end then 0 else end - current + 1
    {
      assert SlotGrid(current, end, step) == [current] + SlotGrid(current + step, end, step);
      assert slots + ([current] + SlotGrid(current + step, end, step))
          == (slots + [current]) + SlotGrid(current + step, end, step);
      slots := slots + [current];
      current := current + step;
    }
  }

  /** The calendar day (days since the epoch) of minute `t`. */
  function DayOf(t: int): (r: int)
  {
    t / MinutesPerDay
  }

  /** The number of calendar days from the date of `start` to the date of
      `end`, both included, and at least one. */
  function WindowDays(start: int, end: int): (r: nat)
    ensures r >= 1 && r >= DayOf(end) - DayOf(start) + 1
    ensures r == 1 || DayOf(start) + r - 1 == DayOf(end)
  {
    var span := DayOf(end) - DayOf(start) + 1;
    if span < 1 then 1 else span
  }

  /** The start of day `dayIndex`: the date `dayIndex` days after the date of
      `start`, combined with the time of day of `start`. It is exactly
      `dayIndex` whole days after `start`. */
  function DayStart(start: int, dayIndex: nat): (r: int)
    ensures r == start + dayIndex * MinutesPerDay
  {
    (DayOf(start) + dayIndex) * MinutesPerDay + start % MinutesPerDay
  }

  /** The last minute of the segment of the day starting at `dayStart`: one
      minute before the next day starts, but never after the end of the
      window. */
  function DayEnd(dayStart: int, end: int): (r: int)
    ensures r <= end && r < dayStart + MinutesPerDay
    ensures r == end || r == dayStart + MinutesPerDay - 1
  {
    Min(dayStart + MinutesPerDay - 1, end)
  }

  /** The day end as the source computes it: one step (not one minute) before
      the next day starts. A step longer than a day leaves the segment empty. */
  function DayEndAsWritten(dayStart: int, end: int, step: int): (r: int)
    ensures r <= end && r <= dayStart + MinutesPerDay - step
    ensures r == end || r == dayStart + MinutesPerDay - step
    ensures step > 0 ==> r < dayStart + MinutesPerDay
    ensures step > MinutesPerDay ==> r < dayStart
  {
    Min(dayStart + MinutesPerDay - step, end)
  }

  /** The last minute of the segment of the day starting at `dayStart`: one
      step before the next day, as the source writes it, or one minute before
      it when `corrected`. */
  function SegmentEnd(dayStart: int, end: int, step: int, corrected: bool): (r: int)
    ensures r <= end
    ensures step > 0 ==> r < dayStart + MinutesPerDay
  {
    if corrected then DayEnd(dayStart, end) else DayEndAsWritten(dayStart, end, step)
  }

  /** The grid slots the scheduler offers on day `day` of the window. */
  function SegmentSlots(start: int, end: int, step: int, corrected: bool, day: nat): (r: seq<int>)
    requires step > 0
  {
    DaySlots(SlotGrid(start, end, step), DayStart(start, day), SegmentEnd(DayStart(start, day), end, step, corrected))
  }

  /** With 100-minute slots, the slot 1400 minutes after the start is in the
      grid, but with the day end as written it lies in the segment of no day
      (day 0 ends at 1340, day 1 starts at 1440), so it is never offered. */
  lemma SlotSkippedAsWritten(start: int)
    ensures start + 1400 in SlotGrid(start, start + 1400, 100)
    ensures forall i: nat :: start + 1400 !in DaySlots(SlotGrid(start, start + 1400, 100), DayStart(start, i),
                                                     DayEndAsWritten(DayStart(start, i), start + 1400, 100))
  {
    var t, end := start + 1400, start + 1400;
    SlotGridShape(start, end, 100);
    var grid := SlotGrid(start, end, 100);
    assert 14 < |grid|;
    assert grid[14] == t;
    forall i: nat
      ensures t !in DaySlots(grid, DayStart(start, i), DayEndAsWritten(DayStart(start, i), end, 100))
    {
      var ds := DayStart(start, i);
      if i == 0 {
        assert DayEndAsWritten(ds, end, 100) == start + 1340;
      } else {
        assert ds >= start + 1440;
      }
    }
  }

  lemma {:induction false} SameFilter(s: seq<int>, lo: int, hi1: int, hi2: int)
    requires forall t :: t in s ==> (lo <= t <= hi1 <==> lo <= t <= hi2)
    ensures DaySlots(s, lo, hi1) == DaySlots(s, lo, hi2)
  {
    if s != [] {
      assert s[0] in s;
      assert forall t :: t in s[1..] ==> t in s;
      SameFilter(s[1..], lo, hi1, hi2);
      assert DaySlots(s, lo, hi1) == (if lo <= s[0] <= hi1 then [s[0]] else []) + DaySlots(s[1..], lo, hi1);
      assert DaySlots(s, lo, hi2) == (if lo <= s[0] <= hi2 then [s[0]] else []) + DaySlots(s[1..], lo, hi2);
    }
  }

  lemma MulMonotone(a: int, b: int, step: int)
    requires step > 0 && a <= b
    ensures a * step <= b * step
  {
    assert b * step - a * step == (b - a) * step;
  }

  /** No multiple of `step` lies strictly between two consecutive ones. */
  lemma NoMultipleStrictlyBetween(q: int, m: int, step: int)
    requires step > 0
    ensures !((m - 1) * step < q * step < m * step)
  {
    if q <= m - 1 {
      MulMonotone(q, m - 1, step);
    } else {
      MulMonotone(m, q, step);
    }
  }

  /** When the step divides a day, no grid slot falls in the last step of a
      day, between one step before the next day starts and that start. */
  lemma LastStepHasNoSlot(start: int, step: int, i: nat, k: int)
    requires step > 0 && MinutesPerDay % step == 0
    ensures !(start + i * MinutesPerDay + MinutesPerDay - step < start + k * step < start + i * MinutesPerDay + MinutesPerDay)
  {
    var m := MinutesPerDay / step;
    assert m * step == MinutesPerDay;
    var q := k - i * m;
    assert i * MinutesPerDay == (i * m) * step;
    assert q * step == k * step - (i * m) * step;
    NoMultipleStrictlyBetween(q, m, step);
    assert (m - 1) * step == m * step - step;
  }

  /** When the step divides a day, the corrected day end offers exactly the
      slots the day end as written offers. */
  lemma CorrectionAgreesOnDividingSteps(start: int, end: int, step: int, i: nat)
    requires step > 0 && MinutesPerDay % step == 0
    ensures var grid, ds := SlotGrid(start, end, step), DayStart(start, i);
            DaySlots(grid, ds, DayEnd(ds, end)) == DaySlots(grid, ds, DayEndAsWritten(ds, end, step))
  {
    var grid, ds := SlotGrid(start, end, step), DayStart(start, i);
    SlotGridShape(start, end, step);
    forall t | t in grid
      ensures ds <= t <= DayEnd(ds, end) <==> ds <= t <= DayEndAsWritten(ds, end, step)
    {
      var k :| 0 <= k < |grid| && grid[k] == t;
      LastStepHasNoSlot(start, step, i, k);
    }
    SameFilter(grid, ds, DayEnd(ds, end), DayEndAsWritten(ds, end, step));
  }

  /** With the corrected day end, every slot of the grid lies in the segment of
      exactly one day: day (t - start) / 1440, which is within the window's
      days and starts no later than the window ends. */
  lemma SlotInItsDay(start: int, end: int, step: int, t: int)
    requires step > 0
    requires t in SlotGrid(start, end, step)
    ensures var i := (t - start) / MinutesPerDay;
            0 <= i < WindowDays(start, end) && DayStart(start, i) <= end &&
            t in DaySlots(SlotGrid(start, end, step), DayStart(start, i), DayEnd(DayStart(start, i), end))
    ensures forall j: nat :: j != (t - start) / MinutesPerDay ==>
              !(DayStart(start, j) <= t <= DayEnd(DayStart(start, j), end))
  {
    SlotGridShape(start, end, step);
    var i := (t - start) / MinutesPerDay;
    assert i * MinutesPerDay <= t - start < i * MinutesPerDay + MinutesPerDay;
    assert DayOf(end) * MinutesPerDay > end - MinutesPerDay;
    assert DayOf(start) * MinutesPerDay <= start;
  }

  lemma PrependIncreasing(x: int, s: seq<int>)
    requires Increasing(s)
    requires forall t :: t in s ==> x < t
    ensures Increasing([x] + s)
  {
    var r := [x] + s;
    forall i, j | 0 <= i < j < |r|
      ensures r[i] < r[j]
    {
      assert r[j] == s[j - 1];
      if i > 0 {
        assert r[i] == s[i - 1];
      } else {
        assert s[j - 1] in s;
      }
    }
  }

  /** The slots that fall within [lo, hi], in their order. */
  function DaySlots(slots: seq<int>, lo: int, hi: int): (r: seq<int>)
    ensures forall t :: t in r <==> t in slots && lo <= t <= hi
    ensures Increasing(slots) ==> Increasing(r)
  {
    if slots == [] then []
    else
      var rest := DaySlots(slots[1..], lo, hi);
      assert forall t :: t in slots <==> t == slots[0] || t in slots[1..];
      if Increasing(slots) then
        assert forall t :: t in rest ==> slots[0] < t;
        PrependIncreasing(slots[0], rest);
        (if lo <= slots[0] <= hi then [slots[0]] else []) + rest
      else
        (if lo <= slots[0] <= hi then [slots[0]] else []) + rest
  }
}
