/** Values shared by the whole scheduler: drug identifiers, required doses,
    schedule entries and the integer-minute time arithmetic they rely on.
    Timestamps are whole minutes since an epoch that falls on a midnight. */
module Doses {

  type DrugId = string

  /** Minutes in one hour and in one calendar day. */
  const MinutesPerHour: int := 60
  const MinutesPerDay: int := 1440

  /** A request for one drug: how many doses are wanted on each day. */
  datatype RequiredDose = RequiredDose(drug: DrugId, timesPerDay: int)

  /** One placed dose: which drug, at which minute, and how many units. */
  datatype Entry = Entry(drug: DrugId, time: int, quantity: int)

  function Abs(x: int): (r: nat)
    ensures r == x || r == -x
  {
    if x < 0 then -x else x
  }

  function Max(a: int, b: int): (r: int)
    ensures r >= a && r >= b && (r == a || r == b)
  {
    if a < b then b else a
  }

  function Min(a: int, b: int): (r: int)
    ensures r <= a && r <= b && (r == a || r == b)
  {
    if a < b then a else b
  }

  /** A restricted time of `hours` hours, in minutes. */
  function HoursToMinutes(hours: int): (r: int)
  {
    hours * MinutesPerHour
  }

  /** The number of occurrences `range(timesPerDay)` yields: none for a
      negative count. */
  function Occurrences(d: RequiredDose): (r: nat)
  {
    if d.timesPerDay < 0 then 0 else d.timesPerDay
  }
}
