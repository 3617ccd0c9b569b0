/** Session dates in calendar order. */
module SessionDates {
  import opened Listing

  datatype Day = Day(number: int)

  function Number(day: Day): int { day.number }

  /** The dates of a set from the earliest on. */
  function Chronological(s: set<Day>): (r: seq<Day>)
    ensures StrictlyAscending(Number, r)
    ensures |r| == |s| && forall x :: x in r <==> x in s
  {
    assert Ranked(Number);
    Ascending(Number, s)
  }
}
