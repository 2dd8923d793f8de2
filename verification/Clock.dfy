/** The wall clock that the services read: it never runs backwards, and may stand still between two readings. */
module Clock {

  class WallClock {
    var last: int

    ghost predicate Valid()
      reads this
    {
      0 < last
    }

    constructor (start: int)
      requires 0 < start
      ensures Valid() && last == start
    {
      last := start;
    }

    method Now() returns (now: int)
      requires Valid()
      modifies this
      ensures Valid() && old(last) <= now && last == now
    {
      now :| last <= now;
      last := now;
    }
  }
}
