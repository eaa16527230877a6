/** The trading-day scans and the T+1 / T+3 / T+5 walk, over a fixed trading-day predicate on day numbers. */
module TradingDays {
  import opened Wrappers

  type Calendar = int -> bool

  const SCAN_DAYS := 366

  /** No trading day lies strictly between. */
  ghost predicate Idle(c: Calendar, from: int, until: int)
  {
    forall x :: from < x < until ==> !c(x)
  }

  ghost predicate IsNext(c: Calendar, from: int, day: int)
  {
    from < day <= from + 366 && c(day) && Idle(c, from, day)
  }

  ghost predicate IsPrevious(c: Calendar, from: int, day: int)
  {
    from - 366 <= day < from && c(day) && Idle(c, day, from)
  }

  method NextTradingDay(c: Calendar, from: int) returns (day: int, ok: bool)
    ensures ok ==> IsNext(c, from, day)
    ensures !ok ==> day == from && Idle(c, from, from + 367)
  {
    for i := 1 to SCAN_DAYS + 1
      invariant Idle(c, from, from + i)
    {
      if c(from + i) {
        return from + i, true;
      }
    }
    return from, false;
  }

  method PreviousTradingDay(c: Calendar, from: int) returns (day: int, ok: bool)
    ensures ok ==> IsPrevious(c, from, day)
    ensures !ok ==> day == from && Idle(c, from - 367, from)
  {
    for i := 1 to SCAN_DAYS + 1
      invariant Idle(c, from - i, from)
    {
      if c(from - i) {
        return from - i, true;
      }
    }
    return from, false;
  }

  /** Between trading days the two scans undo each other. */
  lemma ScansInverse(c: Calendar, a: int, b: int)
    requires c(a) && c(b)
    ensures IsNext(c, a, b) <==> IsPrevious(c, b, a)
  {
  }

  /** What a backward scan from the next trading day answers: it succeeds, with the day started from. */
  lemma PreviousUndoesNext(c: Calendar, a: int, next: int, day: int, ok: bool)
    requires c(a) && IsNext(c, a, next)
    requires if ok then IsPrevious(c, next, day) else day == next && Idle(c, next - 367, next)
    ensures ok && day == a
  {
    assert next - 367 < a < next;
  }

  /** How many trading days lie after `from`, up to and including `last`. */
  function Trading(c: Calendar, from: int, last: int): nat
    decreases last - from
  {
    if last <= from then 0 else Trading(c, from, last - 1) + if c(last) then 1 else 0
  }

  lemma {:induction false} TradingSplit(c: Calendar, a: int, b: int, d: int)
    requires a <= b <= d
    ensures Trading(c, a, d) == Trading(c, a, b) + Trading(c, b, d)
    decreases d - b
  {
    if b < d {
      TradingSplit(c, a, b, d - 1);
    }
  }

  lemma {:induction false} IdleCounts(c: Calendar, from: int, last: int)
    requires from <= last && Idle(c, from, last + 1)
    ensures Trading(c, from, last) == 0
    decreases last - from
  {
    if from < last {
      IdleCounts(c, from, last - 1);
    }
  }

  /** Walking to the next trading day passes exactly one trading day. */
  lemma NextCounts(c: Calendar, start: int, from: int, day: int)
    requires start <= from && IsNext(c, from, day)
    ensures Trading(c, start, day) == Trading(c, start, from) + 1
  {
    TradingSplit(c, start, from, day);
    IdleCounts(c, from, day - 1);
  }

  /** The `n`-th trading day strictly after `from`. */
  ghost predicate IsNth(c: Calendar, from: int, n: nat, day: int)
  {
    from < day && c(day) && Trading(c, from, day) == n
  }

  /** The `n`-th trading day is unique. */
  lemma NthUnique(c: Calendar, from: int, n: nat, a: int, b: int)
    requires IsNth(c, from, n, a) && IsNth(c, from, n, b)
    ensures a == b
  {
    if a < b {
      TradingSplit(c, from, a, b - 1);
    } else if b < a {
      TradingSplit(c, from, b, a - 1);
    }
  }

  /** A walk that has passed `k` trading days and stands before 366 idle ones. */
  ghost predicate Stranded(c: Calendar, from: int, k: nat)
  {
    exists a :: from <= a && Trading(c, from, a) == k && Idle(c, a, a + 367) && (a == from || c(a))
  }

  /** Where a scan from the `k`-th trading day succeeds, no walk is stranded after `k`. */
  lemma NotStranded(c: Calendar, start: int, day: int, next: int)
    requires day == start || (start < day && c(day))
    requires IsNext(c, day, next)
    ensures !Stranded(c, start, Trading(c, start, day))
  {
    var k := Trading(c, start, day);
    forall a | start <= a && Trading(c, start, a) == k && (a == start || c(a)) ensures a == day {
      SameCount(c, start, a, day);
    }
  }

  /** Two stops of a walk with the same count are the same day. */
  lemma SameCount(c: Calendar, start: int, a: int, b: int)
    requires start <= a && start <= b && Trading(c, start, a) == Trading(c, start, b)
    requires (a == start || c(a)) && (b == start || c(b))
    ensures a == b
  {
    if a < b {
      TradingSplit(c, start, a, b);
    } else if b < a {
      TradingSplit(c, start, b, a);
    }
  }

  /** Two scans, as in each of the two loops. */
  method TwoMore(c: Calendar, start: int, from: int) returns (r: Option<int>)
    requires start < from && c(from)
    ensures r.Some? ==> IsNth(c, start, Trading(c, start, from) + 2, r.value)
    ensures r.None? <==> Stranded(c, start, Trading(c, start, from)) || Stranded(c, start, Trading(c, start, from) + 1)
  {
    var day := from;
    for i := 0 to 2
      invariant start < day && c(day) && Trading(c, start, day) == Trading(c, start, from) + i
      invariant i >= 1 ==> !Stranded(c, start, Trading(c, start, from))
      invariant i >= 2 ==> !Stranded(c, start, Trading(c, start, from) + 1)
    {
      var next, ok := NextTradingDay(c, day);
      if !ok {
        assert Stranded(c, start, Trading(c, start, from) + i);
        return None;
      }
      NextCounts(c, start, day, next);
      NotStranded(c, start, day, next);
      day := next;
    }
    r := Some(day);
  }

  datatype Horizons = Horizons(t1: int, t3: int, t5: int)

  /**
   The walk of `ComputeOne`: its days are the first, third and fifth trading day strictly after the
   date, and it fails exactly when 366 idle days in a row follow the date or one of the first four.
   */
  method Walk(c: Calendar, date: int) returns (r: Option<Horizons>)
    ensures r.Some? ==> IsNth(c, date, 1, r.value.t1) && IsNth(c, date, 3, r.value.t3) && IsNth(c, date, 5, r.value.t5)
    ensures r.None? <==> exists k :: 0 <= k < 5 && Stranded(c, date, k)
  {
    var t1, ok := NextTradingDay(c, date);
    if !ok {
      assert Stranded(c, date, 0);
      return None;
    }
    NextCounts(c, date, date, t1);
    NotStranded(c, date, date, t1);
    var t3 := TwoMore(c, date, t1);
    if t3.None? {
      return None;
    }
    var t5 := TwoMore(c, date, t3.value);
    if t5.None? {
      return None;
    }
    r := Some(Horizons(t1, t3.value, t5.value));
  }
}
