/**
 The circuit breaker that guards a data source and, with the same methods under other names, a
 notification channel: a sliding window of failures, a cooldown, a single probe.
 Times and durations are integers in nanoseconds.
 */
module Breaker {
  const MINUTE := 60_000_000_000
  const DEFAULT_THRESHOLD := 5
  const DEFAULT_WINDOW := 5 * MINUTE
  const DEFAULT_COOLDOWN := 10 * MINUTE

  datatype Condition = Closed | Open | HalfOpen

  datatype Settings = Settings(threshold: int, window: int, cooldown: int)
  {
    predicate Positive()
    {
      threshold > 0 && window > 0 && cooldown > 0
    }
  }

  /** Zero and negative settings fall back to the defaults. */
  function WithDefaults(s: Settings): (r: Settings)
    ensures r.Positive() && (s.Positive() ==> r == s)
    ensures r.threshold == (if s.threshold > 0 then s.threshold else 5)
    ensures r.window == (if s.window > 0 then s.window else 300_000_000_000)
    ensures r.cooldown == (if s.cooldown > 0 then s.cooldown else 600_000_000_000)
  {
    Settings(
      if s.threshold <= 0 then DEFAULT_THRESHOLD else s.threshold,
      if s.window <= 0 then DEFAULT_WINDOW else s.window,
      if s.cooldown <= 0 then DEFAULT_COOLDOWN else s.cooldown)
  }

  /** The breaker's fields as a value. */
  datatype View = View(state: Condition, failures: seq<int>, openedAt: int, probing: bool)

  /** The times strictly after the cutoff. */
  function Recent(times: seq<int>, cutoff: int): seq<int>
  {
    if times == [] then []
    else
      var t := times[|times| - 1];
      Recent(times[..|times| - 1], cutoff) + if t > cutoff then [t] else []
  }

  // --- one operation ------------------------------------------------------------------------

  function Pruned(s: Settings, v: View, now: int): View
  {
    v.(failures := Recent(v.failures, now - s.window))
  }

  function Cooled(s: Settings, v: View, now: int): bool
  {
    now - v.openedAt >= s.cooldown
  }

  /** Whether a call may proceed. */
  function Admits(s: Settings, v: View, now: int): bool
  {
    match v.state
    case Closed => true
    case Open => Cooled(s, v, now)
    case HalfOpen => !v.probing
  }

  function Asked(s: Settings, v: View, now: int): View
  {
    match v.state
    case Closed => Pruned(s, v, now)
    case Open => if Cooled(s, v, now) then v.(state := HalfOpen, probing := true) else v
    case HalfOpen => v.(probing := true)
  }

  function Succeeded(v: View): View
  {
    if v.state.HalfOpen? then v.(state := Closed, probing := false, failures := []) else v
  }

  function Failed(s: Settings, v: View, now: int): View
  {
    match v.state
    case Closed =>
      var w := Pruned(s, v.(failures := v.failures + [now]), now);
      if |w.failures| >= s.threshold then w.(state := Open, openedAt := now) else w
    case HalfOpen => View(Open, v.failures + [now], now, false)
    case Open => v
  }

  function StateRead(s: Settings, v: View, now: int): View
  {
    if v.state.Open? && Cooled(s, v, now) then v.(state := HalfOpen, probing := false) else v
  }

  // --- the object ---------------------------------------------------------------------------

  class CircuitBreaker {
    const settings: Settings
    var state: Condition
    var failures: seq<int>
    var openedAt: int
    var halfOpenIn: bool

    function Now(): View
      reads this
    {
      View(state, failures, openedAt, halfOpenIn)
    }

    constructor (s: Settings)
      ensures settings == WithDefaults(s) && Now() == View(Closed, [], 0, false)
    {
      settings := WithDefaults(s);
      state, failures, openedAt, halfOpenIn := Closed, [], 0, false;
    }

    /** `gcLocked`: the failures still inside the window are kept, in order. */
    method Gc(now: int)
      modifies this`failures
      ensures failures == Recent(old(failures), now - settings.window)
      ensures forall t :: multiset(failures)[t] == if t > now - settings.window then multiset(old(failures))[t] else 0
    {
      var cutoff := now - settings.window;
      var keep: seq<int> := [];
      for i := 0 to |failures|
        invariant keep == Recent(failures[..i], cutoff)
      {
        assert failures[..i + 1][..i] == failures[..i];
        if failures[i] > cutoff {
          keep := keep + [failures[i]];
        }
      }
      assert failures[..|failures|] == failures;
      RecentExact(failures, cutoff);
      failures := keep;
    }

    method Allow(now: int) returns (ok: bool)
      modifies this
      ensures ok == Admits(settings, old(Now()), now) && Now() == Asked(settings, old(Now()), now)
      ensures old(state).Closed? ==> ok && state.Closed? && openedAt == old(openedAt) && halfOpenIn == old(halfOpenIn)
      ensures old(state).Closed? ==> forall t ::
        multiset(failures)[t] == if t > now - settings.window then multiset(old(failures))[t] else 0
      ensures old(state).Open? ==> (ok <==> now - old(openedAt) >= settings.cooldown)
      ensures old(state).HalfOpen? ==> (ok <==> !old(halfOpenIn))
      ensures !old(state).Closed? && ok ==> state.HalfOpen? && halfOpenIn
      ensures !ok ==> Now() == old(Now())
      ensures !old(state).Closed? ==> failures == old(failures) && openedAt == old(openedAt)
    {
      if state == Closed {
        Gc(now);
      }
      match state {
        case Closed =>
          return true;
        case Open =>
          if now - openedAt >= settings.cooldown {
            state := HalfOpen;
            halfOpenIn := true;
            return true;
          }
          return false;
        case HalfOpen =>
          if halfOpenIn {
            return false;
          }
          halfOpenIn := true;
          return true;
      }
    }

    method RecordSuccess()
      modifies this
      ensures Now() == Succeeded(old(Now()))
      ensures old(state).HalfOpen? ==> state.Closed? && failures == [] && !halfOpenIn && openedAt == old(openedAt)
      ensures !old(state).HalfOpen? ==> Now() == old(Now())
    {
      if state == HalfOpen {
        state := Closed;
        halfOpenIn := false;
        failures := [];
      }
    }

    method RecordFailure(now: int)
      modifies this
      ensures Now() == Failed(settings, old(Now()), now)
      ensures old(state).HalfOpen? ==>
        state.Open? && openedAt == now && !halfOpenIn && failures == old(failures) + [now]
      ensures old(state).Open? ==> Now() == old(Now())
      ensures old(state).Closed? ==> forall t ::
        multiset(failures)[t] == if t > now - settings.window then multiset(old(failures) + [now])[t] else 0
      ensures old(state).Closed? ==> halfOpenIn == old(halfOpenIn)
      ensures old(state).Closed? && |failures| >= settings.threshold ==> state.Open? && openedAt == now
      ensures old(state).Closed? && |failures| < settings.threshold ==> state.Closed? && openedAt == old(openedAt)
    {
      match state {
        case HalfOpen =>
          state := Open;
          openedAt := now;
          halfOpenIn := false;
          failures := failures + [now];
        case Closed =>
          failures := failures + [now];
          Gc(now);
          if |failures| >= settings.threshold {
            state := Open;
            openedAt := now;
          }
        case Open =>
      }
    }

    /** Reading the state flips an expired Open to HalfOpen with no probe in flight. */
    method State(now: int) returns (r: Condition)
      modifies this
      ensures Now() == StateRead(settings, old(Now()), now) && r == Now().state
      ensures old(state).Open? ==> (r.HalfOpen? <==> now - old(openedAt) >= settings.cooldown)
      ensures r != old(state) ==> old(state).Open? && r.HalfOpen? && !halfOpenIn
      ensures r == old(state) ==> Now() == old(Now())
      ensures failures == old(failures) && openedAt == old(openedAt)
    {
      if state == Open && now - openedAt >= settings.cooldown {
        state := HalfOpen;
        halfOpenIn := false;
      }
      r := state;
    }

    method FailureCount(now: int) returns (n: nat)
      modifies this`failures
      ensures Now() == Pruned(settings, old(Now()), now) && n == |Now().failures|
      ensures forall t :: multiset(failures)[t] == if t > now - settings.window then multiset(old(failures))[t] else 0
    {
      Gc(now);
      n := |failures|;
    }
  }

  // --- histories ----------------------------------------------------------------------------

  datatype Op = Ask | Succeed | Fail | ReadState | ReadCount

  datatype Event = Event(op: Op, at: int)

  function Apply(s: Settings, v: View, e: Event): View
  {
    match e.op
    case Ask => Asked(s, v, e.at)
    case Succeed => Succeeded(v)
    case Fail => Failed(s, v, e.at)
    case ReadState => StateRead(s, v, e.at)
    case ReadCount => Pruned(s, v, e.at)
  }

  /** The breaker after any calls, from any goroutines, in the order they took the lock. */
  function After(s: Settings, h: seq<Event>): View
  {
    if h == [] then View(Closed, [], 0, false) else Apply(s, After(s, h[..|h| - 1]), h[|h| - 1])
  }

  /** The breaker after some operations, from any state on. */
  function Replay(s: Settings, v: View, h: seq<Event>): View
  {
    if h == [] then v else Apply(s, Replay(s, v, h[..|h| - 1]), h[|h| - 1])
  }

  lemma {:induction false} ReplayAfter(s: Settings, h: seq<Event>, more: seq<Event>)
    ensures Replay(s, After(s, h), more) == After(s, h + more)
  {
    if more == [] {
      assert h + more == h;
    } else {
      ReplayAfter(s, h, more[..|more| - 1]);
      assert (h + more)[..|h + more| - 1] == h + more[..|more| - 1];
    }
  }

  ghost predicate Nondecreasing(h: seq<Event>)
  {
    forall i, j :: 0 <= i < j < |h| ==> h[i].at <= h[j].at
  }

  /** Every failure recorded since the breaker was last closed, never pruned. */
  function SinceClose(s: Settings, h: seq<Event>): seq<int>
  {
    if h == [] then []
    else
      NextFull(After(s, h[..|h| - 1]), SinceClose(s, h[..|h| - 1]), h[|h| - 1])
  }

  /** The full record starts afresh at a close and grows with every failure the breaker notes. */
  function NextFull(v: View, full: seq<int>, e: Event): seq<int>
  {
    if e.op.Succeed? && v.state.HalfOpen? then []
    else if e.op.Fail? && !v.state.Open? then full + [e.at]
    else full
  }

  /** The times at which a call was admitted while the breaker was not closed. */
  function Probes(s: Settings, h: seq<Event>): seq<int>
  {
    if h == [] then []
    else
      var q, e := h[..|h| - 1], h[|h| - 1];
      var v := After(s, q);
      Probes(s, q) + if e.op.Ask? && !v.state.Closed? && Admits(s, v, e.at) then [e.at] else []
  }

  // --- the sliding window -------------------------------------------------------------------

  lemma RecentAppend(a: seq<int>, t: int, x: int)
    ensures Recent(a + [t], x) == Recent(a, x) + if t > x then [t] else []
  {
    assert (a + [t])[..|a|] == a;
  }

  /** Exactly the times after the cutoff are kept, each as often as before. */
  lemma {:induction false} RecentExact(a: seq<int>, x: int)
    ensures forall t :: multiset(Recent(a, x))[t] == if t > x then multiset(a)[t] else 0
  {
    if a != [] {
      RecentExact(a[..|a| - 1], x);
      assert a == a[..|a| - 1] + [a[|a| - 1]];
    }
  }

  /** They keep their order. */
  lemma {:induction false} RecentConcat(a: seq<int>, b: seq<int>, x: int)
    ensures Recent(a + b, x) == Recent(a, x) + Recent(b, x)
  {
    if b == [] {
      assert a + b == a;
    } else {
      RecentConcat(a, b[..|b| - 1], x);
      assert (a + b)[..|a + b| - 1] == a + b[..|b| - 1];
    }
  }

  /** Pruning early loses nothing that a later look would keep. */
  lemma {:induction false} RecentRecent(a: seq<int>, y: int, x: int)
    requires y <= x
    ensures Recent(Recent(a, y), x) == Recent(a, x)
  {
    if a != [] {
      var q, t := a[..|a| - 1], a[|a| - 1];
      RecentRecent(q, y, x);
      if t > y {
        RecentAppend(Recent(q, y), t, x);
      } else {
        assert Recent(a, y) == Recent(q, y);
      }
    }
  }

  /** The stored failures and the full record look alike through every window that can still come. */
  ghost predicate SameWindow(s: Settings, stored: seq<int>, full: seq<int>, from: int)
  {
    forall x :: from <= x ==> Recent(stored, x) == Recent(full, x)
  }

  /** One operation keeps the two records alike, through windows ending no earlier than it. */
  lemma WindowStep(s: Settings, v: View, full: seq<int>, e: Event, from: int)
    requires s.Positive() && from <= e.at - s.window && SameWindow(s, v.failures, full, from)
    requires v.state.Closed? ==> |v.failures| < s.threshold
    ensures SameWindow(s, Apply(s, v, e).failures, NextFull(v, full, e), e.at - s.window)
    ensures Apply(s, v, e).state.Closed? ==> |Apply(s, v, e).failures| < s.threshold
  {
    forall x | e.at - s.window <= x ensures Recent(Apply(s, v, e).failures, x) == Recent(NextFull(v, full, e), x) {
      WindowAt(s, v, full, e, x);
    }
    FewStay(s, v, e);
  }

  lemma FewStay(s: Settings, v: View, e: Event)
    requires s.Positive() && (v.state.Closed? ==> |v.failures| < s.threshold)
    ensures Apply(s, v, e).state.Closed? ==> |Apply(s, v, e).failures| < s.threshold
  {
    RecentShorter(v.failures, e.at - s.window);
  }

  lemma WindowAt(s: Settings, v: View, full: seq<int>, e: Event, x: int)
    requires e.at - s.window <= x && Recent(v.failures, x) == Recent(full, x)
    ensures Recent(Apply(s, v, e).failures, x) == Recent(NextFull(v, full, e), x)
  {
    if e.op.Fail? && !v.state.Open? {
      FailureAt(s, v, full, e.at, x);
    } else if !(e.op.Succeed? && v.state.HalfOpen?) {
      PruneSame(Apply(s, v, e).failures, v.failures, full, e.at - s.window, x);
    }
  }

  lemma PruneSame(stored: seq<int>, a: seq<int>, b: seq<int>, cutoff: int, x: int)
    requires cutoff <= x && Recent(a, x) == Recent(b, x)
    requires stored == a || stored == Recent(a, cutoff)
    ensures Recent(stored, x) == Recent(b, x)
  {
    RecentRecent(a, cutoff, x);
  }

  lemma FailureAt(s: Settings, v: View, full: seq<int>, now: int, x: int)
    requires now - s.window <= x && Recent(v.failures, x) == Recent(full, x) && !v.state.Open?
    ensures Recent(Failed(s, v, now).failures, x) == Recent(full + [now], x)
  {
    StoredByFailure(s, v, now);
    PruneAfterAppend(Failed(s, v, now).failures, v.failures, full, now, now - s.window, x);
  }

  lemma PruneAfterAppend(stored: seq<int>, a: seq<int>, b: seq<int>, t: int, cutoff: int, x: int)
    requires cutoff <= x && Recent(a, x) == Recent(b, x)
    requires stored == a + [t] || stored == Recent(a + [t], cutoff)
    ensures Recent(stored, x) == Recent(b + [t], x)
  {
    SameAfterAppend(a, b, t, x);
    RecentRecent(a + [t], cutoff, x);
  }

  lemma StoredByFailure(s: Settings, v: View, now: int)
    requires !v.state.Open?
    ensures Failed(s, v, now).failures ==
      if v.state.Closed? then Recent(v.failures + [now], now - s.window) else v.failures + [now]
  {
    if v.state.Closed? {
      var w := Pruned(s, v.(failures := v.failures + [now]), now);
      assert Failed(s, v, now).failures == w.failures;
    }
  }

  lemma SameAfterAppend(a: seq<int>, b: seq<int>, t: int, x: int)
    requires Recent(a, x) == Recent(b, x)
    ensures Recent(a + [t], x) == Recent(b + [t], x)
  {
    RecentAppend(a, t, x);
    RecentAppend(b, t, x);
  }

  lemma {:induction false} WindowKept(s: Settings, h: seq<Event>)
    requires s.Positive() && Nondecreasing(h) && h != []
    ensures SameWindow(s, After(s, h).failures, SinceClose(s, h), h[|h| - 1].at - s.window)
    ensures After(s, h).state.Closed? ==> |After(s, h).failures| < s.threshold
  {
    var q, e := h[..|h| - 1], h[|h| - 1];
    if q == [] {
      WindowStep(s, After(s, q), SinceClose(s, q), e, e.at - s.window);
    } else {
      WindowKept(s, q);
      WindowStep(s, After(s, q), SinceClose(s, q), e, q[|q| - 1].at - s.window);
    }
  }

  lemma {:induction false} RecentShorter(a: seq<int>, x: int)
    ensures |Recent(a, x)| <= |a|
  {
    if a != [] {
      RecentShorter(a[..|a| - 1], x);
    }
  }

  /**
   Sliding-window refinement.  While the breaker is closed fewer than the threshold of failures are
   stored, and looking at the stored ones at any later moment shows exactly the failures recorded
   since the last close that the window still covers.
   */
  lemma ClosedWindow(s: Settings, h: seq<Event>, now: int)
    requires s.Positive() && Nondecreasing(h) && (h != [] ==> h[|h| - 1].at <= now) && After(s, h).state.Closed?
    ensures |After(s, h).failures| < s.threshold
    ensures Recent(After(s, h).failures, now - s.window) == Recent(SinceClose(s, h), now - s.window)
    ensures Pruned(s, After(s, h), now).failures == Recent(SinceClose(s, h), now - s.window)
  {
    if h != [] {
      WindowKept(s, h);
      assert h[|h| - 1].at - s.window <= now - s.window;
    }
    PrunedFailures(s, After(s, h), now);
  }

  lemma PrunedFailures(s: Settings, v: View, now: int)
    ensures Pruned(s, v, now).failures == Recent(v.failures, now - s.window)
  {
  }

  /** A failure of the closed breaker trips it exactly when the window, this one included, is full. */
  lemma TripsExactly(s: Settings, h: seq<Event>, now: int)
    requires s.Positive() && Nondecreasing(h) && (h != [] ==> h[|h| - 1].at <= now) && After(s, h).state.Closed?
    ensures
      var next := After(s, h + [Event(Fail, now)]);
      && (next.state.Open? <==> |Recent(SinceClose(s, h) + [now], now - s.window)| >= s.threshold)
      && (next.state.Open? ==> next.openedAt == now)
      && (!next.state.Open? ==> next.state.Closed?)
  {
    ClosedWindow(s, h, now);
    assert (h + [Event(Fail, now)])[..|h|] == h;
    RecentAppend(After(s, h).failures, now, now - s.window);
    RecentAppend(SinceClose(s, h), now, now - s.window);
  }

  // --- recovery -----------------------------------------------------------------------------

  lemma Append(s: Settings, h: seq<Event>, e: Event)
    ensures After(s, h + [e]) == Apply(s, After(s, h), e)
    ensures SinceClose(s, h + [e]) == NextFull(After(s, h), SinceClose(s, h), e)
    ensures
      var asked := e.op.Ask? && !After(s, h).state.Closed? && Admits(s, After(s, h), e.at);
      Probes(s, h + [e]) == Probes(s, h) + if asked then [e.at] else []
  {
    assert (h + [e])[..|h|] == h;
  }

  /** An open breaker admits a call exactly when its cooldown is over, and that call is its probe. */
  lemma ReopensAfterCooldown(s: Settings, h: seq<Event>, at: int)
    requires After(s, h).state.Open?
    ensures
      var v, w := After(s, h), After(s, h + [Event(Ask, at)]);
      && (Probes(s, h + [Event(Ask, at)]) == Probes(s, h) + [at] <==> at - v.openedAt >= s.cooldown)
      && (at - v.openedAt >= s.cooldown ==> Admits(s, v, at) && w.state.HalfOpen? && w.probing)
      && (at - v.openedAt < s.cooldown ==> !Admits(s, v, at) && w == v)
  {
    Append(s, h, Event(Ask, at));
    assert |Probes(s, h) + [at]| == |Probes(s, h)| + 1;
  }

  /** A half-open breaker whose probe is not out admits the next call; one whose probe is out refuses it. */
  lemma HalfOpenAdmitsProbe(s: Settings, h: seq<Event>, at: int)
    requires After(s, h).state.HalfOpen?
    ensures Admits(s, After(s, h), at) <==> !After(s, h).probing
    ensures After(s, h + [Event(Ask, at)]).state.HalfOpen? && After(s, h + [Event(Ask, at)]).probing
  {
    Append(s, h, Event(Ask, at));
  }

  /** A probe that succeeds closes the breaker, its failures forgotten, and calls are admitted again. */
  lemma ProbeSucceeds(s: Settings, h: seq<Event>, at: int, done: int, next: int)
    requires After(s, h).state.Open? && at - After(s, h).openedAt >= s.cooldown
    ensures
      var w := After(s, h + [Event(Ask, at)] + [Event(Succeed, done)]);
      w.state.Closed? && w.failures == [] && !w.probing && Admits(s, w, next)
    ensures SinceClose(s, h + [Event(Ask, at)] + [Event(Succeed, done)]) == []
  {
    ReopensAfterCooldown(s, h, at);
    Append(s, h + [Event(Ask, at)], Event(Succeed, done));
  }

  /** A probe that fails opens the breaker again, with a fresh cooldown. */
  lemma ProbeFails(s: Settings, h: seq<Event>, at: int, done: int, next: int)
    requires After(s, h).state.Open? && at - After(s, h).openedAt >= s.cooldown
    ensures
      var w := After(s, h + [Event(Ask, at)] + [Event(Fail, done)]);
      w.state.Open? && w.openedAt == done && (Admits(s, w, next) <==> next - done >= s.cooldown)
  {
    ReopensAfterCooldown(s, h, at);
    Append(s, h + [Event(Ask, at)], Event(Fail, done));
  }

  /** Reading the state of an open breaker whose cooldown is over leaves the next call to be the probe. */
  lemma ReadThenProbe(s: Settings, h: seq<Event>, at: int, next: int)
    requires After(s, h).state.Open?
    ensures
      var v, w := After(s, h), After(s, h + [Event(ReadState, at)]);
      && (w.state.HalfOpen? <==> at - v.openedAt >= s.cooldown)
      && (w.state.HalfOpen? ==> !w.probing && Admits(s, w, next))
      && (!w.state.HalfOpen? ==> w == v)
  {
    Append(s, h, Event(ReadState, at));
  }

  /** A closed breaker admits every call, and a success leaves its failures as they are. */
  lemma ClosedAnswers(s: Settings, h: seq<Event>, at: int, done: int)
    requires After(s, h).state.Closed?
    ensures Admits(s, After(s, h), at)
    ensures
      var more := h + [Event(Ask, at)] + [Event(Succeed, done)];
      After(s, more).state.Closed? && SinceClose(s, more) == SinceClose(s, h)
  {
    Append(s, h, Event(Ask, at));
    Append(s, h + [Event(Ask, at)], Event(Succeed, done));
  }

  // --- streaks of calls -----------------------------------------------------------------------

  /** Calls that are all asked for at one moment and all end the same way at another. */
  function Streak(calls: seq<(int, int)>, outcome: Op): seq<Event>
  {
    if calls == [] then []
    else
      var c := calls[|calls| - 1];
      Streak(calls[..|calls| - 1], outcome) + [Event(Ask, c.0), Event(outcome, c.1)]
  }

  /** Every call of the streak is admitted. */
  ghost predicate AllAdmitted(s: Settings, h: seq<Event>, calls: seq<(int, int)>, outcome: Op)
  {
    forall j :: 0 <= j < |calls| ==> Admits(s, After(s, h + Streak(calls[..j], outcome)), calls[j].0)
  }

  lemma StreakNext(s: Settings, h: seq<Event>, calls: seq<(int, int)>, outcome: Op)
    requires calls != []
    ensures
      var q, c := h + Streak(calls[..|calls| - 1], outcome), calls[|calls| - 1];
      h + Streak(calls, outcome) == q + [Event(Ask, c.0)] + [Event(outcome, c.1)]
  {
  }

  lemma AdmittedPrefix(s: Settings, h: seq<Event>, calls: seq<(int, int)>, outcome: Op)
    requires calls != [] && AllAdmitted(s, h, calls, outcome)
    ensures AllAdmitted(s, h, calls[..|calls| - 1], outcome)
    ensures Admits(s, After(s, h + Streak(calls[..|calls| - 1], outcome)), calls[|calls| - 1].0)
  {
    var q := calls[..|calls| - 1];
    forall j | 0 <= j < |q| ensures Admits(s, After(s, h + Streak(q[..j], outcome)), q[j].0) {
      assert q[..j] == calls[..j];
    }
  }

  /** After a streak of errors the breaker is open since the last of them, or has noted every one of them. */
  lemma {:induction false} ErrorsNoted(s: Settings, h: seq<Event>, calls: seq<(int, int)>, x: int)
    requires s.Positive() && After(s, h).state.Closed? && AllAdmitted(s, h, calls, Fail)
    requires Nondecreasing(h + Streak(calls, Fail)) && forall j :: 0 <= j < |calls| ==> x < calls[j].1
    ensures
      var v := After(s, h + Streak(calls, Fail));
      || (calls != [] && v.state.Open? && v.openedAt == calls[|calls| - 1].1)
      || (v.state.Closed? && |Recent(SinceClose(s, h + Streak(calls, Fail)), x)| >= |calls|)
  {
    if calls == [] {
      assert h + Streak([], Fail) == h;
    } else {
      var q, c := calls[..|calls| - 1], calls[|calls| - 1];
      var hq := h + Streak(q, Fail);
      StreakNext(s, h, calls, Fail);
      AdmittedPrefix(s, h, calls, Fail);
      assert Nondecreasing(hq) by {
        assert h + Streak(calls, Fail) == hq + [Event(Ask, c.0), Event(Fail, c.1)];
        assert forall k :: 0 <= k < |hq| ==> (h + Streak(calls, Fail))[k] == hq[k];
      }
      ErrorsNoted(s, h, q, x);
      Append(s, hq, Event(Ask, c.0));
      Append(s, hq + [Event(Ask, c.0)], Event(Fail, c.1));
      RecentAppend(SinceClose(s, hq), c.1, x);
    }
  }

  /**
   A source that errs at as many admitted calls as the threshold, all inside one window, has its breaker
   open: the next call is refused until a cooldown after the last error.
   */
  lemma ErrorsTrip(s: Settings, h: seq<Event>, calls: seq<(int, int)>, next: int)
    requires s.Positive() && After(s, h).state.Closed? && AllAdmitted(s, h, calls, Fail)
    requires Nondecreasing(h + Streak(calls, Fail)) && |calls| >= s.threshold
    requires forall j :: 0 <= j < |calls| ==> calls[|calls| - 1].1 - s.window < calls[j].1
    ensures
      var v := After(s, h + Streak(calls, Fail));
      && v.state.Open? && v.openedAt == calls[|calls| - 1].1
      && (Admits(s, v, next) <==> next - calls[|calls| - 1].1 >= s.cooldown)
  {
    var last := calls[|calls| - 1].1;
    ErrorsNoted(s, h, calls, last - s.window);
    StreakEnds(h, calls, Fail);
    ClosedHasFew(s, h + Streak(calls, Fail), last);
  }

  lemma StreakEnds(h: seq<Event>, calls: seq<(int, int)>, outcome: Op)
    requires calls != []
    ensures
      var all := h + Streak(calls, outcome);
      all != [] && all[|all| - 1].at == calls[|calls| - 1].1
  {
  }

  /** A closed breaker has noted fewer failures than the threshold inside the window. */
  lemma ClosedHasFew(s: Settings, h: seq<Event>, now: int)
    requires s.Positive() && Nondecreasing(h) && h != [] && h[|h| - 1].at == now
    ensures After(s, h).state.Closed? ==> |Recent(SinceClose(s, h), now - s.window)| < s.threshold
  {
    if After(s, h).state.Closed? {
      ClosedWindow(s, h, now);
      FewInWindow(After(s, h).failures, SinceClose(s, h), now - s.window, s.threshold);
    }
  }

  lemma FewInWindow(stored: seq<int>, full: seq<int>, x: int, threshold: int)
    requires |stored| < threshold && Recent(stored, x) == Recent(full, x)
    ensures |Recent(full, x)| < threshold
  {
    RecentShorter(stored, x);
  }

  /** A closed breaker whose source only answers stays closed, admits every call and keeps its failures. */
  lemma {:induction false} AnswersKeep(s: Settings, h: seq<Event>, calls: seq<(int, int)>, next: int)
    requires After(s, h).state.Closed?
    ensures
      var all := h + Streak(calls, Succeed);
      After(s, all).state.Closed? && SinceClose(s, all) == SinceClose(s, h) && Admits(s, After(s, all), next)
  {
    if calls == [] {
      assert h + Streak([], Succeed) == h;
    } else {
      var q, c := calls[..|calls| - 1], calls[|calls| - 1];
      AnswersKeep(s, h, q, c.0);
      StreakNext(s, h, calls, Succeed);
      ClosedAnswers(s, h + Streak(q, Succeed), c.0, c.1);
    }
  }

  // --- cooldown and probes ------------------------------------------------------------------

  /** Where the earlier probes stand, by state. */
  ghost predicate ProbesBehind(s: Settings, v: View, probes: seq<int>, last: int)
  {
    && (forall p :: p in probes ==> p <= last)
    && (v.state.Open? ==> v.openedAt <= last && forall p :: p in probes ==> p <= v.openedAt)
    && (v.state.HalfOpen? && !v.probing ==> forall p :: p in probes ==> p + s.cooldown <= last)
  }

  ghost predicate Spaced(probes: seq<int>, gap: int)
  {
    forall i, j :: 0 <= i < j < |probes| ==> probes[i] + gap <= probes[j]
  }

  lemma {:induction false} ProbesKept(s: Settings, h: seq<Event>)
    requires s.Positive() && Nondecreasing(h)
    ensures h != [] ==> ProbesBehind(s, After(s, h), Probes(s, h), h[|h| - 1].at)
    ensures Spaced(Probes(s, h), s.cooldown)
  {
    if h != [] {
      var q, e := h[..|h| - 1], h[|h| - 1];
      ProbesKept(s, q);
      assert q != [] ==> q[|q| - 1].at <= e.at;
      var v, ps := After(s, q), Probes(s, q);
      if e.op.Ask? && !v.state.Closed? && Admits(s, v, e.at) {
        assert forall p :: p in ps ==> p + s.cooldown <= e.at;
        assert forall i :: 0 <= i < |ps| ==> ps[i] in ps;
      }
    }
  }

  /**
   Cooldown separation: calls admitted while the breaker is not closed are pairwise at least one
   cooldown apart, whatever outcomes of older calls arrive in between.
   */
  lemma ProbesSeparated(s: Settings, h: seq<Event>)
    requires s.Positive() && Nondecreasing(h)
    ensures forall i, j :: 0 <= i < j < |Probes(s, h)| ==> Probes(s, h)[i] + s.cooldown <= Probes(s, h)[j]
  {
    ProbesKept(s, h);
  }

  /** So a stretch of length `l` holds at most 1 + l / cooldown of them. */
  lemma {:induction false} ProbesInStretch(s: Settings, h: seq<Event>, i: nat, j: nat, from: int, l: int)
    requires s.Positive() && Nondecreasing(h) && i <= j < |Probes(s, h)|
    requires from <= Probes(s, h)[i] && Probes(s, h)[j] <= from + l
    ensures (j - i) * s.cooldown <= l && j - i + 1 <= 1 + l / s.cooldown
    decreases j
  {
    ProbesKept(s, h);
    if i < j {
      ProbesInStretch(s, h, i, j - 1, from, l - s.cooldown);
      assert (j - i) * s.cooldown == (j - 1 - i) * s.cooldown + s.cooldown;
    }
    QuotientBound(j - i, s.cooldown, l);
  }

  lemma QuotientBound(k: int, c: int, l: int)
    requires c > 0 && k * c <= l
    ensures k <= l / c
  {
    if l / c < k {
      MulMonotone(l / c + 1, k, c);
    }
  }

  lemma MulMonotone(a: int, b: int, c: int)
    requires a <= b && c > 0
    ensures a * c <= b * c
  {
  }

  /** An open breaker admits nothing, and stays as it is, until its cooldown is over. */
  lemma {:induction false} NothingBeforeCooldown(s: Settings, h: seq<Event>, more: seq<Event>)
    requires s.Positive() && After(s, h).state.Open?
    requires forall i :: 0 <= i < |more| ==> more[i].at < After(s, h).openedAt + s.cooldown
    ensures After(s, h + more).state.Open? && After(s, h + more).openedAt == After(s, h).openedAt
    ensures Probes(s, h + more) == Probes(s, h)
  {
    if more == [] {
      assert h + more == h;
    } else {
      var q := more[..|more| - 1];
      NothingBeforeCooldown(s, h, q);
      assert (h + more)[..|h + more| - 1] == h + q;
    }
  }

  /** Once its probe is out, a half-open breaker admits nothing more until an outcome arrives. */
  lemma {:induction false} OneProbePerEpisode(s: Settings, h: seq<Event>, more: seq<Event>)
    requires After(s, h).state.HalfOpen? && After(s, h).probing
    requires forall i :: 0 <= i < |more| ==> !more[i].op.Succeed? && !more[i].op.Fail?
    ensures After(s, h + more).state.HalfOpen? && After(s, h + more).probing
    ensures Probes(s, h + more) == Probes(s, h)
  {
    if more == [] {
      assert h + more == h;
    } else {
      var q := more[..|more| - 1];
      OneProbePerEpisode(s, h, q);
      assert (h + more)[..|h + more| - 1] == h + q;
    }
  }
}
