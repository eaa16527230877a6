/** Sending with retries: the attempt loop with capped exponential backoff, and the order of channels. */
module Retry {
  import opened Wrappers

  const SECOND := 1_000_000_000

  datatype RetryConfig = RetryConfig(attempts: int, initialBackoff: int, maxBackoff: int)

  function WithDefaults(c: RetryConfig): (r: RetryConfig)
    ensures r.attempts > 0 && r.initialBackoff > 0 && r.maxBackoff > 0
    ensures r.attempts == (if c.attempts > 0 then c.attempts else 3)
    ensures r.initialBackoff == (if c.initialBackoff > 0 then c.initialBackoff else 1_000_000_000)
    ensures r.maxBackoff == (if c.maxBackoff > 0 then c.maxBackoff else 30_000_000_000)
  {
    RetryConfig(
      if c.attempts <= 0 then 3 else c.attempts,
      if c.initialBackoff <= 0 then SECOND else c.initialBackoff,
      if c.maxBackoff <= 0 then 30 * SECOND else c.maxBackoff)
  }

  /** The wait after attempt `k`: the initial one as it is, later ones doubled and capped. */
  function Backoff(c: RetryConfig, k: nat): int
    requires k >= 1
  {
    if k == 1 then c.initialBackoff
    else
      var doubled := 2 * Backoff(c, k - 1);
      if doubled > c.maxBackoff then c.maxBackoff else doubled
  }

  function TotalBackoff(c: RetryConfig, n: nat): int
  {
    if n == 0 then 0 else TotalBackoff(c, n - 1) + Backoff(c, n)
  }

  function Power2(k: nat): nat
  {
    if k == 0 then 1 else 2 * Power2(k - 1)
  }

  /** From the second wait on the sequence is initial * 2^(k-1), capped at the maximum. */
  lemma {:induction false} BackoffClosed(c: RetryConfig, k: nat)
    requires c.initialBackoff > 0 && c.maxBackoff > 0 && k >= 2
    ensures
      var full := c.initialBackoff * Power2(k - 1);
      Backoff(c, k) == if full > c.maxBackoff then c.maxBackoff else full
  {
    if k > 2 {
      BackoffClosed(c, k - 1);
      assert Power2(k - 1) == 2 * Power2(k - 2);
      Doubles(c.initialBackoff, Power2(k - 2));
    } else {
      assert Power2(1) == 2 * Power2(0) == 2;
      assert Backoff(c, 1) == c.initialBackoff;
    }
  }

  /** The first wait is the initial one; while nothing is capped, `n` waits total initial * (2^n - 1). */
  lemma {:induction false} TotalBackoffClosed(c: RetryConfig, n: nat)
    requires c.initialBackoff > 0 && c.maxBackoff > 0 && (n >= 2 ==> c.initialBackoff * Power2(n - 1) <= c.maxBackoff)
    ensures Backoff(c, 1) == c.initialBackoff
    ensures TotalBackoff(c, n) == c.initialBackoff * (Power2(n) - 1)
  {
    if n >= 1 {
      assert Power2(n) == 2 * Power2(n - 1);
      if n >= 2 {
        BackoffClosed(c, n);
        assert Power2(n - 1) == 2 * Power2(n - 2);
        Doubles(c.initialBackoff, Power2(n - 2));
        SmallerPower(c.initialBackoff, Power2(n - 2));
      }
      TotalBackoffClosed(c, n - 1);
      Spread(c.initialBackoff, Power2(n - 1));
    }
  }

  lemma SmallerPower(a: int, p: nat)
    requires a > 0
    ensures a * p <= 2 * (a * p)
  {
  }

  lemma Spread(a: int, p: int)
    ensures a * (p - 1) + a * p == a * (2 * p - 1)
  {
  }

  lemma Doubles(a: int, b: int)
    ensures a * (2 * b) == 2 * (a * b)
  {
  }

  /** All waits but the first are at most the maximum. */
  lemma {:induction false} TotalBackoffBound(c: RetryConfig, n: nat)
    requires c.initialBackoff > 0 && c.maxBackoff > 0 && n >= 1
    ensures 0 <= TotalBackoff(c, n) <= c.initialBackoff + (n - 1) * c.maxBackoff
  {
    if n > 1 {
      TotalBackoffBound(c, n - 1);
      BackoffPositive(c, n);
      OneMore(n - 1, c.maxBackoff);
    } else {
      assert TotalBackoff(c, 1) == TotalBackoff(c, 0) + Backoff(c, 1);
    }
  }

  lemma OneMore(k: int, m: int)
    ensures k * m == (k - 1) * m + m
  {
  }

  lemma {:induction false} BackoffPositive(c: RetryConfig, k: nat)
    requires c.initialBackoff > 0 && c.maxBackoff > 0 && k >= 1
    ensures Backoff(c, k) > 0 && (k >= 2 ==> Backoff(c, k) <= c.maxBackoff)
  {
    if k > 1 {
      BackoffPositive(c, k - 1);
    }
  }

  /** How a call ends, with the error that can be unwrapped from what is returned. */
  datatype Ended =
    | Succeeded
    | AbortedBefore(cause: string)                    // the context was done before an attempt
    | AbortedAsleep(cause: string, mentioned: string) // the context ended a wait; the last error is only quoted
    | Exhausted(cause: string)

  /** What the outside does: the outcome of the k-th attempt, and when the context is found done. */
  datatype World =
    World(outcome: nat -> Option<string>, contextError: string, doneBefore: nat -> bool, doneAsleep: nat -> bool)
  {
    predicate Succeeds(k: nat)
    {
      outcome(k).None?
    }
  }

  /** The first `n` attempts were made, failed, and were slept off. */
  ghost predicate SleptOff(w: World, n: nat)
  {
    forall k: nat :: 1 <= k <= n ==> !w.Succeeds(k) && !w.doneBefore(k) && !w.doneAsleep(k)
  }

  /** How the loop may end after `calls` attempts. */
  ghost predicate EndsRight(c: RetryConfig, w: World, r: Ended, calls: nat)
  {
    match r
    case Succeeded => calls >= 1 && SleptOff(w, calls - 1) && !w.doneBefore(calls) && w.Succeeds(calls)
    case AbortedBefore(cause) =>
      && calls < c.attempts && SleptOff(w, calls) && w.doneBefore(calls + 1)
      && Some(cause) == if calls == 0 then Some(w.contextError) else w.outcome(calls)
    case AbortedAsleep(cause, mentioned) =>
      && 1 <= calls < c.attempts && SleptOff(w, calls - 1) && !w.doneBefore(calls) && !w.Succeeds(calls)
      && w.doneAsleep(calls) && cause == w.contextError && Some(mentioned) == w.outcome(calls)
    case Exhausted(cause) =>
      && calls == c.attempts && calls >= 1 && SleptOff(w, calls - 1) && !w.doneBefore(calls) && !w.Succeeds(calls)
      && Some(cause) == w.outcome(calls)
  }

  /** The number of waits begun. */
  function Waits(r: Ended, calls: nat): nat
  {
    if calls >= 1 && (r.Succeeded? || r.Exhausted?) then calls - 1 else calls
  }

  /**
   `Retry`: attempts until the first success, at most the configured number, with waits in between.
   `waited` counts every wait at full length, one cut short by the context too.
   */
  method Retry(config: RetryConfig, w: World) returns (r: Ended, calls: nat, waited: int)
    ensures calls <= WithDefaults(config).attempts
    ensures EndsRight(WithDefaults(config), w, r, calls)
    ensures waited == TotalBackoff(WithDefaults(config), Waits(r, calls))
    ensures waited <= MaxWait(WithDefaults(config))
    ensures
      var c := WithDefaults(config);
      if c.attempts == 1 then waited == 0 else 0 <= waited <= c.initialBackoff + (c.attempts - 2) * c.maxBackoff
  {
    var c := WithDefaults(config);
    var backoff := c.initialBackoff;
    var lastErr: Option<string> := None;
    calls, waited := 0, 0;
    for attempt := 1 to c.attempts + 1
      invariant calls == attempt - 1 < c.attempts
      invariant waited == TotalBackoff(c, calls) && backoff == Backoff(c, attempt)
      invariant SleptOff(w, calls)
      invariant lastErr == if calls == 0 then None else w.outcome(calls)
    {
      WaitsBounded(c, calls);
      assert calls > 0 ==> !w.Succeeds(calls);
      if w.doneBefore(attempt) {
        return AbortedBefore(if lastErr.Some? then lastErr.value else w.contextError), calls, waited;
      }
      calls := attempt;
      var err := w.outcome(attempt);
      if err.None? {
        return Succeeded, calls, waited;
      }
      lastErr := err;
      if attempt == c.attempts {
        break;
      }
      waited := waited + backoff;
      WaitsBounded(c, calls);
      if w.doneAsleep(attempt) {
        return AbortedAsleep(w.contextError, lastErr.value), calls, waited;
      }
      backoff := backoff * 2;
      if backoff > c.maxBackoff {
        backoff := c.maxBackoff;
      }
    }
    r := Exhausted(lastErr.value);
  }

  /** The ending is determined by the world: no two endings are possible. */
  lemma EndingUnique(c: RetryConfig, w: World, r1: Ended, n1: nat, r2: Ended, n2: nat)
    requires EndsRight(c, w, r1, n1) && n1 <= c.attempts && EndsRight(c, w, r2, n2) && n2 <= c.attempts
    ensures r1 == r2 && n1 == n2
  {
    assert n1 < n2 ==> n1 + 1 <= n2 - 1 || n1 + 1 == n2;
    assert n2 < n1 ==> n2 + 1 <= n1 - 1 || n2 + 1 == n1;
  }

  /** The longest possible total wait: nothing for one attempt, else the initial wait and capped ones. */
  function MaxWait(c: RetryConfig): int
  {
    if c.attempts < 2 then 0 else c.initialBackoff + (c.attempts - 2) * c.maxBackoff
  }

  lemma WaitsBounded(c: RetryConfig, n: nat)
    requires c.initialBackoff > 0 && c.maxBackoff > 0 && c.attempts > 0 && n < c.attempts
    ensures 0 <= TotalBackoff(c, n) <= MaxWait(c)
  {
    if n >= 1 {
      TotalBackoffBound(c, n);
      Smaller(n - 1, c.attempts - 2, c.maxBackoff);
    } else if c.attempts >= 2 {
      Smaller(0, c.attempts - 2, c.maxBackoff);
    }
  }

  lemma Smaller(a: int, b: int, m: int)
    requires a <= b && m > 0
    ensures a * m <= b * m
  {
  }

  // --- candidateOrder -----------------------------------------------------------------------

  /** The names once each, in order of first appearance, the empty name left out. */
  function FirstOnes(names: seq<string>): seq<string>
  {
    if names == [] then []
    else
      var q, n := FirstOnes(names[..|names| - 1]), names[|names| - 1];
      if n == "" || n in q then q else q + [n]
  }

  lemma {:induction false} FirstOnesExact(names: seq<string>)
    ensures forall i, j :: 0 <= i < j < |FirstOnes(names)| ==> FirstOnes(names)[i] != FirstOnes(names)[j]
    ensures forall n :: n in FirstOnes(names) <==> n in names && n != ""
  {
    if names != [] {
      var q, n := names[..|names| - 1], names[|names| - 1];
      assert names == q + [n];
      FirstOnesExact(q);
      assert forall i :: 0 <= i < |FirstOnes(q)| ==> FirstOnes(q)[i] in FirstOnes(q);
    }
  }

  /** `x` stands at position `k` and nowhere before. */
  ghost predicate FirstAt(names: seq<string>, x: string, k: nat)
  {
    k < |names| && names[k] == x && forall m :: 0 <= m < k ==> names[m] != x
  }

  /** Some of the names, in the order in which they first appear. */
  ghost predicate InFirstOrder(names: seq<string>, out: seq<string>)
  {
    forall i, j, k, l ::
      0 <= i < j < |out| && FirstAt(names, out[i], k) && FirstAt(names, out[j], l) ==> k < l
  }

  /** They come in the order in which they first appear. */
  lemma {:induction false} FirstOnesInOrder(names: seq<string>)
    ensures InFirstOrder(names, FirstOnes(names))
  {
    if names != [] {
      var q, n := names[..|names| - 1], names[|names| - 1];
      var a, b := FirstOnes(q), FirstOnes(names);
      FirstOnesInOrder(q);
      FirstOnesExact(q);
      forall i, j, k, l | 0 <= i < j < |b| && FirstAt(names, b[i], k) && FirstAt(names, b[j], l) ensures k < l {
        assert b[i] == a[i] && a[i] in a && a[i] in q;
        FirstInPrefix(q, n, b[i], k);
        if j < |a| {
          assert a[j] in a && a[j] in q;
          FirstInPrefix(q, n, b[j], l);
        } else {
          assert b[j] == n && n !in q;
        }
      }
    }
  }

  lemma FirstInPrefix(q: seq<string>, n: string, x: string, k: nat)
    requires x in q && FirstAt(q + [n], x, k)
    ensures FirstAt(q, x, k)
  {
    var m :| 0 <= m < |q| && q[m] == x;
    assert (q + [n])[m] == x;
    assert forall i :: 0 <= i < |q| ==> (q + [n])[i] == q[i];
  }

  method CandidateOrder(primary: string, fallback: seq<string>) returns (out: seq<string>)
    ensures out == FirstOnes([primary] + fallback)
    ensures forall i, j :: 0 <= i < j < |out| ==> out[i] != out[j]
    ensures forall n :: n in out <==> n != "" && (n == primary || n in fallback)
    ensures primary != "" ==> out != [] && out[0] == primary
    ensures InFirstOrder([primary] + fallback, out)
  {
    var names := [primary] + fallback;
    var seen: set<string> := {};
    out := [];
    for i := 0 to |names|
      invariant out == FirstOnes(names[..i])
      invariant forall n :: n in seen <==> n in out
    {
      assert names[..i + 1][..i] == names[..i];
      if names[i] != "" && names[i] !in seen {
        seen := seen + {names[i]};
        out := out + [names[i]];
      }
    }
    assert names[..|names|] == names;
    FirstOnesExact(names);
    FirstOnesInOrder(names);
    if primary != "" {
      PrimaryFirst(primary, fallback);
    }
  }

  lemma {:induction false} PrimaryFirst(primary: string, fallback: seq<string>)
    requires primary != ""
    ensures var out := FirstOnes([primary] + fallback); out != [] && out[0] == primary
  {
    var names := [primary] + fallback;
    if fallback == [] {
      assert names[..0] == [];
      assert FirstOnes(names[..0]) == [];
    } else {
      assert names[..|names| - 1] == [primary] + fallback[..|fallback| - 1];
      PrimaryFirst(primary, fallback[..|fallback| - 1]);
    }
  }
}
