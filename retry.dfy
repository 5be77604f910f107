/** `retry` (main.js lines 76-87): call `func`; return what it resolves
    with; rethrow what it rejects with unless `retriable` accepts it; else
    sleep `Math.round(delay * (jitter ? 2*Math.random() : 1))` milliseconds
    and retry with `delay * mult`. The self-call passes no `jitter`, so every
    retry after the first uses the default, true. There is no attempt
    bound: `func` is modelled by the finite list of its calls so far. */
module Retry {
  import opened Outcomes

  /** One call of `func`: how its promise settled, and the Math.random()
      draw (in [0, 1)) that the wait after it uses if it is retried. */
  datatype Attempt<T, E> = Attempt(outcome: Result<T, E>, draw: real)

  /** How `retry` ends: it returns a value, rethrows an error, or is still
      retrying when the given calls run out. */
  datatype Ending<T, E> = Returned(value: T) | Rethrown(error: E) | StillRetrying

  /** The ending, how many times `func` was called, and the milliseconds
      slept between calls. */
  datatype Run<T, E> = Run(ending: Ending<T, E>, calls: nat, waits: seq<int>)

  const DefaultDelay: real := 500.0
  const DefaultMult: real := 1.2

  /** Math.round on a finite number: the nearest integer, halves upward. */
  function Round(x: real): int
  {
    (x + 0.5).Floor
  }

  /** The milliseconds `retry` sleeps before calling again: the delay,
      scaled by 2 * Math.random() when jitter is on. */
  function Wait(delay: real, draw: real, jitter: bool): int
  {
    Round(delay * (if jitter then 2.0 * draw else 1.0))
  }

  function Pow(x: real, n: nat): real
  {
    if n == 0 then 1.0 else x * Pow(x, n - 1)
  }

  /** The `delay` argument of the i-th nested call: multiplied by `mult`
      once per retry. */
  function DelayAt(delay: real, mult: real, i: nat): real
    decreases i
  {
    if i == 0 then delay else DelayAt(delay * mult, mult, i - 1)
  }

  /** The delay of the i-th call is delay * mult^i. */
  lemma {:induction false} DelayAtIsPower(delay: real, mult: real, i: nat)
    ensures DelayAt(delay, mult, i) == delay * Pow(mult, i)
    decreases i
  {
    if i > 0 {
      DelayAtIsPower(delay * mult, mult, i - 1);
      assert Pow(mult, i) == mult * Pow(mult, i - 1);
      assert delay * mult * Pow(mult, i - 1) == delay * Pow(mult, i);
    }
  }

  lemma {:induction false} PowNonNegative(x: real, n: nat)
    requires x >= 0.0
    ensures Pow(x, n) >= 0.0
    decreases n
  {
    if n > 0 {
      PowNonNegative(x, n - 1);
    }
  }

  /** Math.round rounds to the nearest integer, halves upward. */
  lemma RoundIsNearest(x: real)
    ensures x - 0.5 < Round(x) as real <= x + 0.5
  {
  }

  /** Backed-off delays stay non-negative; the first is the delay itself. */
  lemma BackoffNonNegative(delay: real, mult: real, i: nat)
    requires delay >= 0.0 && mult >= 0.0
    ensures delay * Pow(mult, i) >= 0.0
    ensures i == 0 ==> delay * Pow(mult, i) == delay
  {
    PowNonNegative(mult, i);
  }

  /** A wait is never negative and never longer than twice its delay,
      rounded; without jitter it is the delay, rounded. */
  lemma WaitBounds(delay: real, draw: real, jitter: bool)
    requires delay >= 0.0 && 0.0 <= draw < 1.0
    ensures 0 <= Wait(delay, draw, jitter) <= Round(2.0 * delay)
    ensures !jitter ==> Wait(delay, draw, jitter) == Round(delay)
  {
    var f := if jitter then 2.0 * draw else 1.0;
    assert 0.0 <= f <= 2.0;
    assert 0.0 <= delay * f <= 2.0 * delay;
  }

  /** A call after which `retry` stops calling: it succeeded, or failed
      with an error that is not retriable. */
  predicate Settles<T, E>(a: Attempt<T, E>, retriable: E -> bool)
  {
    a.outcome.Success? || !retriable(a.outcome.error)
  }

  /** `retry` as written, following its self-recursion. */
  function RetrySpec<T, E>(attempts: seq<Attempt<T, E>>, retriable: E -> bool,
                           delay: real, mult: real, jitter: bool): (run: Run<T, E>)
    ensures run.calls <= |attempts|
    ensures run.ending.StillRetrying? <==> run.calls == |attempts| && |run.waits| == run.calls
    ensures run.ending.StillRetrying? <==> forall k :: 0 <= k < |attempts| ==> !Settles(attempts[k], retriable)
    ensures run.ending.Returned? ==> 1 <= run.calls && attempts[run.calls - 1].outcome == Success(run.ending.value)
    ensures run.ending.Rethrown? ==>
      && 1 <= run.calls
      && attempts[run.calls - 1].outcome == Failure(run.ending.error)
      && !retriable(run.ending.error)
    decreases |attempts|
  {
    if |attempts| == 0 then Run(StillRetrying, 0, [])
    else
      match attempts[0].outcome
      case Success(v) => Run(Returned(v), 1, [])
      case Failure(e) =>
        if !retriable(e) then Run(Rethrown(e), 1, [])
        else
          var ms := Wait(delay, attempts[0].draw, jitter);
          var rest := RetrySpec(attempts[1..], retriable, delay * mult, mult, true);
          assert rest.calls > 0 ==> attempts[1..][rest.calls - 1] == attempts[rest.calls];
          assert forall k :: 1 <= k < |attempts| ==> attempts[1..][k - 1] == attempts[k];
          Run(rest.ending, rest.calls + 1, [ms] + rest.waits)
  }

  /** `retry` with its recursion turned into a loop that threads the delay
      and the jitter flag through the iterations. */
  method Retry<T, E>(attempts: seq<Attempt<T, E>>, retriable: E -> bool,
                     delay: real, mult: real, jitter: bool)
    returns (ending: Ending<T, E>, calls: nat, waits: seq<int>)
    ensures Run(ending, calls, waits) == RetrySpec(attempts, retriable, delay, mult, jitter)
  {
    calls, waits := 0, [];
    var d, j := delay, jitter;
    while calls < |attempts|
      invariant calls <= |attempts| && |waits| == calls
      invariant var rest := RetrySpec(attempts[calls..], retriable, d, mult, j);
        RetrySpec(attempts, retriable, delay, mult, jitter) == Run(rest.ending, rest.calls + calls, waits + rest.waits)
    {
      var attempt := attempts[calls];
      assert attempts[calls..][0] == attempt;
      calls := calls + 1;
      match attempt.outcome {
        case Success(v) =>
          ending := Returned(v);
          return;
        case Failure(e) =>
          if !retriable(e) {
            ending := Rethrown(e);
            return;
          }
      }
      var ms := Wait(d, attempt.draw, j);
      assert attempts[calls - 1..][1..] == attempts[calls..];
      ghost var rest := RetrySpec(attempts[calls..], retriable, d * mult, mult, true);
      assert RetrySpec(attempts[calls - 1..], retriable, d, mult, j) == Run(rest.ending, rest.calls + 1, [ms] + rest.waits);
      assert waits + ([ms] + rest.waits) == (waits + [ms]) + rest.waits;
      waits := waits + [ms];
      d, j := d * mult, true;
    }
    ending := StillRetrying;
  }

  /** `func` is called until the first call that settles, and `retry`
      ends the way that call did: calls = j + 1 after j retried failures. */
  lemma {:induction false} RetryStopsAtFirstSettled<T, E>(attempts: seq<Attempt<T, E>>, retriable: E -> bool,
                                                          delay: real, mult: real, jitter: bool, j: nat)
    requires j < |attempts| && Settles(attempts[j], retriable)
    requires forall k :: 0 <= k < j ==> !Settles(attempts[k], retriable)
    ensures var run := RetrySpec(attempts, retriable, delay, mult, jitter);
      && run.calls == j + 1
      && |run.waits| == j
      && run.ending == match attempts[j].outcome
                       case Success(v) => Returned(v)
                       case Failure(e) => Rethrown(e)
    decreases j
  {
    if j > 0 {
      RetryStopsAtFirstSettled(attempts[1..], retriable, delay * mult, mult, true, j - 1);
    }
  }

  /** There is no attempt bound: while every call fails retriably, `retry`
      keeps calling and sleeps after each call. */
  lemma {:induction false} RetryNeverGivesUp<T, E>(attempts: seq<Attempt<T, E>>, retriable: E -> bool,
                                                   delay: real, mult: real, jitter: bool)
    requires forall k :: 0 <= k < |attempts| ==> !Settles(attempts[k], retriable)
    ensures var run := RetrySpec(attempts, retriable, delay, mult, jitter);
      run.ending == StillRetrying && run.calls == |attempts| && |run.waits| == |attempts|
    decreases |attempts|
  {
    if |attempts| > 0 {
      RetryNeverGivesUp(attempts[1..], retriable, delay * mult, mult, true);
    }
  }

  /** The wait after call i is Math.round(delay * mult^i * factor); the
      caller's `jitter` decides the factor of the first wait only, every
      later one is jittered. */
  lemma RetryWaitAt<T, E>(attempts: seq<Attempt<T, E>>, retriable: E -> bool,
                          delay: real, mult: real, jitter: bool, i: nat)
    requires i < |RetrySpec(attempts, retriable, delay, mult, jitter).waits|
    ensures i < |attempts|
    ensures RetrySpec(attempts, retriable, delay, mult, jitter).waits[i]
         == Wait(delay * Pow(mult, i), attempts[i].draw, jitter || i > 0)
  {
    RetryWaitDelay(attempts, retriable, delay, mult, jitter, i);
    DelayAtIsPower(delay, mult, i);
  }

  lemma {:induction false} RetryWaitDelay<T, E>(attempts: seq<Attempt<T, E>>, retriable: E -> bool,
                                                delay: real, mult: real, jitter: bool, i: nat)
    requires i < |RetrySpec(attempts, retriable, delay, mult, jitter).waits|
    ensures i < |attempts|
    ensures RetrySpec(attempts, retriable, delay, mult, jitter).waits[i]
         == Wait(DelayAt(delay, mult, i), attempts[i].draw, jitter || i > 0)
    decreases i
  {
    var run := RetrySpec(attempts, retriable, delay, mult, jitter);
    assert attempts[0].outcome.Failure? && retriable(attempts[0].outcome.error);
    var rest := RetrySpec(attempts[1..], retriable, delay * mult, mult, true);
    assert run.waits == [Wait(delay, attempts[0].draw, jitter)] + rest.waits;
    if i > 0 {
      RetryWaitDelay(attempts[1..], retriable, delay * mult, mult, true, i - 1);
      assert attempts[1..][i - 1] == attempts[i];
      assert run.waits[i] == rest.waits[i - 1];
      DelayAtStep(delay, mult, i);
    }
  }

  lemma DelayAtStep(delay: real, mult: real, i: nat)
    requires i > 0
    ensures DelayAt(delay, mult, i) == DelayAt(delay * mult, mult, i - 1)
  {
  }

  /** With draws in [0, 1), a non-negative delay and multiplier, the wait
      after call i lies between 0 and Math.round(2 * delay * mult^i); with
      jitter off, the first wait is exactly Math.round(delay). */
  lemma RetryWaitBounds<T, E>(attempts: seq<Attempt<T, E>>, retriable: E -> bool,
                              delay: real, mult: real, jitter: bool, i: nat)
    requires delay >= 0.0 && mult >= 0.0
    requires forall k :: 0 <= k < |attempts| ==> 0.0 <= attempts[k].draw < 1.0
    requires i < |RetrySpec(attempts, retriable, delay, mult, jitter).waits|
    ensures 0 <= RetrySpec(attempts, retriable, delay, mult, jitter).waits[i] <= Round(2.0 * (delay * Pow(mult, i)))
    ensures i == 0 && !jitter ==> RetrySpec(attempts, retriable, delay, mult, jitter).waits[i] == Round(delay)
  {
    RetryWaitAt(attempts, retriable, delay, mult, jitter, i);
    BackoffWaitBounds(delay, mult, i, attempts[i].draw, jitter || i > 0);
  }

  lemma BackoffWaitBounds(delay: real, mult: real, i: nat, draw: real, jitter: bool)
    requires delay >= 0.0 && mult >= 0.0 && 0.0 <= draw < 1.0
    ensures 0 <= Wait(delay * Pow(mult, i), draw, jitter) <= Round(2.0 * (delay * Pow(mult, i)))
    ensures i == 0 && !jitter ==> Wait(delay * Pow(mult, i), draw, jitter) == Round(delay)
  {
    var d := delay * Pow(mult, i);
    assert d == delay * Pow(mult, i);
    BackoffNonNegative(delay, mult, i);
    WaitBounds(d, draw, jitter);
  }

  /** `retry` as its comment describes it, with `jitter` passed on to the
      recursive call. */
  function RetryIntended<T, E>(attempts: seq<Attempt<T, E>>, retriable: E -> bool,
                               delay: real, mult: real, jitter: bool): Run<T, E>
    decreases |attempts|
  {
    if |attempts| == 0 then Run(StillRetrying, 0, [])
    else
      match attempts[0].outcome
      case Success(v) => Run(Returned(v), 1, [])
      case Failure(e) =>
        if !retriable(e) then Run(Rethrown(e), 1, [])
        else
          var ms := Wait(delay, attempts[0].draw, jitter);
          var rest := RetryIntended(attempts[1..], retriable, delay * mult, mult, jitter);
          Run(rest.ending, rest.calls + 1, [ms] + rest.waits)
  }

  /** Every call in main.js uses the default jitter, true, and for those
      the written and the intended `retry` agree. */
  lemma {:induction false} RetryIntendedAgreesWhenJittered<T, E>(attempts: seq<Attempt<T, E>>, retriable: E -> bool,
                                                                 delay: real, mult: real)
    ensures RetryIntended(attempts, retriable, delay, mult, true) == RetrySpec(attempts, retriable, delay, mult, true)
    decreases |attempts|
  {
    if |attempts| > 0 {
      RetryIntendedAgreesWhenJittered(attempts[1..], retriable, delay * mult, mult);
    }
  }

  /** With jitter off, the intended `retry` backs off deterministically:
      the wait after call i is Math.round(delay * mult^i), whatever the draws. */
  lemma RetryIntendedWithoutJitter<T, E>(attempts: seq<Attempt<T, E>>, retriable: E -> bool,
                                         delay: real, mult: real, i: nat)
    requires i < |RetryIntended(attempts, retriable, delay, mult, false).waits|
    ensures RetryIntended(attempts, retriable, delay, mult, false).waits[i] == Round(delay * Pow(mult, i))
  {
    RetryIntendedUnjitteredDelay(attempts, retriable, delay, mult, i);
    DelayAtIsPower(delay, mult, i);
  }

  lemma {:induction false} RetryIntendedUnjitteredDelay<T, E>(attempts: seq<Attempt<T, E>>, retriable: E -> bool,
                                                              delay: real, mult: real, i: nat)
    requires i < |RetryIntended(attempts, retriable, delay, mult, false).waits|
    ensures i < |attempts|
    ensures RetryIntended(attempts, retriable, delay, mult, false).waits[i] == Wait(DelayAt(delay, mult, i), attempts[i].draw, false)
    decreases i
  {
    var run := RetryIntended(attempts, retriable, delay, mult, false);
    assert attempts[0].outcome.Failure? && retriable(attempts[0].outcome.error);
    var rest := RetryIntended(attempts[1..], retriable, delay * mult, mult, false);
    assert run.waits == [Wait(delay, attempts[0].draw, false)] + rest.waits;
    if i > 0 {
      RetryIntendedUnjitteredDelay(attempts[1..], retriable, delay * mult, mult, i - 1);
      assert attempts[1..][i - 1] == attempts[i];
      assert run.waits[i] == rest.waits[i - 1];
      DelayAtStep(delay, mult, i);
    }
  }

  /** The written `retry` ignores `jitter = false` after the first wait:
      two retriable failures, then success, with draws 0.5 and 0 and the
      default delay and multiplier, wait 500 ms and then 0 ms, where the
      intended backoff waits 500 ms and then 600 ms. */
  lemma JitterDroppedOnRetry()
    ensures var attempts := [Attempt(Failure(500), 0.5), Attempt(Failure(500), 0.0), Attempt(Success(1), 0.0)];
      && RetrySpec(attempts, (e: int) => e >= 500, DefaultDelay, DefaultMult, false).waits == [500, 0]
      && RetryIntended(attempts, (e: int) => e >= 500, DefaultDelay, DefaultMult, false).waits == [500, 600]
  {
    var attempts := [Attempt(Failure(500), 0.5), Attempt(Failure(500), 0.0), Attempt(Success(1), 0.0)];
    assert attempts[1..] == [Attempt(Failure(500), 0.0), Attempt(Success(1), 0.0)];
    assert attempts[1..][1..] == [Attempt(Success(1), 0.0)];
  }
}
