/**
 The retry loop shared by both kinds of notification: attempts until one succeeds, the
 configured number of retries is used up, or the process stops during a wait.
 */
module Retry {

  /** Outcomes by attempt: whether it succeeds, and whether the wait after it is cut short. */
  type Outcomes = nat -> bool

  predicate Ends(retry: int, ok: Outcomes, stopped: Outcomes, i: nat) {
    ok(i) || i >= retry || stopped(i)
  }

  /** None of the first `n` attempts is the last. */
  ghost predicate GoesOn(retry: int, ok: Outcomes, stopped: Outcomes, n: nat) {
    forall j | 0 <= j < n :: !Ends(retry, ok, stopped, j)
  }

  /** `n` attempts are made: the loop ends at the last of them and at none before. */
  ghost predicate Attempts(retry: int, ok: Outcomes, stopped: Outcomes, n: nat) {
    n > 0 && Ends(retry, ok, stopped, n - 1) && GoesOn(retry, ok, stopped, n - 1)
  }

  function Bound(retry: int): nat {
    if retry > 0 then retry + 1 else 1
  }

  /** At least one attempt, never more than the bound, and none after a success or a stop. */
  lemma AttemptsBounded(retry: int, ok: Outcomes, stopped: Outcomes, n: nat)
    requires Attempts(retry, ok, stopped, n)
    ensures 1 <= n <= Bound(retry)
    ensures forall j | 0 <= j < n - 1 :: !ok(j) && !stopped(j)
    ensures !ok(n - 1) ==> n == Bound(retry) || stopped(n - 1)
  {
    forall j | 0 <= j < n - 1 ensures !ok(j) && !stopped(j) {
      assert !Ends(retry, ok, stopped, j);
    }
    if n >= 2 {
      assert !Ends(retry, ok, stopped, n - 2);
    }
  }

  /** The last attempt, counted from attempt `i` on. */
  function LastAttempt(retry: int, ok: Outcomes, stopped: Outcomes, i: nat): nat
    decreases if retry > i then retry - i else 0
  {
    if Ends(retry, ok, stopped, i) then i else LastAttempt(retry, ok, stopped, i + 1)
  }

  lemma {:induction false} LastAttemptEnds(retry: int, ok: Outcomes, stopped: Outcomes, i: nat, n: nat)
    requires GoesOn(retry, ok, stopped, i) && n > i
    ensures Attempts(retry, ok, stopped, n) <==> n == LastAttempt(retry, ok, stopped, i) + 1
    decreases if retry > i then retry - i else 0
  {
    if !Ends(retry, ok, stopped, i) {
      if n > i + 1 {
        LastAttemptEnds(retry, ok, stopped, i + 1, n);
      } else {
        NotYetEnded(retry, ok, stopped, i + 1);
      }
    }
  }

  lemma {:induction false} NotYetEnded(retry: int, ok: Outcomes, stopped: Outcomes, i: nat)
    ensures LastAttempt(retry, ok, stopped, i) >= i
    decreases if retry > i then retry - i else 0
  {
    if !Ends(retry, ok, stopped, i) {
      NotYetEnded(retry, ok, stopped, i + 1);
    }
  }

  /** The outcomes determine the number of attempts: there is one for any outcomes, and only one. */
  lemma AttemptsCounted(retry: int, ok: Outcomes, stopped: Outcomes, n: nat)
    ensures Attempts(retry, ok, stopped, n) <==> n == LastAttempt(retry, ok, stopped, 0) + 1
  {
    if n > 0 {
      LastAttemptEnds(retry, ok, stopped, 0, n);
    }
  }

  // ---------------------------------------------------------------- defaults

  const DEFAULT_TIMEOUT: nat := 10
  const DEFAULT_RETRIES: nat := 3
  const DEFAULT_INTERVAL: nat := 15

  /** The delivery settings of a definition; times in seconds. */
  datatype Settings = Settings(retry: int, timeout: int, interval: int)

  function WithDefaults(s: Settings): Settings {
    Settings(
      if s.retry == 0 then DEFAULT_RETRIES else s.retry,
      if s.timeout <= 0 then DEFAULT_TIMEOUT else s.timeout,
      if s.interval <= 0 then DEFAULT_INTERVAL else s.interval
    )
  }

  /** A definition can ask for one attempt only by a negative number: zero means the default. */
  lemma SingleAttempt(s: Settings)
    ensures Bound(WithDefaults(s).retry) == 1 <==> s.retry < 0
    ensures WithDefaults(WithDefaults(s)) == WithDefaults(s)
    ensures WithDefaults(s).timeout > 0 && WithDefaults(s).interval > 0
    ensures s.retry != 0 && s.timeout > 0 && s.interval > 0 ==> WithDefaults(s) == s
    ensures s.retry == 0 && s.timeout <= 0 && s.interval <= 0 ==> WithDefaults(s) == Settings(3, 10, 15)
  {
  }

  // ---------------------------------------------------------------- time

  /** How long something lasts, by attempt. */
  type Durations = nat -> nat

  /** The wait after each attempt: the timeout, or less when the process stops meanwhile. */
  function Pauses(timeout: nat, stopped: Outcomes, cut: Durations): Durations {
    (i: nat) => if stopped(i) && cut(i) < timeout then cut(i) else timeout
  }

  /** `n` attempts with the wait after each of them. */
  function Elapsed(n: nat, took: Durations, pauses: Durations): nat {
    if n == 0 then 0 else Elapsed(n - 1, took, pauses) + took(n - 1) + pauses(n - 1)
  }

  /** All of `n` attempts; after the last one the loop waits only if it could have gone on. */
  function TotalTime(retry: int, ok: Outcomes, took: Durations, pauses: Durations, n: nat): nat
    requires n > 0
  {
    Elapsed(n - 1, took, pauses) + took(n - 1) + if ok(n - 1) || n - 1 >= retry then 0 else pauses(n - 1)
  }

  lemma NoRoundYet(retry: int, ok: Outcomes, stopped: Outcomes, took: Durations, pauses: Durations)
    ensures GoesOn(retry, ok, stopped, 0) && Elapsed(0, took, pauses) == 0
  {
  }

  lemma OneMoreRound(retry: int, ok: Outcomes, stopped: Outcomes, took: Durations, pauses: Durations, n: nat)
    requires GoesOn(retry, ok, stopped, n) && !Ends(retry, ok, stopped, n)
    ensures GoesOn(retry, ok, stopped, n + 1)
    ensures Elapsed(n + 1, took, pauses) == Elapsed(n, took, pauses) + took(n) + pauses(n)
  {
  }

  lemma {:induction false} ElapsedBounded(n: nat, took: Durations, pauses: Durations, timeout: nat)
    requires forall i | 0 <= i < n :: took(i) <= timeout && pauses(i) <= timeout
    ensures Elapsed(n, took, pauses) <= 2 * n * timeout
  {
    if n > 0 {
      ElapsedBounded(n - 1, took, pauses, timeout);
      assert 2 * n * timeout == 2 * (n - 1) * timeout + 2 * timeout;
    }
  }

  /** When no attempt that is made outlasts the timeout, the whole delivery is bounded by the timeout alone. */
  lemma TimeBounded(retry: int, ok: Outcomes, stopped: Outcomes, took: Durations, cut: Durations, timeout: nat, n: nat)
    requires Attempts(retry, ok, stopped, n) && forall i | 0 <= i < n :: took(i) <= timeout
    ensures TotalTime(retry, ok, took, Pauses(timeout, stopped, cut), n)
         <= (2 * (if retry > 0 then retry else 0) + 1) * timeout
  {
    hide Attempts, Elapsed;
    var pauses := Pauses(timeout, stopped, cut);
    AttemptsBounded(retry, ok, stopped, n);
    ElapsedBounded(n - 1, took, pauses, timeout);
    WithinBound(n, if retry > 0 then retry else 0, timeout);
  }

  lemma TimesMonotone(a: nat, b: nat, c: nat)
    requires a <= b
    ensures a * c <= b * c
  {
    assert b * c == a * c + (b - a) * c;
    assert (b - a) * c >= 0;
  }

  lemma WithinBound(n: nat, retries: nat, timeout: nat)
    requires 1 <= n <= retries + 1
    ensures 2 * (n - 1) * timeout + timeout <= (2 * retries + 1) * timeout
    ensures n <= retries ==> 2 * (n - 1) * timeout + 2 * timeout <= (2 * retries + 1) * timeout
  {
    TimesMonotone(n - 1, retries, timeout);
    if n <= retries {
      TimesMonotone(n, retries, timeout);
      assert (n - 1) * timeout + timeout == n * timeout;
    }
  }

  // ---------------------------------------------------------------- waiting

  function Never(): Outcomes {
    (i: nat) => false
  }

  function NoTime(): Durations {
    (i: nat) => 0
  }

  /** The documented pause between two attempts is the interval: with instant attempts nothing else takes time. */
  ghost predicate WaitsAsDocumented(s: Settings)
    requires s.timeout > 0
  {
    forall ok: Outcomes, n: nat | Attempts(s.retry, ok, Never(), n) ::
      TotalTime(s.retry, ok, NoTime(), Pauses(s.timeout, Never(), NoTime()), n) == (n - 1) * s.interval
  }

  /** Attempts that all take `time`, without a stop. */
  lemma {:induction false} EvenRounds(n: nat, time: nat, timeout: nat)
    ensures Elapsed(n, Always(time), Pauses(timeout, Never(), NoTime())) == n * time + n * timeout
  {
    if n > 0 {
      EvenRounds(n - 1, time, timeout);
      assert n * timeout == (n - 1) * timeout + timeout && n * time == (n - 1) * time + time;
    }
  }

  function Always(time: nat): Durations {
    (i: nat) => time
  }

  /** The time is that of the attempts and of a wait between any two of them. */
  lemma EvenTime(retry: int, ok: Outcomes, time: nat, timeout: nat, n: nat)
    requires Attempts(retry, ok, Never(), n)
    ensures TotalTime(retry, ok, Always(time), Pauses(timeout, Never(), NoTime()), n) == n * time + (n - 1) * timeout
  {
    EvenRounds(n - 1, time, timeout);
    assert n * time == (n - 1) * time + time;
  }

  /** A stop during a wait ends the wait there, and the delivery with it. */
  lemma StopEndsWait(retry: int, ok: Outcomes, stopped: Outcomes, took: Durations, cut: Durations, timeout: nat, i: nat)
    requires i < retry && !ok(i) && stopped(i) && cut(i) <= timeout && GoesOn(retry, ok, stopped, i)
    ensures Attempts(retry, ok, stopped, i + 1)
    ensures var pauses := Pauses(timeout, stopped, cut);
      TotalTime(retry, ok, took, pauses, i + 1) == Elapsed(i, took, pauses) + took(i) + cut(i)
  {
  }

  /** The bound on the time is reached: by attempts that all fail and take the timeout. */
  lemma TimeBoundIsReached(retry: int, timeout: nat)
    ensures var n := Bound(retry);
      && Attempts(retry, Never(), Never(), n)
      && TotalTime(retry, Never(), Always(timeout), Pauses(timeout, Never(), NoTime()), n)
         == (2 * (if retry > 0 then retry else 0) + 1) * timeout
  {
    EvenTime(retry, Never(), timeout, timeout, Bound(retry));
    var retries := if retry > 0 then retry else 0;
    assert (2 * retries + 1) * timeout == (retries + 1) * timeout + retries * timeout;
  }

  /** The loop waits the timeout instead, so the documentation holds only where that makes no difference. */
  lemma IntervalIsNotUsed(s: Settings)
    requires s.timeout > 0
    ensures WaitsAsDocumented(s) <==> s.timeout == s.interval || s.retry <= 0
  {
    forall ok: Outcomes, n: nat | Attempts(s.retry, ok, Never(), n)
      ensures TotalTime(s.retry, ok, NoTime(), Pauses(s.timeout, Never(), NoTime()), n) == (n - 1) * s.timeout
      ensures n == 1 || s.retry > 0
    {
      EvenTime(s.retry, ok, 0, s.timeout, n);
      assert NoTime() == Always(0);
      AttemptsBounded(s.retry, ok, Never(), n);
    }
    if s.retry > 0 && s.timeout != s.interval {
      var n: nat := s.retry + 1;
      assert Attempts(s.retry, Never(), Never(), n);
      assert s.retry * s.timeout != s.retry * s.interval;
    }
  }
}
