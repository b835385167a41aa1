/** One benchmark arm with bounded retries: provider errors and harness failures draw on two
    separate budgets, everything else ends the loop. */
module RetryLoop {

  const PROVIDER_RETRIES := 4
  const HARNESS_RETRIES := 4
  const MAX_ATTEMPTS := 1 + PROVIDER_RETRIES + HARNESS_RETRIES

  /** What one attempt does: return a row, raise HarnessError, or raise anything else. */
  datatype Attempt =
    | Row(valid: bool, reportedError: bool, timedOut: bool)
    | HarnessFailure
    | OtherFailure

  /** How the loop ends: with the row of an attempt, which then records the attempt number,
      with the exception of an attempt, or with the attempt bound. */
  datatype Ending = Returned(attempt: nat) | Raised(attempt: nat) | BoundExhausted

  predicate ProviderFlake(a: Attempt) {
    a.Row? && !a.valid && a.reportedError && !a.timedOut
  }

  /** How many of the first n attempts were provider flakes, or harness failures. */
  function Flakes(run: nat -> Attempt, n: nat): (k: nat)
    ensures k <= n
  {
    if n == 0 then 0 else Flakes(run, n - 1) + if ProviderFlake(run(n)) then 1 else 0
  }

  function Failures(run: nat -> Attempt, n: nat): (k: nat)
    ensures k <= n
  {
    if n == 0 then 0 else Failures(run, n - 1) + if run(n).HarnessFailure? then 1 else 0
  }

  /** Attempt n is retried: it used up one unit of a budget that was not exhausted. */
  predicate Retried(run: nat -> Attempt, n: nat) {
    || (ProviderFlake(run(n)) && Flakes(run, n) <= PROVIDER_RETRIES)
    || (run(n).HarnessFailure? && Failures(run, n) <= HARNESS_RETRIES)
  }

  /** The ending of a run: attempt n is the first one not retried, a returned row if it
      produced one. */
  ghost predicate EndsAt(run: nat -> Attempt, e: Ending) {
    && !e.BoundExhausted?
    && 1 <= e.attempt
    && (forall j | 1 <= j < e.attempt :: Retried(run, j))
    && !Retried(run, e.attempt)
    && (e.Returned? <==> run(e.attempt).Row?)
  }

  /** The seconds slept after the first n attempts: 30 times the running number of retries of
      the kind each one used. */
  function Slept(run: nat -> Attempt, n: nat): (s: nat) {
    if n == 0 then 0
    else
      Slept(run, n - 1)
      + if ProviderFlake(run(n)) then 30 * Flakes(run, n)
        else if run(n).HarnessFailure? then 30 * Failures(run, n)
        else 0
  }

  /** The retry loop.  It ends at the first attempt that is not retried; the final raise of the
      loop is never reached. */
  method RunArmWithRetries(run: nat -> Attempt) returns (ending: Ending, slept: nat)
    ensures EndsAt(run, ending)
    ensures slept == Slept(run, ending.attempt - 1)
  {
    var providerRetries, harnessRetries := 0, 0;
    slept := 0;
    for attempt := 1 to MAX_ATTEMPTS + 1
      invariant attempt == 1 + providerRetries + harnessRetries
      invariant providerRetries == Flakes(run, attempt - 1) <= PROVIDER_RETRIES
      invariant harnessRetries == Failures(run, attempt - 1) <= HARNESS_RETRIES
      invariant forall j | 1 <= j < attempt :: Retried(run, j)
      invariant slept == Slept(run, attempt - 1)
    {
      var row := run(attempt);
      if row.HarnessFailure? {
        harnessRetries := harnessRetries + 1;
        if harnessRetries > HARNESS_RETRIES || attempt >= MAX_ATTEMPTS {
          return Raised(attempt), slept;
        }
        slept := slept + 30 * harnessRetries;
        continue;
      }
      if row.OtherFailure? {
        return Raised(attempt), slept;
      }
      if ProviderFlake(row) && providerRetries < PROVIDER_RETRIES {
        providerRetries := providerRetries + 1;
        slept := slept + 30 * providerRetries;
        continue;
      }
      return Returned(attempt), slept;
    }
    assert false;
    ending := BoundExhausted;
  }

  /** The seconds slept for k retries of one kind: 30 + 60 + ... + 30k. */
  function Backoff(k: nat): (s: nat) {
    if k == 0 then 0 else Backoff(k - 1) + 30 * k
  }

  lemma {:induction false} SleptIsBackoff(run: nat -> Attempt, n: nat)
    ensures Slept(run, n) == Backoff(Flakes(run, n)) + Backoff(Failures(run, n))
  {
    if n == 0 {
    } else {
      SleptIsBackoff(run, n - 1);
    }
  }

  lemma {:induction false} BackoffMonotone(a: nat, b: nat)
    requires a <= b
    ensures Backoff(a) <= Backoff(b)
    decreases b
  {
    if a == b {
    } else {
      BackoffMonotone(a, b - 1);
    }
  }

  lemma BackoffBound(p: nat, h: nat)
    requires p <= 4 && h <= 4
    ensures Backoff(p) + Backoff(h) <= 600
  {
    BackoffMonotone(p, 4);
    BackoffMonotone(h, 4);
    assert Backoff(2) == 90;
    assert Backoff(4) == 300;
  }

  // ----- The ending is determined, and what it means for a row

  lemma EndingUnique(run: nat -> Attempt, e: Ending, f: Ending)
    requires EndsAt(run, e) && EndsAt(run, f)
    ensures e == f
  {
  }

  lemma {:induction false} RetriedSplit(run: nat -> Attempt, n: nat)
    requires forall j | 1 <= j <= n :: Retried(run, j)
    ensures Flakes(run, n) + Failures(run, n) == n
    ensures Flakes(run, n) <= PROVIDER_RETRIES && Failures(run, n) <= HARNESS_RETRIES
  {
    if n == 0 {
    } else {
      RetriedSplit(run, n - 1);
      assert Retried(run, n);
    }
  }

  /** At most nine attempts run, with at most ten minutes of backoff between them.
      A valid row, and a row cut off by the task timeout, is never replayed: it ends the loop
      at its own attempt.  A returned row is invalid for a provider error only after four
      provider retries, and a raised harness failure follows four harness retries. */
  lemma EndingMeaning(run: nat -> Attempt, e: Ending)
    requires EndsAt(run, e)
    ensures e.attempt <= MAX_ATTEMPTS
    ensures Slept(run, e.attempt - 1) <= 600
    ensures forall j | 1 <= j < e.attempt && run(j).Row? :: !run(j).valid && !run(j).timedOut
    ensures e.Returned? && ProviderFlake(run(e.attempt)) ==> Flakes(run, e.attempt - 1) == PROVIDER_RETRIES
    ensures e.Raised? && run(e.attempt).HarnessFailure? ==> Failures(run, e.attempt - 1) == HARNESS_RETRIES
  {
    RetriedSplit(run, e.attempt - 1);
    SleptIsBackoff(run, e.attempt - 1);
    BackoffBound(Flakes(run, e.attempt - 1), Failures(run, e.attempt - 1));
    forall j | 1 <= j < e.attempt && run(j).Row? ensures !run(j).valid && !run(j).timedOut {
      assert Retried(run, j);
    }
  }

  // ----- The ending in terms of the attempts

  /** The attempt gave an invalid row with a provider error and without a timeout. */
  predicate ReportsProviderError(a: Attempt) {
    a.Row? && a.valid == false && a.reportedError == true && a.timedOut == false
  }

  lemma {:induction false} FlakesCount(run: nat -> Attempt, n: nat, s: set<int>)
    requires forall j :: j in s <==> 1 <= j <= n && ReportsProviderError(run(j))
    ensures Flakes(run, n) == |s|
  {
    if n == 0 {
      assert forall j :: j !in s;
      assert s == {};
    } else {
      forall j ensures j in s - {n} <==> 1 <= j <= n - 1 && ReportsProviderError(run(j)) {}
      FlakesCount(run, n - 1, s - {n});
      assert n in s <==> ReportsProviderError(run(n));
    }
  }

  lemma {:induction false} FailuresCount(run: nat -> Attempt, n: nat, s: set<int>)
    requires forall j :: j in s <==> 1 <= j <= n && run(j).HarnessFailure?
    ensures Failures(run, n) == |s|
  {
    if n == 0 {
      assert forall j :: j !in s;
      assert s == {};
    } else {
      forall j ensures j in s - {n} <==> 1 <= j <= n - 1 && run(j).HarnessFailure? {}
      FailuresCount(run, n - 1, s - {n});
      assert n in s <==> run(n).HarnessFailure?;
    }
  }

  /** How many of the attempts in front of n had a provider error, or a harness failure. */
  function ErrorsBefore(run: nat -> Attempt, n: nat): (s: set<int>) {
    set j | 1 <= j < n && ReportsProviderError(run(j))
  }

  function FailuresBefore(run: nat -> Attempt, n: nat): (s: set<int>) {
    set j | 1 <= j < n && run(j).HarnessFailure?
  }

  lemma CountsBefore(run: nat -> Attempt, n: nat)
    requires n >= 1
    ensures Flakes(run, n - 1) == |ErrorsBefore(run, n)| && Failures(run, n - 1) == |FailuresBefore(run, n)|
  {
    FlakesCount(run, n - 1, ErrorsBefore(run, n));
    FailuresCount(run, n - 1, FailuresBefore(run, n));
  }

  lemma {:induction false} CountsGrow(run: nat -> Attempt, j: nat, n: nat)
    requires j <= n
    ensures Flakes(run, j) <= Flakes(run, n) && Failures(run, j) <= Failures(run, n)
    decreases n
  {
    if j == n {
    } else {
      CountsGrow(run, j, n - 1);
    }
  }

  lemma AllRetriedIff(run: nat -> Attempt, n: nat)
    requires n >= 1
    ensures (forall j | 1 <= j < n :: Retried(run, j)) <==>
            && (forall j | 1 <= j < n :: run(j).HarnessFailure? || ReportsProviderError(run(j)))
            && |ErrorsBefore(run, n)| <= 4 && |FailuresBefore(run, n)| <= 4
  {
    CountsBefore(run, n);
    if forall j | 1 <= j < n :: Retried(run, j) {
      RetriedSplit(run, n - 1);
      forall j | 1 <= j < n ensures run(j).HarnessFailure? || ReportsProviderError(run(j)) { assert Retried(run, j); }
    }
    if Flakes(run, n - 1) <= 4 && Failures(run, n - 1) <= 4 {
      forall j | 1 <= j < n && (run(j).HarnessFailure? || ReportsProviderError(run(j))) ensures Retried(run, j) {
        CountsGrow(run, j, n - 1);
      }
    }
  }

  /** The loop ends at attempt n exactly when every attempt in front of it was a harness failure or had a
      provider error, at most four of each, and attempt n returned a row that is valid, timed out or
      without a provider error, or had one after four others, or it failed otherwise, or in the harness
      after four other failures. */
  lemma EndingIff(run: nat -> Attempt, e: Ending)
    ensures EndsAt(run, e) <==>
            && !e.BoundExhausted? && e.attempt >= 1
            && (forall j | 1 <= j < e.attempt :: run(j).HarnessFailure? || ReportsProviderError(run(j)))
            && |ErrorsBefore(run, e.attempt)| <= 4 && |FailuresBefore(run, e.attempt)| <= 4
            && match run(e.attempt)
               case Row(valid, reportedError, timedOut) =>
                 e.Returned? && (valid || timedOut || !reportedError || |ErrorsBefore(run, e.attempt)| == 4)
               case HarnessFailure => e.Raised? && |FailuresBefore(run, e.attempt)| == 4
               case OtherFailure => e.Raised?
  {
    if !e.BoundExhausted? && e.attempt >= 1 {
      AllRetriedIff(run, e.attempt);
      CountsBefore(run, e.attempt);
    }
  }

  /** The seconds slept are 15 k (k + 1) for k provider errors and for k harness failures. */
  lemma SleptMeans(run: nat -> Attempt, n: nat)
    requires n >= 1
    ensures var p, h := |ErrorsBefore(run, n)|, |FailuresBefore(run, n)|;
            Slept(run, n - 1) == 15 * p * (p + 1) + 15 * h * (h + 1)
  {
    CountsBefore(run, n);
    SleptIsBackoff(run, n - 1);
    BackoffIs(Flakes(run, n - 1));
    BackoffIs(Failures(run, n - 1));
  }

  lemma {:induction false} BackoffIs(k: nat)
    ensures Backoff(k) == 15 * k * (k + 1)
  {
    if k == 0 {
    } else {
      BackoffIs(k - 1);
    }
  }
}
