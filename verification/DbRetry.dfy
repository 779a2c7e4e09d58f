/** Retrying database operations with capped exponential backoff, and the health check that nests two retry loops. */
module DbRetry {
  import opened Outcomes

  /** One call of the operation; a failure is transient or not. */
  datatype Reply<T> = Success(value: T) | Failure(transient: bool, error: string)

  /** The replies by attempt number, counted from 1. */
  type Operation<T> = nat -> Reply<T>

  datatype Raised = LastError(transient: bool, error: string) | NoAttempt

  function Power2(n: nat): nat {
    if n == 0 then 1 else 2 * Power2(n - 1)
  }

  function RMin(a: real, b: real): real {
    if b < a then b else a
  }

  /** `_backoff_delay`. */
  function Backoff(attempt: nat, base: real, cap: real): real
    requires attempt >= 1
  {
    RMin(cap, base * Power2(attempt - 1) as real)
  }

  /** Each wait is twice the one before, up to the cap. */
  lemma BackoffDoubles(attempt: nat, base: real, cap: real)
    requires attempt >= 1 && base >= 0.0 && cap >= 0.0
    ensures Backoff(attempt + 1, base, cap) == RMin(cap, 2.0 * Backoff(attempt, base, cap))
    ensures Backoff(1, base, cap) == RMin(cap, base)
  {
    var p := Power2(attempt - 1);
    assert Power2(attempt) == 2 * p;
    Doubled(base, p);
  }

  lemma Doubled(base: real, p: nat)
    ensures base * (2 * p) as real == 2.0 * (base * p as real)
  {
  }

  predicate Retriable<T>(r: Reply<T>, transientOnly: bool) {
    r.Failure? && (transientOnly ==> r.transient)
  }

  /** The attempt at which the loop ends when it has reached attempt `k`. */
  function Stop<T>(op: Operation<T>, retries: nat, transientOnly: bool, k: nat): (n: nat)
    requires 1 <= k <= retries
    ensures k <= n <= retries
    ensures forall j: nat | k <= j < n :: Retriable(op(j), transientOnly)
    ensures n < retries ==> !Retriable(op(n), transientOnly)
    decreases retries - k
  {
    if k == retries || !Retriable(op(k), transientOnly) then k else Stop(op, retries, transientOnly, k + 1)
  }

  /** The stopping attempt is the only one that ends a run of retriable failures. */
  lemma StopIs<T>(op: Operation<T>, retries: nat, transientOnly: bool, n: nat)
    requires 1 <= n <= retries
    requires forall j: nat | 1 <= j < n :: Retriable(op(j), transientOnly)
    requires n < retries ==> !Retriable(op(n), transientOnly)
    ensures Stop(op, retries, transientOnly, 1) == n
  {
  }

  function Answer<T>(r: Reply<T>): Result<T, Raised> {
    match r
    case Success(v) => Ok(v)
    case Failure(t, e) => Err(LastError(t, e))
  }

  function Waits(n: nat, base: real, cap: real): seq<real> {
    seq(n, i requires 0 <= i < n => Backoff(i + 1, base, cap))
  }

  /** The waits of one run: one after every attempt but the last. */
  method RunWithDbRetry<T>(op: Operation<T>, retries: int, base: real, cap: real, transientOnly: bool)
    returns (result: Result<T, Raised>, calls: nat, slept: seq<real>)
    ensures retries <= 0 ==> calls == 0 && result == Err(NoAttempt) && slept == []
    ensures retries > 0 ==> calls == Stop(op, retries, transientOnly, 1) && result == Answer(op(calls)) &&
                            slept == Waits(calls - 1, base, cap)
    ensures retries > 0 ==>
              && 1 <= calls <= retries
              && (forall j: nat | 1 <= j < calls :: op(j).Failure? && (transientOnly ==> op(j).transient))
              && (calls < retries && op(calls).Failure? ==> transientOnly && !op(calls).transient)
              && (op(calls).Success? ==> result == Ok(op(calls).value))
              && (op(calls).Failure? ==> result == Err(LastError(op(calls).transient, op(calls).error)))
  {
    calls, slept := 0, [];
    var lastError := NoAttempt;
    while calls < retries
      invariant calls == 0 || calls < retries
      invariant forall j: nat | 1 <= j <= calls :: Retriable(op(j), transientOnly)
      invariant slept == Waits(calls, base, cap)
    {
      calls := calls + 1;
      var reply := op(calls);
      if reply.Success? || !Retriable(reply, transientOnly) || calls >= retries {
        StopIs(op, retries, transientOnly, calls);
        return Answer(reply), calls, slept;
      }
      slept := slept + [Backoff(calls, base, cap)];
    }
    result := Err(lastError);
  }

  function Sum(waits: seq<real>): real {
    if |waits| == 0 then 0.0 else Sum(waits[..|waits| - 1]) + waits[|waits| - 1]
  }

  function Times(n: nat, cap: real): real {
    n as real * cap
  }

  lemma TimesOneMore(n: nat, cap: real)
    ensures Times(n + 1, cap) == Times(n, cap) + cap
  {
    assert (n + 1) as real == n as real + 1.0;
  }

  lemma {:induction false} TimesMonotone(a: nat, b: nat, cap: real)
    requires a <= b && cap >= 0.0
    ensures Times(a, cap) <= Times(b, cap)
  {
    hide Times;
    if a < b {
      TimesMonotone(a, b - 1, cap);
      TimesOneMore(b - 1, cap);
    }
  }

  /** The waits of a run never add up to more than the cap for every retry. */
  lemma {:induction false} TotalWait(n: nat, retries: nat, base: real, cap: real)
    requires n < retries && cap >= 0.0
    ensures Sum(Waits(n, base, cap)) <= Times(retries - 1, cap)
  {
    SumAtMost(n, base, cap);
    TimesMonotone(n, retries - 1, cap);
  }

  lemma {:induction false} SumAtMost(n: nat, base: real, cap: real)
    ensures Sum(Waits(n, base, cap)) <= Times(n, cap)
  {
    hide Times;
    if n > 0 {
      assert Waits(n, base, cap)[..n - 1] == Waits(n - 1, base, cap);
      SumAtMost(n - 1, base, cap);
      TimesOneMore(n - 1, cap);
    } else {
      assert Times(0, cap) == 0.0 by { TimesZero(cap); }
    }
  }

  lemma TimesZero(cap: real)
    ensures Times(0, cap) == 0.0
  {
  }

  // ---------------------------------------------------------------- the nested health check

  /** Replies of the database by health-check attempt and ping within it. */
  type Pings = nat -> Operation<()>

  /** `_verify_connection` as one operation of the outer loop: its last reply. */
  function Verified(pings: Pings, inner: nat): Operation<()>
    requires inner >= 1
  {
    (k: nat) => pings(k)(Stop(pings(k), inner, true, 1))
  }

  /** Pings sent in the first `n` attempts of the outer loop. */
  function PingsSent(pings: Pings, inner: nat, n: nat): nat
    requires inner >= 1
  {
    if n == 0 then 0 else PingsSent(pings, inner, n - 1) + Stop(pings(n), inner, true, 1)
  }

  lemma OneMoreWait(n: nat, base: real, cap: real)
    ensures Waits(n + 1, base, cap) == Waits(n, base, cap) + [Backoff(n + 1, base, cap)]
  {
  }

  /** `slept` are the waits of the outer loop; those of the inner ones are in the contract of RunWithDbRetry. */
  method CheckDbConnection(pings: Pings, outer: nat, inner: nat, base: real, cap: real, innerBase: real, innerCap: real)
    returns (ok: bool, sent: nat, slept: seq<real>)
    requires outer >= 1 && inner >= 1
    ensures var n := Stop(Verified(pings, inner), outer, true, 1);
            && sent == PingsSent(pings, inner, n) && ok == pings(n)(Stop(pings(n), inner, true, 1)).Success?
            && slept == Waits(n - 1, base, cap)
  {
    hide Backoff, Power2;
    sent, slept := 0, [];
    var attempt := 0;
    while attempt < outer
      invariant attempt < outer
      invariant forall j: nat | 1 <= j <= attempt :: Retriable(Verified(pings, inner)(j), true)
      invariant sent == PingsSent(pings, inner, attempt)
      invariant slept == Waits(attempt, base, cap)
    {
      attempt := attempt + 1;
      var result, calls, waits := RunWithDbRetry(pings(attempt), inner, innerBase, innerCap, true);
      sent := sent + calls;
      if result.Ok? || !result.error.transient || attempt >= outer {
        StopIs(Verified(pings, inner), outer, true, attempt);
        return result.Ok?, sent, slept;
      }
      OneMoreWait(attempt - 1, base, cap);
      slept := slept + [Backoff(attempt, base, cap)];
    }
    ok := false;
  }

  lemma OneMoreRound(n: nat, inner: nat)
    ensures (n + 1) * inner == n * inner + inner
  {
  }

  /** The health check pings at most as often as the product of both limits. */
  lemma {:induction false} PingsBounded(pings: Pings, inner: nat, n: nat)
    requires inner >= 1
    ensures n <= PingsSent(pings, inner, n) <= n * inner
  {
    hide Stop;
    if n > 0 {
      PingsBounded(pings, inner, n - 1);
      OneMoreRound(n - 1, inner);
    }
  }

  predicate AllTransient(pings: Pings, k: nat, upTo: nat) {
    forall j: nat | 1 <= j <= upTo :: Retriable(pings(k)(j), true)
  }

  /** Attempt `k` of the outer loop uses up the inner limit. */
  predicate UsesAll(pings: Pings, inner: nat, k: nat)
    requires inner >= 1
  {
    Stop(pings(k), inner, true, 1) == inner
  }

  lemma UsesAllIff(pings: Pings, inner: nat, k: nat)
    requires inner >= 1
    ensures UsesAll(pings, inner, k) <==> AllTransient(pings, k, inner - 1)
  {
    if AllTransient(pings, k, inner - 1) { StopIs(pings(k), inner, true, inner); }
  }

  lemma {:induction false} FullPingsIff(pings: Pings, inner: nat, n: nat)
    requires inner >= 1
    ensures PingsSent(pings, inner, n) == n * inner <==> forall k: nat | 1 <= k <= n :: UsesAll(pings, inner, k)
  {
    if n > 0 {
      FullPingsIff(pings, inner, n - 1);
      PingsBounded(pings, inner, n - 1);
      OneMoreRound(n - 1, inner);
      LastRound(pings, inner, n);
    }
  }

  lemma LastRound(pings: Pings, inner: nat, n: nat)
    requires inner >= 1 && n >= 1
    ensures PingsSent(pings, inner, n) == PingsSent(pings, inner, n - 1) + Stop(pings(n), inner, true, 1)
    ensures UsesAll(pings, inner, n) <==> Stop(pings(n), inner, true, 1) == inner
  {
  }

  lemma OuterGoesOnIff(pings: Pings, inner: nat, k: nat)
    requires inner >= 1
    ensures AllTransient(pings, k, inner) <==> UsesAll(pings, inner, k) && Retriable(Verified(pings, inner)(k), true)
  {
    UsesAllIff(pings, inner, k);
  }

  /** The product is reached exactly when every ping but the last of all is a transient failure. */
  lemma WorstCaseIff(pings: Pings, outer: nat, inner: nat)
    requires outer >= 1 && inner >= 1
    ensures var sent := PingsSent(pings, inner, Stop(Verified(pings, inner), outer, true, 1));
            && sent <= outer * inner
            && (sent == outer * inner <==>
                AllTransient(pings, outer, inner - 1) && forall k: nat | 1 <= k < outer ::
                    AllTransient(pings, k, inner))
  {
    hide PingsSent, AllTransient, UsesAll, Retriable, Verified;
    var n := Stop(Verified(pings, inner), outer, true, 1);
    PingsBounded(pings, inner, n);
    ProductMonotone(n, outer, inner);
    FullPingsIff(pings, inner, n);
    UsesAllIff(pings, inner, outer);
    forall k: nat | 1 <= k
      ensures AllTransient(pings, k, inner) <==> UsesAll(pings, inner, k) && Retriable(Verified(pings, inner)(k), true)
    {
      OuterGoesOnIff(pings, inner, k);
    }
    if forall k: nat | 1 <= k < outer :: AllTransient(pings, k, inner) {
      StopIs(Verified(pings, inner), outer, true, outer);
    }
  }

  lemma ProductMonotone(n: nat, outer: nat, inner: nat)
    requires n <= outer && inner >= 1
    ensures n * inner <= outer * inner && (n < outer ==> n * inner < outer * inner)
  {
  }
}
